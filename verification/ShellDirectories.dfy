/**
 * Where a command line changes directory to: the path that `cd` builds by joining leads where going from directory to
 * directory leads (simulation/waf-tools/shellcmd.py:220-227).
 */
module ShellDirectories {
  import opened Lists
  import opened ShellMeaning

  /** A directory: the names on the way to it, from the root or from where the program was started. */
  datatype Place = Place(absolute: bool, names: seq<string>)

  /** One character more: it ends a name, begins one or goes on with it. */
  function WithChar(names: seq<string>, starts: bool, c: char): seq<string> {
    if c == '/' then names
    else if starts || names == [] then names + [[c]]
    else names[..|names| - 1] + [names[|names| - 1] + [c]]
  }

  /** A name starts behind this much of a path. */
  predicate AtStart(path: string) {
    path == "" || path[|path| - 1] == '/'
  }

  /** The non-empty names between the slashes of a path. */
  function Names(path: string): seq<string> {
    if path == "" then []
    else
      var front := path[..|path| - 1];
      WithChar(Names(front), AtStart(front), path[|path| - 1])
  }

  predicate IsAbsolute(path: string) {
    path != "" && path[0] == '/'
  }

  function PlaceOf(path: string): Place {
    Place(IsAbsolute(path), Names(path))
  }

  function GoTo(place: Place, dir: string): Place {
    if IsAbsolute(dir) then PlaceOf(dir) else place.(names := place.names + Names(dir))
  }

  /** Where successive changes of directory lead. */
  function GoThrough(place: Place, dirs: seq<string>): Place {
    if dirs == [] then place else GoTo(GoThrough(place, dirs[..|dirs| - 1]), dirs[|dirs| - 1])
  }

  /** One character more. */
  lemma NamesNext(front: string, c: char)
    ensures Names(front + [c]) == WithChar(Names(front), AtStart(front), c)
  {
    assert (front + [c])[..|front|] == front;
  }

  lemma JoinInside(a: seq<string>, b: seq<string>, starts: bool, c: char)
    requires b == [] ==> starts
    ensures WithChar(a + b, starts, c) == a + WithChar(b, starts, c)
  {
  }

  lemma {:induction false} NamesJoin(base: string, dir: string)
    requires AtStart(base)
    ensures Names(base + dir) == Names(base) + Names(dir)
  {
    if dir == "" {
      assert base + dir == base;
    } else {
      var front, c := dir[..|dir| - 1], dir[|dir| - 1];
      assert dir == front + [c];
      NamesJoin(base, front);
      NamesNext(front, c);
      Regroup(base, front, [c]);
      NamesNext(base + front, c);
      StartInside(base, front);
      JoinInside(Names(base), Names(front), AtStart(front), c);
    }
  }

  lemma StartInside(base: string, front: string)
    requires AtStart(base)
    ensures AtStart(base + front) == AtStart(front) && (Names(front) == [] ==> AtStart(front))
  {
    assert front == "" ==> base + front == base;
  }

  lemma JoinPathGoes(base: string, dir: string)
    requires base != ""
    ensures PlaceOf(JoinPath(base, dir)) == GoTo(PlaceOf(base), dir)
    ensures JoinPath(base, dir) != "" && JoinPath(base, dir) != "."
  {
    if !IsAbsolute(dir) {
      if base[|base| - 1] == '/' {
        NamesJoin(base, dir);
      } else {
        assert (base + "/")[..|base|] == base;
        NamesJoin(base + "/", dir);
      }
    }
  }

  lemma {:induction false} ChangeDirsNext(cwd: string, dirs: seq<string>, dir: string)
    ensures ChangeDirs(cwd, dirs + [dir]) == JoinPath(ChangeDirs(cwd, dirs), dir)
    decreases |dirs|
  {
    if dirs == [] {
      assert ([] + [dir])[1..] == [];
    } else {
      assert (dirs + [dir])[1..] == dirs[1..] + [dir];
      ChangeDirsNext(JoinPath(cwd, dirs[0]), dirs[1..], dir);
    }
  }

  /** The directory that a run holds behind some `cd`s is where they lead, and is told from the
      starting one, which is written ".". */
  lemma {:induction false} DirectoriesLead(dirs: seq<string>)
    ensures PlaceOf(ChangeDirs(".", dirs)) == GoThrough(Place(false, ["."]), dirs)
    ensures ChangeDirs(".", dirs) != "" && (ChangeDirs(".", dirs) == "." <==> dirs == [])
    decreases |dirs|
  {
    if dirs == [] {
      assert "."[..0] == "";
    } else {
      var n := |dirs| - 1;
      assert dirs == dirs[..n] + [dirs[n]];
      DirectoriesLead(dirs[..n]);
      ChangeDirsNext(".", dirs[..n], dirs[n]);
      JoinPathGoes(ChangeDirs(".", dirs[..n]), dirs[n]);
    }
  }
}
