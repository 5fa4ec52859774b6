/**
 * The objects of simulation/utils/check-style.py: patches and chunks that the parser creates and fills in place, and
 * their write methods. Both do what the functions on values of PatchText say.
 */
module PatchSet {
  import T = PatchText
  import opened Wrappers

  /** A line object is set once, before it is added to a chunk; here it is a value. */
  class PatchChunk {
    var srcPos: int
    var dstPos: int
    var lines: seq<T.Line>

    /** Which chunk of which patch this is. */
    ghost const home: (nat, nat)

    constructor (srcPos: int, dstPos: int, ghost home: (nat, nat))
      ensures View() == T.Chunk(srcPos, dstPos, []) && this.home == home
    {
      this.srcPos, this.dstPos, lines := srcPos, dstPos, [];
      this.home := home;
    }

    ghost function View(): T.Chunk
      reads this
    {
      T.Chunk(srcPos, dstPos, lines)
    }

    method AddLine(line: T.Line)
      modifies this
      ensures View() == old(View()).(lines := old(View()).lines + [line])
    {
      lines := lines + [line];
    }
  }

  class Patch {
    var src: string
    var dst: string
    var chunks: seq<PatchChunk>

    /** Which patch of the set this is. */
    ghost const place: nat

    constructor (ghost place: nat)
      ensures src == "" && dst == "" && chunks == [] && this.place == place
    {
      src, dst, chunks := "", "", [];
      this.place := place;
    }

    ghost predicate Shows(v: T.Patch)
      reads this, chunks
    {
      && src == v.src && dst == v.dst && |chunks| == |v.chunks|
      && forall j :: 0 <= j < |chunks| ==> chunks[j].View() == v.chunks[j]
    }
  }

  /** The objects hold the values, and all their chunks are among `parts`. */
  ghost predicate AllShow(patches: seq<Patch>, parts: set<PatchChunk>, vs: seq<T.Patch>)
    reads patches, parts
  {
    && |patches| == |vs|
    && (forall i :: 0 <= i < |patches| ==> forall c :: c in patches[i].chunks ==> c in parts)
    && (forall i :: 0 <= i < |patches| ==> patches[i].Shows(vs[i]))
  }

  /** Objects at different places are different. */
  ghost predicate InPlace(patches: seq<Patch>)
    reads patches
  {
    && (forall i :: 0 <= i < |patches| ==> patches[i].place == i)
    && (forall i, j :: 0 <= i < |patches| && 0 <= j < |patches[i].chunks| ==> patches[i].chunks[j].home == (i, j))
  }

  // ---- Where a new line goes ----

  /** Chunk (a, b) was added last. */
  ghost predicate LastChunk(vs: seq<T.Patch>, a: nat, b: nat) {
    a < |vs| && |vs[a].chunks| == b + 1 && forall i :: a < i < |vs| ==> vs[i].chunks == []
  }

  function WithLine(vs: seq<T.Patch>, a: nat, b: nat, line: T.Line): seq<T.Patch>
    requires a < |vs| && b < |vs[a].chunks|
  {
    var c := vs[a].chunks[b];
    vs[a := vs[a].(chunks := vs[a].chunks[b := c.(lines := c.lines + [line])])]
  }

  lemma {:induction false} AddLineToLast(vs: seq<T.Patch>, a: nat, b: nat, line: T.Line)
    requires LastChunk(vs, a, b)
    ensures T.AddLine(vs, line) == Some(WithLine(vs, a, b, line))
  {
    var n := |vs| - 1;
    var c := vs[a].chunks[b];
    var d := c.(lines := c.lines + [line]);
    if a == n {
      assert vs[a].chunks[b := d] == vs[a].chunks[..b] + [d];
      assert WithLine(vs, a, b, line) == vs[..n] + [WithLine(vs, a, b, line)[n]];
    } else {
      AddLineToLast(vs[..n], a, b, line);
      assert WithLine(vs, a, b, line) == WithLine(vs[..n], a, b, line) + [vs[n]];
    }
  }

  lemma {:induction false} NoChunkNoLine(vs: seq<T.Patch>, line: T.Line)
    requires forall i :: 0 <= i < |vs| ==> vs[i].chunks == []
    ensures T.AddLine(vs, line) == None
  {
    if vs != [] {
      NoChunkNoLine(vs[..|vs| - 1], line);
    }
  }

  // ---- The parser ----

  /** The ghost half of the parser's variables: its chunks, the value of its patches and where the last chunk is. */
  datatype Ledger = Ledger(parts: set<PatchChunk>, values: seq<T.Patch>, last: (nat, nat))

  ghost predicate Sound(patches: seq<Patch>, patch: Patch?, chunk: PatchChunk?, g: Ledger)
    reads patches, g.parts
  {
    && AllShow(patches, g.parts, g.values) && InPlace(patches)
    && (patch == if patches == [] then null else patches[|patches| - 1])
    && (chunk == null ==> forall i :: 0 <= i < |g.values| ==> g.values[i].chunks == [])
    && (chunk != null ==>
          LastChunk(g.values, g.last.0, g.last.1) && chunk == patches[g.last.0].chunks[g.last.1])
  }

  lemma AppendedShow(patches: seq<Patch>, parts: set<PatchChunk>, vs: seq<T.Patch>, next: Patch, v: T.Patch)
    requires AllShow(patches, parts, vs) && next.Shows(v) && next.chunks == []
    ensures AllShow(patches + [next], parts, vs + [v])
  {
  }

  /** A patch without chunks joins the set. */
  lemma PatchAppended(patches: seq<Patch>, patch: Patch?, chunk: PatchChunk?, g: Ledger, next: Patch)
    requires Sound(patches, patch, chunk, g) && next.place == |patches| && next.chunks == []
    ensures Sound(patches + [next], next, chunk, g.(values := g.values + [T.Patch(next.src, next.dst, [])]))
  {
    AppendedShow(patches, g.parts, g.values, next, T.Patch(next.src, next.dst, []));
  }

  method StartPatch(patches: seq<Patch>, patch: Patch?, chunk: PatchChunk?, src: string, ghost g: Ledger)
    returns (more: seq<Patch>, next: Patch, ghost h: Ledger)
    requires Sound(patches, patch, chunk, g)
    ensures Sound(more, next, chunk, h) && fresh(next) && more == patches + [next]
    ensures h.parts == g.parts && h.values == g.values + [T.Patch(src, "", [])]
  {
    next := new Patch(|patches|);
    next.src := src;
    more := patches + [next];
    h := g.(values := g.values + [T.Patch(src, "", [])]);
    PatchAppended(patches, patch, chunk, g, next);
  }

  /** The chunks of the patch at the given place. */
  ghost predicate ChunksShow(chunks: seq<PatchChunk>, place: nat, parts: set<PatchChunk>, vs: seq<T.Chunk>)
    reads chunks
  {
    && |chunks| == |vs| && (forall c :: c in chunks ==> c in parts)
    && forall j :: 0 <= j < |chunks| ==> chunks[j].View() == vs[j] && chunks[j].home == (place, j)
  }

  /** A patch and its chunks, at its place in the set. */
  ghost predicate PatchShows(patch: Patch, place: nat, parts: set<PatchChunk>, v: T.Patch)
    reads patch, patch.chunks
  {
    && patch.place == place && patch.src == v.src && patch.dst == v.dst
    && ChunksShow(patch.chunks, place, parts, v.chunks)
  }

  lemma ChunkJoined(chunks: seq<PatchChunk>, place: nat, parts: set<PatchChunk>, vs: seq<T.Chunk>, next: PatchChunk)
    requires ChunksShow(chunks, place, parts, vs) && next.home == (place, |chunks|)
    ensures ChunksShow(chunks + [next], place, parts + {next}, vs + [next.View()])
  {
  }

  /** The patches before the last one do not depend on it. */
  lemma LastApart(patches: seq<Patch>, patch: Patch, chunk: PatchChunk?, g: Ledger)
    requires Sound(patches, patch, chunk, g)
    ensures patches != [] && patches == patches[..|patches| - 1] + [patch] && patch !in patches[..|patches| - 1]
    ensures |g.values| == |patches|
    ensures var n := |patches| - 1;
            && AllShow(patches[..n], g.parts, g.values[..n]) && InPlace(patches[..n])
            && PatchShows(patch, n, g.parts, g.values[n])
  {
  }

  lemma LastJoined(front: seq<Patch>, before: set<PatchChunk>, vs: seq<T.Patch>,
                   patch: Patch, parts: set<PatchChunk>, v: T.Patch)
    requires AllShow(front, before, vs) && InPlace(front) && before <= parts
    requires PatchShows(patch, |front|, parts, v)
    ensures AllShow(front + [patch], parts, vs + [v]) && InPlace(front + [patch])
  {
  }

  /** Another name for the last patch leaves the current chunk where it is. */
  lemma NameIsSet(front: seq<Patch>, patch: Patch, chunk: PatchChunk?, g: Ledger, v: T.Patch)
    requires |g.values| == |front| + 1 && v.chunks == g.values[|front|].chunks
    requires AllShow(front, g.parts, g.values[..|front|]) && InPlace(front)
    requires PatchShows(patch, |front|, g.parts, v)
    requires chunk == null ==> forall i :: 0 <= i < |g.values| ==> g.values[i].chunks == []
    requires chunk != null ==>
      LastChunk(g.values, g.last.0, g.last.1) && chunk == (front + [patch])[g.last.0].chunks[g.last.1]
    ensures Sound(front + [patch], patch, chunk, g.(values := g.values[..|front|] + [v]))
  {
    LastJoined(front, g.parts, g.values[..|front|], patch, g.parts, v);
  }

  method SetDst(patches: seq<Patch>, patch: Patch, chunk: PatchChunk?, dst: string, ghost g: Ledger)
    returns (ghost h: Ledger)
    requires Sound(patches, patch, chunk, g)
    modifies patch
    ensures Sound(patches, patch, chunk, h)
    ensures h.parts == g.parts && T.Take(T.DstFile(dst), g.values) == Some(h.values)
  {
    LastApart(patches, patch, chunk, g);
    ghost var n := |g.values| - 1;
    ghost var v := g.values[n].(dst := dst);
    patch.dst := dst;
    h := g.(values := g.values[..n] + [v]);
    NameIsSet(patches[..n], patch, chunk, g, v);
  }

  function WithChunk(v: T.Patch, srcPos: nat, dstPos: nat): T.Patch {
    v.(chunks := v.chunks + [T.Chunk(srcPos, dstPos, [])])
  }

  lemma ChunkTaken(vs: seq<T.Patch>, srcPos: nat, dstPos: nat)
    requires vs != []
    ensures var n := |vs| - 1;
            T.Take(T.NewChunk(srcPos, dstPos), vs) == Some(vs[..n] + [WithChunk(vs[n], srcPos, dstPos)])
  {
  }

  /** The last chunk of the last patch is the current one. */
  lemma ChunkIsCurrent(front: seq<Patch>, before: set<PatchChunk>, vs: seq<T.Patch>,
                       patch: Patch, chunk: PatchChunk, parts: set<PatchChunk>, v: T.Patch)
    requires AllShow(front, before, vs) && InPlace(front) && before <= parts
    requires PatchShows(patch, |front|, parts, v)
    requires patch.chunks != [] && chunk == patch.chunks[|patch.chunks| - 1]
    ensures Sound(front + [patch], patch, chunk, Ledger(parts, vs + [v], (|front|, |patch.chunks| - 1)))
  {
    LastJoined(front, before, vs, patch, parts, v);
  }

  method AppendChunk(patch: Patch, srcPos: nat, dstPos: nat, ghost place: nat, ghost parts: set<PatchChunk>,
                     ghost v: T.Patch)
    returns (next: PatchChunk)
    requires PatchShows(patch, place, parts, v)
    modifies patch
    ensures fresh(next) && patch.chunks == old(patch.chunks) + [next]
    ensures PatchShows(patch, place, parts + {next}, WithChunk(v, srcPos, dstPos))
  {
    next := new PatchChunk(srcPos, dstPos, (place, |patch.chunks|));
    ChunkJoined(patch.chunks, place, parts, v.chunks, next);
    patch.chunks := patch.chunks + [next];
  }

  method StartChunk(patches: seq<Patch>, patch: Patch, chunk: PatchChunk?, srcPos: nat, dstPos: nat, ghost g: Ledger)
    returns (next: PatchChunk, ghost h: Ledger)
    requires Sound(patches, patch, chunk, g)
    modifies patch
    ensures Sound(patches, patch, next, h) && fresh(next)
    ensures h.parts == g.parts + {next}
    ensures T.Take(T.NewChunk(srcPos, dstPos), g.values) == Some(h.values)
  {
    LastApart(patches, patch, chunk, g);
    ghost var n := |patches| - 1;
    ghost var front, vs, v := patches[..n], g.values[..n], WithChunk(g.values[n], srcPos, dstPos);
    next := AppendChunk(patch, srcPos, dstPos, n, g.parts, g.values[n]);
    h := Ledger(g.parts + {next}, vs + [v], (n, |patch.chunks| - 1));
    ChunkIsCurrent(front, g.parts, vs, patch, next, h.parts, v);
    ChunkTaken(g.values, srcPos, dstPos);
  }

  /** Only the current chunk changes. */
  method AddLine(patches: seq<Patch>, patch: Patch?, chunk: PatchChunk, line: T.Line, ghost g: Ledger)
    returns (ghost h: Ledger)
    requires Sound(patches, patch, chunk, g)
    modifies chunk
    ensures Sound(patches, patch, chunk, h)
    ensures h.parts == g.parts && T.AddLine(g.values, line) == Some(h.values)
  {
    chunk.AddLine(line);
    AddLineToLast(g.values, g.last.0, g.last.1, line);
    h := g.(values := WithLine(g.values, g.last.0, g.last.1, line));
  }

  /** The patterns are tried one after the other. */
  method ReadForm(line: string) returns (form: T.Form)
    ensures form == T.FormOf(line)
  {
    var m := T.Match(line, "--- ");
    if m.Some? {
      return T.SrcFile(m.value);
    }
    m := T.Match(line, "+++ ");
    if m.Some? {
      return T.DstFile(m.value);
    }
    var header := T.HeaderMatch(line);
    if header.Some? {
      return T.NewChunk(header.value.0, header.value.1);
    }
    m := T.Match(line, "-");
    if m.Some? {
      return T.Text(T.Line(T.Src, m.value));
    }
    m := T.Match(line, "+");
    if m.Some? {
      return T.Text(T.Line(T.Dst, m.value));
    }
    m := T.Match(line, " ");
    return if m.Some? then T.Text(T.Line(T.Both, m.value)) else T.NoForm;
  }

  /** One line of the input. False: an exception. */
  method ReadLine(line: string, before: seq<Patch>, patch: Patch?, chunk: PatchChunk?, ghost g: Ledger)
    returns (ok: bool, patches: seq<Patch>, nowPatch: Patch?, nowChunk: PatchChunk?, ghost h: Ledger)
    requires Sound(before, patch, chunk, g)
    modifies patch, chunk
    ensures ok <==> T.Step(line, g.values).Some?
    ensures ok ==> Sound(patches, nowPatch, nowChunk, h) && T.Step(line, g.values) == Some(h.values)
    ensures ok ==> (nowPatch == patch || fresh(nowPatch)) && (nowChunk == chunk || fresh(nowChunk))
    ensures ok ==> forall p :: p in patches ==> p in before || fresh(p)
    ensures ok ==> forall c :: c in h.parts ==> c in g.parts || fresh(c)
  {
    ok, patches, nowPatch, nowChunk, h := true, before, patch, chunk, g;
    var form := ReadForm(line);
    match form
    case SrcFile(name) =>
      patches, nowPatch, h := StartPatch(before, patch, chunk, name, g);
    case DstFile(name) =>
      ok := patch != null;
      if ok {
        h := SetDst(before, patch, chunk, name, g);
      }
    case NewChunk(srcPos, dstPos) =>
      ok := patch != null;
      if ok {
        nowChunk, h := StartChunk(before, patch, chunk, srcPos, dstPos, g);
      }
    case Text(text) =>
      ok := chunk != null;
      if ok {
        h := AddLine(before, patch, chunk, text, g);
      } else {
        NoChunkNoLine(g.values, text);
      }
    case NoForm =>
      ok := false;
  }

  /** Raises exactly when the parser of PatchText fails, and otherwise builds the patches that it returns. */
  method ParsePatchset(lines: seq<string>) returns (ok: bool, patches: seq<Patch>, ghost parts: set<PatchChunk>)
    ensures ok <==> T.Parse(lines).Some?
    ensures ok ==> AllShow(patches, parts, T.Parse(lines).value)
    ensures ok ==> forall p :: p in patches ==> fresh(p)
    ensures ok ==> forall c :: c in parts ==> fresh(c)
  {
    ok, patches := true, [];
    var patch: Patch?, chunk: PatchChunk? := null, null;
    ghost var g := Ledger({}, [], (0, 0));
    var rest := lines;
    while rest != []
      invariant Sound(patches, patch, chunk, g)
      invariant (patch == null || fresh(patch)) && (chunk == null || fresh(chunk))
      invariant forall p :: p in patches ==> fresh(p)
      invariant forall c :: c in g.parts ==> fresh(c)
      invariant T.Parse(lines) == T.ParseFrom(rest, g.values)
      decreases |rest|
    {
      ok, patches, patch, chunk, g := ReadLine(rest[0], patches, patch, chunk, g);
      if !ok {
        return false, patches, {};
      }
      rest := rest[1..];
    }
    parts := g.parts;
  }

  // ---- The printer ----

  /** The lines on one side of a chunk: removed and unchanged, or added and unchanged. */
  method SideLength(chunk: PatchChunk, side: T.Kind) returns (n: nat)
    requires side != T.Both
    ensures n == T.LengthOn(chunk.lines, side)
  {
    var found: seq<T.Line> := [];
    for i := 0 to |chunk.lines|
      invariant |found| == T.LengthOn(chunk.lines[..i], side)
    {
      assert chunk.lines[..i + 1][..i] == chunk.lines[..i];
      if chunk.lines[i].kind == side || chunk.lines[i].kind == T.Both {
        found := found + [chunk.lines[i]];
      }
    }
    assert chunk.lines[..|chunk.lines|] == chunk.lines;
    n := |found|;
  }

  /** The text that pieces add to a file that holds `before`; None: an exception. */
  function Added(before: string, pieces: Option<seq<string>>): Option<string> {
    match pieces case None => None case Some(all) => Some(before + T.Flatten(all))
  }

  function Result(ok: bool, text: string): Option<string> {
    if ok then Some(text) else None
  }

  lemma FlattenNext(before: string, piece: string, pieces: seq<string>)
    ensures before + T.Flatten([piece] + pieces) == before + piece + T.Flatten(pieces)
  {
    assert ([piece] + pieces)[1..] == pieces;
  }

  lemma {:induction false} FlattenAppend(a: seq<string>, b: seq<string>)
    ensures T.Flatten(a + b) == T.Flatten(a) + T.Flatten(b)
  {
    if a == [] {
      assert a + b == b;
    } else {
      assert (a + b)[1..] == a[1..] + b;
      FlattenAppend(a[1..], b);
    }
  }

  method WriteLine(line: T.Line, file: string) returns (ok: bool, after: string)
    ensures ok <==> line.kind != T.Unset
    ensures ok ==> after == file + (T.Sign(line.kind) + line.text + "\n")
  {
    ok, after := true, file;
    if line.kind == T.Src {
      after := file + ("-" + line.text + "\n");
    } else if line.kind == T.Dst {
      after := file + ("+" + line.text + "\n");
    } else if line.kind == T.Both {
      after := file + (" " + line.text + "\n");
    } else {
      ok := false;
    }
  }

  method WriteLines(lines: seq<T.Line>, file: string) returns (ok: bool, after: string)
    ensures Result(ok, after) == Added(file, T.LinePieces(lines))
  {
    ok, after := true, file;
    var rest := lines;
    while rest != []
      invariant Added(file, T.LinePieces(lines)) == Added(after, T.LinePieces(rest))
      decreases |rest|
    {
      ghost var before := after;
      ok, after := WriteLine(rest[0], after);
      if !ok {
        return;
      }
      if T.LinePieces(rest[1..]).Some? {
        FlattenNext(before, T.Sign(rest[0].kind) + rest[0].text + "\n", T.LinePieces(rest[1..]).value);
      }
      rest := rest[1..];
    }
    assert after + "" == after;
  }

  function ChunkText(c: T.Chunk): Option<seq<string>> {
    match T.LinePieces(c.lines) case None => None case Some(lines) => Some([T.Header(c)] + lines)
  }

  method WriteChunk(chunk: PatchChunk, file: string) returns (ok: bool, after: string)
    ensures Result(ok, after) == Added(file, ChunkText(chunk.View()))
  {
    var srcLen := SideLength(chunk, T.Src);
    var dstLen := SideLength(chunk, T.Dst);
    var header := "@@ -" + (T.Decimal(chunk.srcPos) + ("," + T.HeaderEnd(srcLen, chunk.dstPos, dstLen)));
    ok, after := WriteLines(chunk.lines, file + header);
    if ok {
      FlattenNext(file, header, T.LinePieces(chunk.lines).value);
    }
  }

  /** One chunk at a time. */
  lemma ChunkTextFirst(chunks: seq<T.Chunk>, file: string)
    requires chunks != []
    ensures Added(file, T.ChunkPieces(chunks))
         == match Added(file, ChunkText(chunks[0]))
            case None => None
            case Some(so) => Added(so, T.ChunkPieces(chunks[1..]))
  {
    if ChunkText(chunks[0]).Some? && T.ChunkPieces(chunks[1..]).Some? {
      var first, rest := ChunkText(chunks[0]).value, T.ChunkPieces(chunks[1..]).value;
      FlattenAppend(first, rest);
      assert file + (T.Flatten(first) + T.Flatten(rest)) == file + T.Flatten(first) + T.Flatten(rest);
    }
  }

  method WriteChunks(patch: Patch, ghost v: T.Patch, file: string) returns (ok: bool, after: string)
    requires patch.Shows(v)
    ensures Result(ok, after) == Added(file, T.ChunkPieces(v.chunks))
  {
    ok, after := true, file;
    var i := 0;
    while i < |patch.chunks|
      invariant i <= |patch.chunks|
      invariant Added(file, T.ChunkPieces(v.chunks)) == Added(after, T.ChunkPieces(v.chunks[i..]))
    {
      ChunkTextFirst(v.chunks[i..], after);
      assert v.chunks[i..][1..] == v.chunks[i + 1..];
      ok, after := WriteChunk(patch.chunks[i], after);
      if !ok {
        return;
      }
      i := i + 1;
    }
    assert after + "" == after;
  }

  /** Prints what PatchText prints for the patch; raises when some line is unset. */
  method WritePatch(patch: Patch, ghost v: T.Patch, file: string) returns (ok: bool, after: string)
    requires patch.Shows(v)
    ensures Result(ok, after) == Added(file, T.PatchPieces([v]))
  {
    var src, dst := "--- " + patch.src + "\n", "+++ " + patch.dst + "\n";
    ok, after := WriteChunks(patch, v, file + src + dst);
    PatchPiecesOfOne(v);
    if ok {
      var chunks := T.ChunkPieces(v.chunks).value;
      FlattenNext(file + src, dst, chunks);
      FlattenNext(file, src, [dst] + chunks);
      assert [src] + ([dst] + chunks) == [src, dst] + chunks;
    }
  }

  lemma PatchPiecesOfOne(v: T.Patch)
    ensures T.PatchPieces([v])
         == match T.ChunkPieces(v.chunks)
            case None => None
            case Some(chunks) => Some(["--- " + v.src + "\n", "+++ " + v.dst + "\n"] + chunks)
  {
    assert [v][1..] == [];
    if T.ChunkPieces(v.chunks).Some? {
      var front := ["--- " + v.src + "\n", "+++ " + v.dst + "\n"] + T.ChunkPieces(v.chunks).value;
      assert front + [] == front;
    }
  }
}
