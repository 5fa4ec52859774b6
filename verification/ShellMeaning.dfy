/**
 * What a command line means: right-nested short-circuit evaluation of groups of piped commands, with `cd`
 * transparent and each group valued by its last command (simulation/waf-tools/shellcmd.py:202-345). Everything
 * done to the outside world is recorded in a trace.
 */
module ShellMeaning {
  import opened Lists
  import opened ShellParser
  import opened Wrappers

  // ---- The outside world ----

  datatype Source = NoStdin | FromFile(handle: nat) | FromPipe(proc: int)

  datatype Sink = NoSink | NewPipe | SameAsStdout | ToFile(handle: nat) | ToNull

  datatype Event =
    | Opened(handle: nat, name: string, writing: bool)
    | Started(proc: nat, argv: seq<string>, stdin: Source, stdout: Sink, stderr: Sink,
              env: map<string, string>, cwd: Option<string>)
    | Waited(proc: nat)
    | Closed(handle: nat)

  /** Handles and processes are numbered in the order of their creation. */
  datatype World = World(trace: seq<Event>, files: nat, procs: nat)

  const UNTOUCHED: World := World([], 0, 0)

  predicate IsNullDevice(name: string) {
    name == "NUL:" || name == "/dev/null"
  }

  function Open(w: World, name: string, writing: bool): World {
    World(w.trace + [Opened(w.files, name, writing)], w.files + 1, w.procs)
  }

  /** os.path.join on a POSIX system. */
  function JoinPath(base: string, dir: string): string {
    if dir != "" && dir[0] == '/' then dir
    else if base == "" || base[|base| - 1] == '/' then base + dir
    else base + "/" + dir
  }

  /** The null device is never opened: one handle on it is kept for good. */
  function OutFiles(name: string): seq<(string, bool)> {
    if IsNullDevice(name) then [] else [(name, true)]
  }

  function StdinFiles(cmd: Command, piped: bool): seq<(string, bool)> {
    if cmd.stdin.Some? && !piped then [(cmd.stdin.value, false)] else []
  }

  function StdoutFiles(cmd: Command): seq<(string, bool)> {
    if cmd.stdout.OutFile? then OutFiles(cmd.stdout.name) else []
  }

  function StderrFiles(cmd: Command): seq<(string, bool)> {
    if cmd.stderr.ErrFile? then OutFiles(cmd.stderr.name) else []
  }

  /** The files that a command's redirections open, in this order; behind a pipe `<` is ignored. */
  function Redirections(cmd: Command, piped: bool): seq<(string, bool)> {
    StdinFiles(cmd, piped) + StdoutFiles(cmd) + StderrFiles(cmd)
  }

  function OpenAll(w: World, files: seq<(string, bool)>): World
    decreases |files|
  {
    if files == [] then w else OpenAll(Open(w, files[0].0, files[0].1), files[1..])
  }

  /** Where standard input comes from: the process before, or a file with the handle `next`. */
  function StdinSource(cmd: Command, piped: bool, next: nat, proc: nat): Source {
    if piped then FromPipe(proc - 1) else if cmd.stdin.Some? then FromFile(next) else NoStdin
  }

  /** Where standard output goes; a file of its own gets the handle `next`. */
  function StdoutSink(cmd: Command, next: nat): Sink {
    match cmd.stdout
    case Terminal => NoSink
    case IntoPipe => NewPipe
    case OutFile(name) => if IsNullDevice(name) then ToNull else ToFile(next)
  }

  function StderrSink(cmd: Command, next: nat): Sink {
    match cmd.stderr
    case Unset => NoSink
    case WithStdout => SameAsStdout
    case ErrFile(name) => if IsNullDevice(name) then ToNull else ToFile(next)
  }

  /** The Popen call of the process that comes next, when `files` handles existed before its redirections. */
  function Popen(cmd: Command, piped: bool, cwd: string, files: nat, proc: nat): Event {
    Started(
      proc, cmd.argv,
      StdinSource(cmd, piped, files, proc),
      StdoutSink(cmd, files + |StdinFiles(cmd, piped)|),
      StderrSink(cmd, files + |StdinFiles(cmd, piped)| + |StdoutFiles(cmd)|),
      cmd.env,
      if cwd == "." then None else Some(cwd))
  }

  lemma {:induction false} OpenAllCounts(w: World, files: seq<(string, bool)>)
    ensures OpenAll(w, files).files == w.files + |files| && OpenAll(w, files).procs == w.procs
    decreases |files|
  {
    if files != [] {
      OpenAllCounts(Open(w, files[0].0, files[0].1), files[1..]);
    }
  }

  function Launched(ready: World, started: Event): World {
    World(ready.trace + [started], ready.files, ready.procs + 1)
  }

  /** A command starts: its files are opened, then the process. */
  function Launch(cmd: Command, piped: bool, cwd: string, w: World): (after: World)
    ensures after.procs == w.procs + 1 && after.files == w.files + |Redirections(cmd, piped)|
  {
    var ready := OpenAll(w, Redirections(cmd, piped));
    OpenAllCounts(w, Redirections(cmd, piped));
    Launched(ready, Popen(cmd, piped, cwd, w.files, w.procs))
  }

  function Waits(lo: nat, hi: nat): seq<Event> {
    if hi <= lo then [] else Waits(lo, hi - 1) + [Waited(hi - 1)]
  }

  function Closes(lo: nat, hi: nat): seq<Event> {
    if hi <= lo then [] else Closes(lo, hi - 1) + [Closed(hi - 1)]
  }

  /** A group ends: its processes (from `proc` on) are waited for, then its files (from `file` on) are closed. */
  function Finish(w: World, proc: nat, file: nat): World {
    World(w.trace + Waits(proc, w.procs) + Closes(file, w.files), w.files, w.procs)
  }

  // ---- The meaning of a line ----

  /** The `cd` commands in front of a command, and the command. */
  datatype Stage = Stage(dirs: seq<string>, cmd: Command)

  /** Groups of piped commands under right-nested `&&` (and == true) and `||`. */
  datatype Line = Last(group: seq<Stage>) | More(group: seq<Stage>, and: bool, rest: Line)

  function ChangeDirs(cwd: string, dirs: seq<string>): string
    decreases |dirs|
  {
    if dirs == [] then cwd else ChangeDirs(JoinPath(cwd, dirs[0]), dirs[1..])
  }

  /** The first command of a group reads its own input, the others read the pipe (`piped`). */
  function StartGroup(group: seq<Stage>, piped: bool, cwd: string, w: World): (string, World)
    decreases |group|
  {
    if group == [] then (cwd, w)
    else
      var dir := ChangeDirs(cwd, group[0].dirs);
      StartGroup(group[1..], true, dir, Launch(group[0].cmd, piped, dir, w))
  }

  /** The k-th process to be started exits with status(k). */
  type Statuses = int -> int

  /** Evaluation when part of the first group (processes from `proc`, files from `file`) is running already. */
  function ValueFrom(
    line: Line, piped: bool, proc: nat, file: nat, cwd: string, w: World, status: Statuses): (int, World)
    decreases line, 1
  {
    var (dir, running) := StartGroup(line.group, piped, cwd, w);
    ValueOf(line, proc, file, dir, running, status)
  }

  /** Evaluation once all commands of the first group are running. */
  function ValueOf(line: Line, proc: nat, file: nat, cwd: string, running: World, status: Statuses): (int, World)
    decreases line, 0
  {
    var done := Finish(running, proc, file);
    var s := status(done.procs - 1);
    if line.More? && (s == 0) == line.and then ValueFrom(line.rest, false, done.procs, done.files, cwd, done, status)
    else (s, done)
  }

  /** The status of a line and all that happens while it runs. */
  function Value(line: Line, status: Statuses): (int, World) {
    ValueFrom(line, false, 0, 0, ".", UNTOUCHED, status)
  }

  // ---- Scripts as lines ----

  /** Every `cd` names a directory and the last unit is a command. */
  predicate Runnable(script: Script) {
    match script
    case Final(unit, _) => unit.Simple?
    case Joined(unit, _, rest) => (unit.Cd? ==> unit.dirs != []) && Runnable(rest)
  }

  function WithDir(line: Line, dir: string): Line
    requires line.group != []
  {
    line.(group := [Stage([dir] + line.group[0].dirs, line.group[0].cmd)] + line.group[1..])
  }

  predicate Grouped(line: Line) {
    line.group != [] && (line.More? ==> Grouped(line.rest))
  }

  /** `cd` belongs to the command behind it, `|` binds tighter than `&&` and `||`, and these nest to the right. */
  function LineOf(script: Script): (line: Line)
    requires Valid(script) && Runnable(script)
    ensures Grouped(line)
  {
    match script
    case Final(unit, _) => Last([Stage([], UnitNode(unit, false).cmd)])
    case Joined(unit, op, rest) =>
      var tail := LineOf(rest);
      if unit.Cd? then WithDir(tail, unit.dirs[0])
      else
        var stage := Stage([], UnitNode(unit, op == PipeOp).cmd);
        if op == PipeOp then tail.(group := [stage] + tail.group)
        else More([stage], op == AndOp, tail)
  }

  // ---- Every file is closed once, every process is waited for ----

  /** How many files and processes an observer has seen so far. */
  datatype Book = Book(files: nat, procs: nat, waited: nat, closed: nat)

  /**
   * The observer objects to a number used twice, to a second close or wait, to a file closed before it is opened
   * and to a file closed while some process has not been waited for.
   */
  function Note(b: Book, e: Event): Option<Book> {
    match e
    case Opened(h, _, _) => if h == b.files then Some(b.(files := h + 1)) else None
    case Started(p, _, _, _, _, _, _) => if p == b.procs then Some(b.(procs := p + 1)) else None
    case Waited(p) => if p == b.waited < b.procs then Some(b.(waited := p + 1)) else None
    case Closed(h) => if h == b.closed < b.files && b.waited == b.procs then Some(b.(closed := h + 1)) else None
  }

  function Audit(trace: seq<Event>): Option<Book> {
    if trace == [] then Some(Book(0, 0, 0, 0))
    else match Audit(trace[..|trace| - 1])
         case None => None
         case Some(b) => Note(b, trace[|trace| - 1])
  }

  /** Processes below `proc` are waited for and files below `file` are closed; the others are not. */
  ghost predicate Tidy(w: World, proc: nat, file: nat) {
    proc <= w.procs && file <= w.files && Audit(w.trace) == Some(Book(w.files, w.procs, proc, file))
  }

  lemma AuditMore(trace: seq<Event>, e: Event)
    requires Audit(trace).Some?
    ensures Audit(trace + [e]) == Note(Audit(trace).value, e)
  {
    assert (trace + [e])[..|trace|] == trace;
  }

  lemma AuditOneMore(trace: seq<Event>, more: seq<Event>, e: Event, all: seq<Event>, b: Book)
    requires Audit(trace + more) == Some(b) && all == more + [e]
    ensures Audit(trace + all) == Note(b, e)
  {
    AuditMore(trace + more, e);
    Regroup(trace, more, [e]);
  }

  lemma {:induction false} OpenAllTidy(w: World, proc: nat, file: nat, files: seq<(string, bool)>)
    requires Tidy(w, proc, file)
    ensures Tidy(OpenAll(w, files), proc, file)
    decreases |files|
  {
    if files != [] {
      AuditMore(w.trace, Opened(w.files, files[0].0, files[0].1));
      OpenAllTidy(Open(w, files[0].0, files[0].1), proc, file, files[1..]);
    }
  }

  lemma LaunchTidy(cmd: Command, piped: bool, cwd: string, w: World, proc: nat, file: nat)
    requires Tidy(w, proc, file)
    ensures Tidy(Launch(cmd, piped, cwd, w), proc, file)
  {
    var ready := OpenAll(w, Redirections(cmd, piped));
    OpenAllTidy(w, proc, file, Redirections(cmd, piped));
    OpenAllCounts(w, Redirections(cmd, piped));
    AuditMore(ready.trace, Popen(cmd, piped, cwd, w.files, w.procs));
  }

  lemma {:induction false} StartGroupTidy(group: seq<Stage>, piped: bool, cwd: string, w: World, proc: nat, file: nat)
    requires Tidy(w, proc, file)
    ensures Tidy(StartGroup(group, piped, cwd, w).1, proc, file)
    decreases |group|
  {
    if group != [] {
      var dir := ChangeDirs(cwd, group[0].dirs);
      LaunchTidy(group[0].cmd, piped, dir, w, proc, file);
      StartGroupTidy(group[1..], true, dir, Launch(group[0].cmd, piped, dir, w), proc, file);
    }
  }

  lemma {:induction false} WaitsAudited(trace: seq<Event>, b: Book, hi: nat)
    requires Audit(trace) == Some(b) && b.waited <= hi <= b.procs
    ensures Audit(trace + Waits(b.waited, hi)) == Some(b.(waited := hi))
    decreases hi
  {
    if hi == b.waited {
      assert trace + [] == trace;
    } else {
      WaitsAudited(trace, b, hi - 1);
      var so := b.(waited := hi - 1);
      assert Note(so, Waited(hi - 1)) == Some(b.(waited := hi));
      AuditOneMore(trace, Waits(b.waited, hi - 1), Waited(hi - 1), Waits(b.waited, hi), so);
    }
  }

  lemma {:induction false} ClosesAudited(trace: seq<Event>, b: Book, hi: nat)
    requires Audit(trace) == Some(b) && b.waited == b.procs && b.closed <= hi <= b.files
    ensures Audit(trace + Closes(b.closed, hi)) == Some(b.(closed := hi))
    decreases hi
  {
    if hi == b.closed {
      assert trace + [] == trace;
    } else {
      ClosesAudited(trace, b, hi - 1);
      var so := b.(closed := hi - 1);
      assert Note(so, Closed(hi - 1)) == Some(b.(closed := hi));
      AuditOneMore(trace, Closes(b.closed, hi - 1), Closed(hi - 1), Closes(b.closed, hi), so);
    }
  }

  lemma FinishTidy(w: World, proc: nat, file: nat)
    requires Tidy(w, proc, file)
    ensures Tidy(Finish(w, proc, file), w.procs, w.files)
  {
    WaitsAudited(w.trace, Book(w.files, w.procs, proc, file), w.procs);
    ClosesAudited(w.trace + Waits(proc, w.procs), Book(w.files, w.procs, w.procs, file), w.files);
  }

  lemma {:induction false} ValueTidy(
    line: Line, piped: bool, proc: nat, file: nat, cwd: string, w: World, status: Statuses)
    requires Tidy(w, proc, file)
    ensures var (_, end) := ValueFrom(line, piped, proc, file, cwd, w, status); Tidy(end, end.procs, end.files)
    decreases line
  {
    var (dir, running) := StartGroup(line.group, piped, cwd, w);
    StartGroupTidy(line.group, piped, cwd, w, proc, file);
    FinishTidy(running, proc, file);
    var done := Finish(running, proc, file);
    if line.More? && (status(done.procs - 1) == 0) == line.and {
      ValueTidy(line.rest, false, done.procs, done.files, dir, done, status);
    }
  }

  /** Whatever the statuses: each file opened is closed exactly once, and each process is waited for exactly once. */
  lemma EverythingClosed(line: Line, status: Statuses)
    ensures var (_, end) := Value(line, status);
            Audit(end.trace) == Some(Book(end.files, end.procs, end.procs, end.files))
  {
    ValueTidy(line, false, 0, 0, ".", UNTOUCHED, status);
  }

  // ---- Compared with the left-to-right AND-OR lists of the POSIX shell ----

  /** An operator whose test fails skips one group only; evaluation goes on with the next operator. */
  function PosixFrom(line: Line, cwd: string, w: World, status: Statuses): (int, World)
    decreases line, 1
  {
    var (dir, running) := StartGroup(line.group, false, cwd, w);
    var done := Finish(running, w.procs, w.files);
    PosixRest(line, status(done.procs - 1), dir, done, status)
  }

  function PosixRest(line: Line, s: int, cwd: string, w: World, status: Statuses): (int, World)
    decreases line, 0
  {
    if line.Last? then (s, w)
    else if (s == 0) == line.and then PosixFrom(line.rest, cwd, w, status)
    else PosixRest(line.rest, s, cwd, w, status)
  }

  /** All the operators of a line are the same. */
  predicate Uniform(line: Line) {
    line.More? && line.rest.More? ==> line.and == line.rest.and && Uniform(line.rest)
  }

  lemma {:induction false} UniformSkips(line: Line, s: int, cwd: string, w: World, status: Statuses)
    requires Uniform(line) && (line.More? ==> (s == 0) != line.and)
    ensures PosixRest(line, s, cwd, w, status) == (s, w)
    decreases line
  {
    if line.More? {
      UniformSkips(line.rest, s, cwd, w, status);
    }
  }

  lemma {:induction false} UniformAgrees(line: Line, cwd: string, w: World, status: Statuses)
    requires Uniform(line)
    ensures PosixFrom(line, cwd, w, status) == ValueFrom(line, false, w.procs, w.files, cwd, w, status)
    decreases line
  {
    var (dir, running) := StartGroup(line.group, false, cwd, w);
    var done := Finish(running, w.procs, w.files);
    var s := status(done.procs - 1);
    if line.More? && (s == 0) == line.and {
      UniformAgrees(line.rest, dir, done, status);
    } else {
      UniformSkips(line, s, dir, done, status);
    }
  }

  lemma {:induction false} PosixGrows(line: Line, cwd: string, w: World, status: Statuses)
    requires Grouped(line)
    ensures PosixFrom(line, cwd, w, status).1.procs > w.procs
    decreases line, 1
  {
    var (dir, running) := StartGroup(line.group, false, cwd, w);
    GroupCounts(line.group, false, cwd, w);
    var done := Finish(running, w.procs, w.files);
    PosixRestGrows(line, status(done.procs - 1), dir, done, status);
  }

  lemma {:induction false} PosixRestGrows(line: Line, s: int, cwd: string, w: World, status: Statuses)
    requires Grouped(line)
    ensures PosixRest(line, s, cwd, w, status).1.procs >= w.procs
    decreases line, 0
  {
    if line.More? {
      if (s == 0) == line.and {
        PosixGrows(line.rest, cwd, w, status);
      } else {
        PosixRestGrows(line.rest, s, cwd, w, status);
      }
    }
  }

  lemma {:induction false} GroupCounts(group: seq<Stage>, piped: bool, cwd: string, w: World)
    ensures StartGroup(group, piped, cwd, w).1.procs == w.procs + |group|
    decreases |group|
  {
    if group != [] {
      var dir := ChangeDirs(cwd, group[0].dirs);
      GroupCounts(group[1..], true, dir, Launch(group[0].cmd, piped, dir, w));
    }
  }

  /** Another operator behind a failed test: the POSIX shell runs one more group at least. */
  lemma {:induction false} MixedGoesOn(line: Line, s: int, cwd: string, w: World, status: Statuses)
    requires Grouped(line) && !Uniform(line)
    requires (s == 0) != line.and
    ensures PosixRest(line, s, cwd, w, status).1.procs > w.procs
    decreases line
  {
    if line.and == line.rest.and {
      MixedGoesOn(line.rest, s, cwd, w, status);
    } else {
      PosixGrows(line.rest.rest, cwd, w, status);
    }
  }

  /**
   * Right-nested evaluation is what the POSIX shell does, whatever the statuses, exactly on lines that do not mix
   * `&&` and `||`; section 2.9.3 of POSIX.1-2017 gives the two the same precedence and left associativity.
   */
  lemma PosixExactlyWhenUniform(line: Line)
    requires Grouped(line)
    ensures Uniform(line) <==>
            forall status: Statuses :: PosixFrom(line, ".", UNTOUCHED, status) == Value(line, status)
  {
    if Uniform(line) {
      forall status: Statuses
        ensures PosixFrom(line, ".", UNTOUCHED, status) == Value(line, status)
      {
        UniformAgrees(line, ".", UNTOUCHED, status);
      }
    } else {
      var status: Statuses := k => if line.and then 1 else 0;
      var (dir, running) := StartGroup(line.group, false, ".", UNTOUCHED);
      GroupCounts(line.group, false, ".", UNTOUCHED);
      MixedGoesOn(line, status(running.procs - 1), dir, Finish(running, 0, 0), status);
      assert Value(line, status) == ValueOf(line, 0, 0, dir, running, status);
      assert PosixFrom(line, ".", UNTOUCHED, status) != Value(line, status);
    }
  }
}
