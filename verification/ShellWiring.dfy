/**
 * How the processes of a command line are connected, read off the trace of a run alone: who reads whose pipe, which
 * files were opened for whom, which variables and which directory a process is started with
 * (simulation/waf-tools/shellcmd.py:224-290).
 */
module ShellWiring {
  import opened Lists
  import opened ShellDirectories
  import opened ShellParser
  import opened ShellMeaning
  import opened ShellPipeline
  import opened Wrappers

  /**
   * One command of a script: what its words, redirections and assignments say, where it is to run, its place in its
   * group, and the operator behind it.
   */
  datatype Slot = Slot(
    argv: seq<string>, inputs: seq<string>, outputs: seq<string>, errors: seq<Stderr>, env: map<string, string>,
    cwd: Option<string>, first: bool, last: bool, behind: Option<Op>)

  function SlotOf(
    assigns: seq<string>, name: string, items: seq<Item>, dirs: seq<string>, first: bool, behind: Option<Op>): Slot
  {
    Slot([name] + Words(items), Inputs(items), Outputs(items), ErrorSinks(items), EnvOf(assigns),
         if dirs == [] then None else Some(ChangeDirs(".", dirs)), first, behind != Some(PipeOp), behind)
  }

  /** The commands of a script in order; `|` behind a command keeps its group going. */
  function SlotsFrom(script: Script, first: bool, dirs: seq<string>): seq<Slot> {
    match script
    case Final(Simple(assigns, name, items), _) => [SlotOf(assigns, name, items, dirs, first, None)]
    case Final(Cd(_), _) => []
    case Joined(Simple(assigns, name, items), op, rest) =>
      [SlotOf(assigns, name, items, dirs, first, Some(op))] + SlotsFrom(rest, op != PipeOp, dirs)
    case Joined(Cd(more), _, rest) => SlotsFrom(rest, first, dirs + more)
  }

  function Slots(script: Script): seq<Slot> {
    SlotsFrom(script, true, [])
  }

  // ---- What one process is connected to ----

  /** Event t comes right behind the opening of this file, up to openings of other files. */
  ghost predicate JustOpened(trace: seq<Event>, t: nat, handle: nat, name: string, writing: bool) {
    exists u: nat :: OpenedAt(trace, t, u, handle, name, writing)
  }

  ghost predicate OpenedAt(trace: seq<Event>, t: nat, u: nat, handle: nat, name: string, writing: bool) {
    && u < t <= |trace| && trace[u] == Opened(handle, name, writing)
    && forall k :: u < k < t ==> trace[k].Opened?
  }

  /** Process q was started before event t, with a pipe for its output. */
  ghost predicate FeedsPipe(trace: seq<Event>, t: nat, q: int) {
    exists u: nat :: u < t <= |trace| && trace[u].Started? && trace[u].proc == q && trace[u].stdout == NewPipe
  }

  /** Only the first process of a group has an input of its own; the others read the process before. */
  ghost predicate StdinFits(slot: Slot, proc: nat, stdin: Source, trace: seq<Event>, t: nat) {
    var names := slot.inputs;
    match stdin
    case NoStdin => slot.first && names == []
    case FromFile(h) => slot.first && names != [] && JustOpened(trace, t, h, names[0], false)
    case FromPipe(q) => !slot.first && q == proc - 1 && FeedsPipe(trace, t, q)
  }

  /** Only the last process of a group writes anywhere but into a pipe. */
  ghost predicate StdoutFits(slot: Slot, stdout: Sink, trace: seq<Event>, t: nat) {
    var names := slot.outputs;
    match stdout
    case NoSink => slot.last && names == []
    case NewPipe => !slot.last && names == []
    case SameAsStdout => false
    case ToNull => slot.last && names != [] && names[0] in {"NUL:", "/dev/null"}
    case ToFile(h) =>
      slot.last && names != [] && names[0] !in {"NUL:", "/dev/null"} && JustOpened(trace, t, h, names[0], true)
  }

  ghost predicate StderrFits(slot: Slot, stderr: Sink, trace: seq<Event>, t: nat) {
    var sinks := slot.errors;
    match stderr
    case NoSink => sinks == []
    case NewPipe => false
    case SameAsStdout => sinks == [WithStdout]
    case ToNull => sinks != [] && sinks[0].ErrFile? && sinks[0].name in {"NUL:", "/dev/null"}
    case ToFile(h) =>
      && sinks != [] && sinks[0].ErrFile? && sinks[0].name !in {"NUL:", "/dev/null"}
      && JustOpened(trace, t, h, sinks[0].name, true)
  }

  /** The redirections collected from the items are those that stand there. */
  lemma {:induction false} ItemsCollected(items: seq<Item>)
    ensures forall name :: name in Inputs(items) <==> Input(name) in items
    ensures forall name :: name in Outputs(items) <==> Output(name) in items
    ensures forall name :: ErrFile(name) in ErrorSinks(items) <==> Errors(name) in items
    ensures WithStdout in ErrorSinks(items) <==> Merge in items
  {
    if items != [] {
      var n := |items| - 1;
      ItemsCollected(items[..n]);
      assert items == items[..n] + [items[n]];
    }
  }

  /** Event t starts the command of the slot with everything that belongs to it. */
  ghost predicate Fits(slot: Slot, trace: seq<Event>, t: nat)
    requires t < |trace| && trace[t].Started?
  {
    var e := trace[t];
    && e.argv == slot.argv && e.env == slot.env && e.cwd == slot.cwd
    && StdinFits(slot, e.proc, e.stdin, trace, t)
    && StdoutFits(slot, e.stdout, trace, t)
    && StderrFits(slot, e.stderr, trace, t)
    && (e.stdout.ToFile? && e.stderr.ToFile? ==> e.stdout.handle != e.stderr.handle)
  }

  ghost predicate FitsAt(slots: seq<Slot>, procs: nat, trace: seq<Event>, t: nat)
    requires t < |trace|
  {
    trace[t].Started? ==> trace[t].proc < procs <= |slots| && Fits(slots[trace[t].proc], trace, t)
  }

  ghost predicate HasStarted(trace: seq<Event>, p: nat) {
    exists t: nat :: t < |trace| && trace[t].Started? && trace[t].proc == p
  }

  /** The first `w.procs` commands have been started, each as its slot says, and nothing else. */
  ghost predicate Wired(slots: seq<Slot>, w: World) {
    && w.procs <= |slots|
    && (forall t: nat {:trigger FitsAt(slots, w.procs, w.trace, t)} ::
          t < |w.trace| ==> FitsAt(slots, w.procs, w.trace, t))
    && forall p: nat {:trigger HasStarted(w.trace, p)} :: p < w.procs ==> HasStarted(w.trace, p)
  }

  // ---- A longer trace does not change what has been ----

  lemma FitsStays(slot: Slot, trace: seq<Event>, longer: seq<Event>, t: nat)
    requires trace <= longer && t < |trace| && trace[t].Started? && Fits(slot, trace, t)
    ensures Fits(slot, longer, t)
  {
    forall u: nat, h, name, writing | OpenedAt(trace, t, u, h, name, writing)
      ensures JustOpened(longer, t, h, name, writing)
    {
      assert OpenedAt(longer, t, u, h, name, writing);
    }
  }

  lemma WiredStays(slots: seq<Slot>, w: World, longer: World)
    requires Wired(slots, w) && w.trace <= longer.trace && w.procs == longer.procs
    requires forall t :: |w.trace| <= t < |longer.trace| ==> !longer.trace[t].Started?
    ensures Wired(slots, longer)
  {
    forall t: nat | t < |longer.trace|
      ensures FitsAt(slots, longer.procs, longer.trace, t)
    {
      if t < |w.trace| && w.trace[t].Started? {
        assert FitsAt(slots, w.procs, w.trace, t);
        FitsStays(slots[w.trace[t].proc], w.trace, longer.trace, t);
      }
    }
    forall p: nat | p < longer.procs
      ensures HasStarted(longer.trace, p)
    {
      assert HasStarted(w.trace, p);
      StillStarted(w.trace, longer.trace, p);
    }
  }

  lemma StillStarted(trace: seq<Event>, longer: seq<Event>, p: nat)
    requires trace <= longer && HasStarted(trace, p)
    ensures HasStarted(longer, p)
  {
    var t: nat :| t < |trace| && trace[t].Started? && trace[t].proc == p;
    assert longer[t] == trace[t];
  }

  lemma {:induction false} WaitsStartNothing(lo: nat, hi: nat)
    ensures forall e :: e in Waits(lo, hi) + Closes(lo, hi) ==> !e.Started?
  {
    if lo < hi {
      WaitsStartNothing(lo, hi - 1);
    }
  }

  lemma FinishWired(slots: seq<Slot>, w: World, proc: nat, file: nat)
    requires Wired(slots, w)
    ensures Wired(slots, Finish(w, proc, file))
  {
    var done := Finish(w, proc, file);
    WaitsStartNothing(proc, w.procs);
    WaitsStartNothing(file, w.files);
    Regroup(w.trace, Waits(proc, w.procs), Closes(file, w.files));
    forall t | |w.trace| <= t < |done.trace|
      ensures !done.trace[t].Started?
    {
      assert done.trace[t] in Waits(proc, w.procs) + Closes(file, w.files);
    }
    WiredStays(slots, w, done);
  }

  // ---- A command starts ----

  /** The files have been opened one after the other from where w stood. */
  ghost predicate Opening(w: World, files: seq<(string, bool)>, trace: seq<Event>) {
    && w.trace <= trace && |w.trace| + |files| <= |trace|
    && forall t {:trigger trace[t]} :: |w.trace| <= t < |w.trace| + |files| ==>
         var k := t - |w.trace|; trace[t] == Opened(w.files + k, files[k].0, files[k].1)
  }

  lemma {:induction false} OpenAllTrace(w: World, files: seq<(string, bool)>)
    ensures Opening(w, files, OpenAll(w, files).trace) && |OpenAll(w, files).trace| == |w.trace| + |files|
    decreases |files|
  {
    if files != [] {
      OpenAllTrace(Open(w, files[0].0, files[0].1), files[1..]);
    }
  }

  lemma LaunchTrace(cmd: Command, piped: bool, cwd: string, w: World)
    ensures var files, trace := Redirections(cmd, piped), Launch(cmd, piped, cwd, w).trace;
            && Opening(w, files, trace) && |trace| == |w.trace| + |files| + 1
            && trace[|trace| - 1] == Popen(cmd, piped, cwd, w.files, w.procs)
  {
    OpenAllTrace(w, Redirections(cmd, piped));
  }

  /** The k-th of the files opened for a command, seen from the event behind the openings. */
  lemma OpenedFor(w: World, files: seq<(string, bool)>, trace: seq<Event>, k: nat)
    requires k < |files| && Opening(w, files, trace)
    ensures JustOpened(trace, |w.trace| + |files|, w.files + k, files[k].0, files[k].1)
  {
    assert OpenedAt(trace, |w.trace| + |files|, |w.trace| + k, w.files + k, files[k].0, files[k].1);
  }

  /** The command of a slot; its output goes into a pipe unless it is the last of its group. */
  ghost predicate Carries(cmd: Command, slot: Slot) {
    var ins, outs, errs := slot.inputs, slot.outputs, slot.errors;
    && cmd.argv == slot.argv && cmd.env == slot.env
    && cmd.stdin == (if ins == [] then None else Some(ins[0]))
    && cmd.stdout == (if !slot.last then IntoPipe else if outs == [] then Terminal else OutFile(outs[0]))
    && (!slot.last ==> outs == [])
    && |errs| <= 1 && Unset !in errs && cmd.stderr == if errs == [] then Unset else errs[0]
  }

  lemma StdinWired(slot: Slot, cmd: Command, w: World, files: seq<(string, bool)>, trace: seq<Event>)
    requires cmd.stdin == if slot.inputs == [] then None else Some(slot.inputs[0])
    requires files == Redirections(cmd, !slot.first) && Opening(w, files, trace)
    requires !slot.first ==> FeedsPipe(w.trace, |w.trace|, w.procs - 1)
    ensures StdinFits(slot, w.procs, StdinSource(cmd, !slot.first, w.files, w.procs), trace, |w.trace| + |files|)
  {
    if !slot.first {
      StillFeeds(w.trace, trace, |w.trace|, |w.trace| + |files|, w.procs - 1);
    } else if cmd.stdin.Some? {
      assert files[0] == (cmd.stdin.value, false);
      OpenedFor(w, files, trace, 0);
    }
  }

  lemma StillFeeds(trace: seq<Event>, longer: seq<Event>, t: nat, later: nat, q: int)
    requires trace <= longer && t <= later <= |longer| && FeedsPipe(trace, t, q)
    ensures FeedsPipe(longer, later, q)
  {
    var u: nat :| u < t <= |trace| && trace[u].Started? && trace[u].proc == q && trace[u].stdout == NewPipe;
    assert longer[u] == trace[u];
  }

  lemma StdoutWired(slot: Slot, cmd: Command, w: World, files: seq<(string, bool)>, trace: seq<Event>)
    requires !slot.last ==> slot.outputs == []
    requires cmd.stdout ==
      if !slot.last then IntoPipe else if slot.outputs == [] then Terminal else OutFile(slot.outputs[0])
    requires files == Redirections(cmd, !slot.first) && Opening(w, files, trace)
    ensures StdoutFits(slot, StdoutSink(cmd, w.files + |StdinFiles(cmd, !slot.first)|), trace, |w.trace| + |files|)
  {
    var k := |StdinFiles(cmd, !slot.first)|;
    if cmd.stdout.OutFile? && !IsNullDevice(cmd.stdout.name) {
      assert files[k] == (cmd.stdout.name, true);
      OpenedFor(w, files, trace, k);
    }
  }

  lemma StderrWired(slot: Slot, cmd: Command, w: World, files: seq<(string, bool)>, trace: seq<Event>)
    requires |slot.errors| <= 1 && Unset !in slot.errors
    requires cmd.stderr == if slot.errors == [] then Unset else slot.errors[0]
    requires files == Redirections(cmd, !slot.first) && Opening(w, files, trace)
    ensures StderrFits(slot, StderrSink(cmd, w.files + |StdinFiles(cmd, !slot.first)| + |StdoutFiles(cmd)|), trace,
                       |w.trace| + |files|)
  {
    var k := |StdinFiles(cmd, !slot.first)| + |StdoutFiles(cmd)|;
    if cmd.stderr.ErrFile? && !IsNullDevice(cmd.stderr.name) {
      assert files[k] == (cmd.stderr.name, true);
      OpenedFor(w, files, trace, k);
    }
  }

  predicate IsIn(cwd: string, dirs: seq<string>) {
    cwd == ChangeDirs(".", dirs) && (cwd == "." <==> dirs == [])
  }

  predicate RunsIn(cwd: string, slot: Slot) {
    slot.cwd == if cwd == "." then None else Some(cwd)
  }

  /** What is said of the parts is said of the event. */
  lemma PopenFits(slot: Slot, cmd: Command, cwd: string, files: nat, proc: nat, trace: seq<Event>, t: nat)
    requires Carries(cmd, slot) && RunsIn(cwd, slot) && t < |trace|
    requires var piped := !slot.first;
             && trace[t] == Popen(cmd, piped, cwd, files, proc)
             && StdinFits(slot, proc, StdinSource(cmd, piped, files, proc), trace, t)
             && StdoutFits(slot, StdoutSink(cmd, files + |StdinFiles(cmd, piped)|), trace, t)
             && StderrFits(slot, StderrSink(cmd, files + |StdinFiles(cmd, piped)| + |StdoutFiles(cmd)|), trace, t)
    ensures trace[t].proc == proc && Fits(slot, trace, t)
  {
  }

  lemma LaunchFits(slot: Slot, cmd: Command, cwd: string, w: World, files: seq<(string, bool)>, trace: seq<Event>)
    requires Carries(cmd, slot) && RunsIn(cwd, slot)
    requires !slot.first ==> FeedsPipe(w.trace, |w.trace|, w.procs - 1)
    requires files == Redirections(cmd, !slot.first) && Opening(w, files, trace) && |trace| == |w.trace| + |files| + 1
    requires trace[|trace| - 1] == Popen(cmd, !slot.first, cwd, w.files, w.procs)
    ensures trace[|trace| - 1].proc == w.procs && Fits(slot, trace, |trace| - 1)
  {
    StdinWired(slot, cmd, w, files, trace);
    StdoutWired(slot, cmd, w, files, trace);
    StderrWired(slot, cmd, w, files, trace);
    PopenFits(slot, cmd, cwd, w.files, w.procs, trace, |trace| - 1);
  }

  /** One process more. */
  lemma WiredOneMore(slots: seq<Slot>, w: World, after: World)
    requires Wired(slots, w) && w.trace < after.trace && after.procs == w.procs + 1 <= |slots|
    requires forall t :: |w.trace| <= t < |after.trace| - 1 ==> !after.trace[t].Started?
    requires var n := |after.trace| - 1;
             after.trace[n].Started? && after.trace[n].proc == w.procs && Fits(slots[w.procs], after.trace, n)
    ensures Wired(slots, after)
  {
    var n := |after.trace| - 1;
    forall t: nat | t < |after.trace|
      ensures FitsAt(slots, after.procs, after.trace, t)
    {
      if t < |w.trace| && w.trace[t].Started? {
        assert FitsAt(slots, w.procs, w.trace, t);
        FitsStays(slots[w.trace[t].proc], w.trace, after.trace, t);
      }
    }
    forall p: nat | p < after.procs
      ensures HasStarted(after.trace, p)
    {
      if p < w.procs {
        assert HasStarted(w.trace, p);
        StillStarted(w.trace, after.trace, p);
      } else {
        assert after.trace[n].proc == p;
      }
    }
  }

  lemma LaunchWired(slots: seq<Slot>, cmd: Command, cwd: string, w: World)
    requires Wired(slots, w) && w.procs < |slots|
    requires var slot := slots[w.procs];
             && Carries(cmd, slot) && RunsIn(cwd, slot)
             && (!slot.first ==> FeedsPipe(w.trace, |w.trace|, w.procs - 1))
    ensures var slot := slots[w.procs];
            var after := Launch(cmd, !slot.first, cwd, w);
            Wired(slots, after) && (!slot.last ==> FeedsPipe(after.trace, |after.trace|, w.procs))
  {
    var slot := slots[w.procs];
    var after := Launch(cmd, !slot.first, cwd, w);
    LaunchTrace(cmd, !slot.first, cwd, w);
    LaunchFits(slot, cmd, cwd, w, Redirections(cmd, !slot.first), after.trace);
    WiredOneMore(slots, w, after);
    FeedsWhatFits(slot, after.trace);
  }

  lemma FeedsWhatFits(slot: Slot, trace: seq<Event>)
    requires trace != [] && trace[|trace| - 1].Started? && Fits(slot, trace, |trace| - 1)
    ensures !slot.last ==> FeedsPipe(trace, |trace|, trace[|trace| - 1].proc)
  {
    assert !slot.last ==> trace[|trace| - 1].stdout == NewPipe;
  }

  // ---- How far a run goes ----

  /** Whether what stands behind a command is gone on with once the command has returned. */
  predicate GoesOn(behind: Option<Op>, returned: int) {
    match behind
    case None => false
    case Some(PipeOp) => true
    case Some(AndOp) => returned == 0
    case Some(OrOp) => returned != 0
  }

  /** The commands from number lo on are gone through up to the first that is not gone on from, before hi. */
  ghost predicate GoesTo(slots: seq<Slot>, lo: nat, hi: nat, status: Statuses) {
    && lo < hi <= |slots|
    && (forall p :: lo <= p < hi - 1 ==> GoesOn(slots[p].behind, status(p)))
    && !GoesOn(slots[hi - 1].behind, status(hi - 1))
  }

  // ---- A whole run ----

  /** All is wired so far, and the script that comes next has the slots that come next. */
  ghost predicate ReadyFor(slots: seq<Slot>, script: Script, dirs: seq<string>, at: Spot) {
    && Wired(slots, at.w) && slots[at.w.procs..] == SlotsFrom(script, !at.piped, dirs) && IsIn(at.cwd, dirs)
    && (at.piped ==> FeedsPipe(at.w.trace, |at.w.trace|, at.w.procs - 1))
  }

  /** The first command of a script that starts with one. */
  lemma FirstWired(slots: seq<Slot>, script: Script, dirs: seq<string>, at: Spot) returns (running: World)
    requires Valid(script) && script.unit.Simple? && ReadyFor(slots, script, dirs, at)
    ensures var feeds := script.Joined? && script.op == PipeOp;
            && running == Launch(UnitNode(script.unit, feeds).cmd, at.piped, at.cwd, at.w)
            && Wired(slots, running) && running.procs == at.w.procs + 1
            && slots[at.w.procs].behind == (if script.Joined? then Some(script.op) else None)
            && (feeds ==> FeedsPipe(running.trace, |running.trace|, at.w.procs))
    ensures script.Joined? ==> slots[at.w.procs + 1..] == SlotsFrom(script.rest, script.op != PipeOp, dirs)
  {
    assert slots[at.w.procs] == slots[at.w.procs..][0];
    assert slots[at.w.procs + 1..] == slots[at.w.procs..][1..];
    var cmd := UnitNode(script.unit, script.Joined? && script.op == PipeOp).cmd;
    assert Carries(cmd, slots[at.w.procs]);
    LaunchWired(slots, cmd, at.cwd, at.w);
    running := Launch(cmd, at.piped, at.cwd, at.w);
  }

  /** A command runs; then the run has ended or goes on with the rest of the script. */
  lemma CommandWired(slots: seq<Slot>, script: Script, dirs: seq<string>, at: Spot, status: Statuses)
    returns (ended: bool, next: Spot)
    requires Valid(script) && script.unit.Simple? && ReadyFor(slots, script, dirs, at)
    ensures at.w.procs + 1 == next.w.procs <= |slots| && Wired(slots, next.w)
    ensures ended == !GoesOn(slots[at.w.procs].behind, status(at.w.procs))
    ensures ended ==> ExecAt(Nodes(script), at, status) == Exit(status(at.w.procs), next.w)
    ensures !ended ==> script.Joined? && ReadyFor(slots, script.rest, dirs, next)
    ensures !ended ==> ExecAt(Nodes(script), at, status) == ExecAt(Nodes(script.rest), next, status)
  {
    FirstNode(script, at.piped, at.proc, at.file, at.cwd, at.w, status);
    var running := FirstWired(slots, script, dirs, at);
    var done := Finish(running, at.proc, at.file);
    FinishWired(slots, running, at.proc, at.file);
    ended, next := true, Spot(false, done.procs, done.files, at.cwd, done);
    if script.Joined? {
      NextNode(script.op, Nodes(script.rest), at.piped, at.proc, at.file, at.cwd, running, status);
      if script.op == PipeOp {
        ended, next := false, Spot(true, at.proc, at.file, at.cwd, running);
      } else {
        ended := (status(running.procs - 1) == 0) != (script.op == AndOp);
      }
    }
  }

  lemma DirectoryWired(slots: seq<Slot>, script: Script, dirs: seq<string>, at: Spot, status: Statuses)
    returns (next: Spot)
    requires Valid(script) && Runnable(script) && script.unit.Cd? && ReadyFor(slots, script, dirs, at)
    ensures script.Joined? && next.w.procs == at.w.procs
    ensures ReadyFor(slots, script.rest, dirs + script.unit.dirs, next)
    ensures ExecAt(Nodes(script), at, status) == ExecAt(Nodes(script.rest), next, status)
  {
    var dir := script.unit.dirs[0];
    assert script.unit.dirs == [dir];
    ChangeDirsNext(".", dirs, dir);
    DirectoriesLead(dirs + [dir]);
    next := DirectoryPasses(script, at, status);
  }

  /** A command or a `cd`; then the run has ended or goes on with the rest of the script. */
  lemma NextWired(slots: seq<Slot>, script: Script, dirs: seq<string>, at: Spot, status: Statuses)
    returns (ended: bool, next: Spot, nextDirs: seq<string>)
    requires Valid(script) && Runnable(script) && ReadyFor(slots, script, dirs, at)
    ensures at.w.procs <= next.w.procs <= at.w.procs + 1 && next.w.procs <= |slots|
    ensures ended ==> at.w.procs < next.w.procs && Wired(slots, next.w)
    ensures next.w.procs > at.w.procs ==> ended == !GoesOn(slots[at.w.procs].behind, status(at.w.procs))
    ensures ended ==> ExecAt(Nodes(script), at, status) == Exit(status(at.w.procs), next.w)
    ensures !ended ==> script.Joined? && ReadyFor(slots, script.rest, nextDirs, next)
    ensures !ended ==> ExecAt(Nodes(script), at, status) == ExecAt(Nodes(script.rest), next, status)
  {
    if script.unit.Cd? {
      ended, nextDirs := false, dirs + script.unit.dirs;
      next := DirectoryWired(slots, script, dirs, at, status);
    } else {
      nextDirs := dirs;
      ended, next := CommandWired(slots, script, dirs, at, status);
    }
  }

  lemma {:induction false} ExecWired(
    slots: seq<Slot>, script: Script, dirs: seq<string>, at: Spot, status: Statuses) returns (end: World)
    requires Valid(script) && Runnable(script) && ReadyFor(slots, script, dirs, at)
    ensures Wired(slots, end) && GoesTo(slots, at.w.procs, end.procs, status)
    ensures ExecAt(Nodes(script), at, status) == Exit(status(end.procs - 1), end)
    decreases script
  {
    var ended, next, nextDirs := NextWired(slots, script, dirs, at, status);
    if ended {
      end := next.w;
    } else {
      end := ExecWired(slots, script.rest, nextDirs, next, status);
    }
  }

  /**
   * Whatever the statuses, a run starts the commands of the script in order, each connected as its place and its
   * redirections say, up to the first whose status does not let it go on, and returns that status.
   */
  lemma ProcessesAreWired(script: Script, status: Statuses) returns (end: World)
    requires Valid(script) && Runnable(script)
    ensures Value(LineOf(script), status) == (status(end.procs - 1), end)
    ensures Wired(Slots(script), end) && GoesTo(Slots(script), 0, end.procs, status)
  {
    var slots := Slots(script);
    assert slots[0..] == slots;
    end := ExecWired(slots, script, [], Spot(false, 0, 0, ".", UNTOUCHED), status);
    RunMeansLine(script, status);
    ExitIs(Value(LineOf(script), status), status(end.procs - 1), end);
  }

  lemma ExitIs(value: (int, World), returned: int, end: World)
    requires Settled(value) == Exit(returned, end)
    ensures value == (returned, end)
  {
  }

  /** A group ends where the next one begins. */
  lemma {:induction false} GroupsFollow(script: Script, first: bool, dirs: seq<string>)
    requires Runnable(script)
    ensures var slots := SlotsFrom(script, first, dirs);
            && slots != [] && slots[0].first == first && slots[|slots| - 1].behind == None
            && (forall slot :: slot in slots ==> slot.last == (slot.behind != Some(PipeOp)))
            && forall i :: 0 < i < |slots| ==> slots[i].first == slots[i - 1].last
    decreases script
  {
    if script.Joined? {
      if script.unit.Cd? {
        GroupsFollow(script.rest, first, dirs + script.unit.dirs);
      } else {
        GroupsFollow(script.rest, script.op != PipeOp, dirs);
      }
    }
  }

  ghost predicate StartedWith(trace: seq<Event>, p: int, stdin: Source) {
    exists t: nat :: t < |trace| && trace[t].Started? && trace[t].proc == p && trace[t].stdin == stdin
  }

  /** Every pipe joins two processes: one is started with it as its output, and the next one reads it. */
  lemma PipesJoin(script: Script, status: Statuses, q: nat)
    requires Valid(script) && Runnable(script)
    ensures var (_, end) := Value(LineOf(script), status);
            FeedsPipe(end.trace, |end.trace|, q) <==> StartedWith(end.trace, q + 1, FromPipe(q))
  {
    var slots := Slots(script);
    var end := ProcessesAreWired(script, status);
    GroupsFollow(script, true, []);
    if u: nat :| u < |end.trace| && end.trace[u].Started? && end.trace[u].proc == q && end.trace[u].stdout == NewPipe {
      assert FitsAt(slots, end.procs, end.trace, u);
      assert q + 1 < end.procs && HasStarted(end.trace, q + 1);
      var t: nat :| t < |end.trace| && end.trace[t].Started? && end.trace[t].proc == q + 1;
      assert FitsAt(slots, end.procs, end.trace, t);
    }
    if t: nat :| t < |end.trace| && end.trace[t].Started? && end.trace[t].proc == q + 1
                 && end.trace[t].stdin == FromPipe(q) {
      assert FitsAt(slots, end.procs, end.trace, t);
    }
  }
}
