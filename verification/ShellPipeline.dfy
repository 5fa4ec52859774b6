/**
 * The Pipeline class of simulation/waf-tools/shellcmd.py: `Parse` fills the node list, `Run` executes it without
 * its verbose output. Running a parsed script gives the meaning of its line.
 */
module ShellPipeline {
  import opened Lists
  import opened ShellParser
  import opened ShellMeaning
  import opened Wrappers

  // ---- The run as a function of the node list ----

  datatype Outcome =
    | Exit(status: int, world: World)
    | NoValue(world: World)                    // the nodes end behind an operator: Python's None
    | Raised(error: Error, world: World)

  datatype Error = AssertionError | IndexError | NoDirectory

  /** The commands of the current group are the processes from `proc` on; its files are those from `file` on. */
  function Exec(nodes: seq<Node>, piped: bool, proc: nat, file: nat, cwd: string, w: World, status: Statuses): Outcome
    decreases |nodes|
  {
    if nodes == [] then NoValue(w)
    else match nodes[0]
         case Chdir(dir) =>
           if |nodes| == 1 then Raised(IndexError, w)
           else if nodes[1] != And then Raised(AssertionError, w)
           else if dir.None? then Raised(NoDirectory, w)
           else Exec(nodes[2..], piped, proc, file, JoinPath(cwd, dir.value), w, status)
         case Cmd(cmd) => ExecNext(nodes[1..], piped, proc, file, cwd, Launch(cmd, piped, cwd, w), status)
         case _ => Raised(AssertionError, w)
  }

  /** What follows once a command is running. */
  function ExecNext(
    nodes: seq<Node>, piped: bool, proc: nat, file: nat, cwd: string, running: World, status: Statuses): Outcome
    decreases |nodes|
  {
    var done := Finish(running, proc, file);
    var s := status(done.procs - 1);
    if nodes == [] then Exit(s, done)
    else if nodes[0] == Pipe then Exec(nodes[1..], true, proc, file, cwd, running, status)
    else if nodes[0] == Or then
      if s == 0 then Exit(s, done) else Exec(nodes[1..], false, done.procs, done.files, cwd, done, status)
    else if nodes[0] == And then
      if s != 0 then Exit(s, done) else Exec(nodes[1..], false, done.procs, done.files, cwd, done, status)
    else Exec(nodes[1..], piped, proc, file, cwd, running, status)
  }

  function ExecAll(nodes: seq<Node>, status: Statuses): Outcome {
    Exec(nodes, false, 0, 0, ".", UNTOUCHED, status)
  }

  // ---- Running a script is evaluating its line ----

  function Settled(value: (int, World)): Outcome {
    Exit(value.0, value.1)
  }

  lemma {:induction false} ExecMeans(
    script: Script, piped: bool, proc: nat, file: nat, cwd: string, w: World, status: Statuses)
    requires Valid(script) && Runnable(script)
    ensures Exec(Nodes(script), piped, proc, file, cwd, w, status)
         == Settled(ValueFrom(LineOf(script), piped, proc, file, cwd, w, status))
    decreases script
  {
    FirstNode(script, piped, proc, file, cwd, w, status);
    match script
    case Final(unit, _) =>
      LastFirst(unit, piped, proc, file, cwd, w, status);
    case Joined(unit, op, rest) =>
      if unit.Cd? {
        ExecMeans(rest, piped, proc, file, JoinPath(cwd, unit.dirs[0]), w, status);
        DirFirst(LineOf(rest), unit.dirs[0], piped, proc, file, cwd, w, status);
      } else {
        var cmd := UnitNode(unit, op == PipeOp).cmd;
        var running := Launch(cmd, piped, cwd, w);
        NextNode(op, Nodes(rest), piped, proc, file, cwd, running, status);
        if op == PipeOp {
          ExecMeans(rest, true, proc, file, cwd, running, status);
          StageFirst(LineOf(rest), cmd, piped, proc, file, cwd, w, status);
        } else {
          var done := Finish(running, proc, file);
          ExecMeans(rest, false, done.procs, done.files, cwd, done, status);
          MoreFirst(cmd, op == AndOp, LineOf(rest), piped, proc, file, cwd, w, status);
        }
      }
  }

  /** The first node changes the directory or starts a command. */
  function FirstStep(
    script: Script, piped: bool, proc: nat, file: nat, cwd: string, w: World, status: Statuses): Outcome
  {
    match script
    case Final(unit, _) =>
      if unit.Cd? then Raised(IndexError, w)
      else ExecNext([], piped, proc, file, cwd, Launch(UnitNode(unit, false).cmd, piped, cwd, w), status)
    case Joined(unit, op, rest) =>
      if unit.Simple? then
        ExecNext([OpNode(op)] + Nodes(rest), piped, proc, file, cwd,
                 Launch(UnitNode(unit, op == PipeOp).cmd, piped, cwd, w), status)
      else if unit.dirs == [] then Raised(NoDirectory, w)
      else Exec(Nodes(rest), piped, proc, file, JoinPath(cwd, unit.dirs[0]), w, status)
  }

  lemma FirstNode(script: Script, piped: bool, proc: nat, file: nat, cwd: string, w: World, status: Statuses)
    requires Valid(script)
    ensures Exec(Nodes(script), piped, proc, file, cwd, w, status)
         == FirstStep(script, piped, proc, file, cwd, w, status)
  {
    var nodes := Nodes(script);
    match script
    case Final(_, _) =>
      assert nodes[1..] == [];
    case Joined(unit, op, rest) =>
      assert nodes[1..] == [OpNode(op)] + Nodes(rest);
      assert nodes[2..] == Nodes(rest);
  }

  lemma LastFirst(unit: Unit, piped: bool, proc: nat, file: nat, cwd: string, w: World, status: Statuses)
    requires unit.Simple?
    ensures var cmd := UnitNode(unit, false).cmd;
            Settled(ValueFrom(Last([Stage([], cmd)]), piped, proc, file, cwd, w, status))
            == ExecNext([], piped, proc, file, cwd, Launch(cmd, piped, cwd, w), status)
  {
    OneCommand(UnitNode(unit, false).cmd, piped, cwd, w);
  }

  lemma MoreFirst(
    cmd: Command, and: bool, tail: Line, piped: bool, proc: nat, file: nat, cwd: string, w: World, status: Statuses)
    ensures ValueFrom(More([Stage([], cmd)], and, tail), piped, proc, file, cwd, w, status)
         == ValueOf(More([Stage([], cmd)], and, tail), proc, file, cwd, Launch(cmd, piped, cwd, w), status)
  {
    OneCommand(cmd, piped, cwd, w);
  }

  /** A pipe keeps the group going; behind `&&` or `||` evaluation stops or starts afresh. */
  lemma NextNode(
    op: Op, nodes: seq<Node>, piped: bool, proc: nat, file: nat, cwd: string, running: World, status: Statuses)
    ensures var done := Finish(running, proc, file);
            ExecNext([OpNode(op)] + nodes, piped, proc, file, cwd, running, status)
            == if op == PipeOp then Exec(nodes, true, proc, file, cwd, running, status)
               else if (status(running.procs - 1) == 0) == (op == AndOp) then
                 Exec(nodes, false, done.procs, done.files, cwd, done, status)
               else Exit(status(running.procs - 1), done)
  {
    assert ([OpNode(op)] + nodes)[1..] == nodes;
  }

  lemma OneCommand(cmd: Command, piped: bool, cwd: string, w: World)
    ensures StartGroup([Stage([], cmd)], piped, cwd, w) == (cwd, Launch(cmd, piped, cwd, w))
  {
    assert [Stage([], cmd)][1..] == [];
  }

  lemma DirFirst(line: Line, dir: string, piped: bool, proc: nat, file: nat, cwd: string, w: World, status: Statuses)
    requires line.group != []
    ensures ValueFrom(WithDir(line, dir), piped, proc, file, cwd, w, status)
         == ValueFrom(line, piped, proc, file, JoinPath(cwd, dir), w, status)
  {
    var g := line.group;
    var dirs := [dir] + g[0].dirs;
    var h := [Stage(dirs, g[0].cmd)] + g[1..];
    assert dirs[1..] == g[0].dirs;
    assert h[1..] == g[1..];
    var (there, running) := StartGroup(g, piped, JoinPath(cwd, dir), w);
    assert StartGroup(h, piped, cwd, w) == (there, running);
    GroupIsGone(line, h, proc, file, there, running, status);
  }

  lemma StageFirst(line: Line, cmd: Command, piped: bool, proc: nat, file: nat, cwd: string, w: World, status: Statuses)
    requires line.group != []
    ensures ValueFrom(line.(group := [Stage([], cmd)] + line.group), piped, proc, file, cwd, w, status)
         == ValueFrom(line, true, proc, file, cwd, Launch(cmd, piped, cwd, w), status)
  {
    var g := [Stage([], cmd)] + line.group;
    assert g[1..] == line.group;
    var (there, running) := StartGroup(line.group, true, cwd, Launch(cmd, piped, cwd, w));
    assert StartGroup(g, piped, cwd, w) == (there, running);
    GroupIsGone(line, g, proc, file, there, running, status);
  }

  /** Once a group is running, it does not matter any more what it was. */
  lemma GroupIsGone(
    line: Line, group: seq<Stage>, proc: nat, file: nat, cwd: string, running: World, status: Statuses)
    ensures ValueOf(line.(group := group), proc, file, cwd, running, status)
         == ValueOf(line, proc, file, cwd, running, status)
  {
  }

  /** The exit status and everything done on the way are those of the line. */
  lemma RunMeansLine(script: Script, status: Statuses)
    requires Valid(script) && Runnable(script)
    ensures ExecAll(Nodes(script), status) == Settled(Value(LineOf(script), status))
  {
    ExecMeans(script, false, 0, 0, ".", UNTOUCHED, status);
  }

  // ---- Exactly which scripts run without an error ----

  function CommandCount(script: Script): nat {
    match script
    case Final(unit, _) => if unit.Simple? then 1 else 0
    case Joined(unit, _, rest) => (if unit.Simple? then 1 else 0) + CommandCount(rest)
  }

  /** The status of the k-th command that lets evaluation go on to the very end. */
  function Passing(script: Script, k: int): int {
    match script
    case Final(_, _) => 0
    case Joined(unit, op, rest) =>
      if unit.Cd? then Passing(rest, k)
      else if k == 0 then if op == OrOp then 1 else 0
      else Passing(rest, k - 1)
  }

  /** The first `procs` processes aside, every process exits with the status that lets evaluation go on. */
  ghost predicate Passes(script: Script, procs: nat, status: Statuses) {
    forall k: nat {:trigger PassesAt(script, procs, status, k)} :: PassesAt(script, procs, status, k)
  }

  predicate PassesAt(script: Script, procs: nat, status: Statuses, k: nat) {
    status(procs + k) == Passing(script, k)
  }

  /** Where execution is: whether a pipe leads on, and what the current group started with. */
  datatype Spot = Spot(piped: bool, proc: nat, file: nat, cwd: string, w: World)

  function ExecAt(nodes: seq<Node>, at: Spot, status: Statuses): Outcome {
    Exec(nodes, at.piped, at.proc, at.file, at.cwd, at.w, status)
  }

  /** A command that exits with the status that lets evaluation go on. */
  lemma CommandPasses(script: Script, at: Spot, status: Statuses) returns (next: Spot)
    requires Valid(script) && script.Joined? && script.unit.Simple?
    requires status(at.w.procs) == if script.op == OrOp then 1 else 0
    ensures next.w.procs == at.w.procs + 1
    ensures ExecAt(Nodes(script), at, status) == ExecAt(Nodes(script.rest), next, status)
  {
    FirstNode(script, at.piped, at.proc, at.file, at.cwd, at.w, status);
    var running := Launch(UnitNode(script.unit, script.op == PipeOp).cmd, at.piped, at.cwd, at.w);
    next := OperatorPasses(script.op, Nodes(script.rest), at, running, status);
  }

  lemma OperatorPasses(op: Op, nodes: seq<Node>, at: Spot, running: World, status: Statuses) returns (next: Spot)
    requires status(running.procs - 1) == if op == OrOp then 1 else 0
    ensures next.w.procs == running.procs
    ensures ExecNext([OpNode(op)] + nodes, at.piped, at.proc, at.file, at.cwd, running, status)
         == ExecAt(nodes, next, status)
  {
    NextNode(op, nodes, at.piped, at.proc, at.file, at.cwd, running, status);
    var done := Finish(running, at.proc, at.file);
    next := if op == PipeOp then at.(piped := true, w := running)
            else Spot(false, done.procs, done.files, at.cwd, done);
  }

  lemma DirectoryPasses(script: Script, at: Spot, status: Statuses) returns (next: Spot)
    requires Valid(script) && script.Joined? && script.unit.Cd? && script.unit.dirs != []
    ensures next == at.(cwd := JoinPath(at.cwd, script.unit.dirs[0]))
    ensures ExecAt(Nodes(script), at, status) == ExecAt(Nodes(script.rest), next, status)
  {
    FirstNode(script, at.piped, at.proc, at.file, at.cwd, at.w, status);
    next := at.(cwd := JoinPath(at.cwd, script.unit.dirs[0]));
  }

  lemma {:induction false} ReachesTheError(script: Script, at: Spot, status: Statuses)
    requires Valid(script) && !Runnable(script) && Passes(script, at.w.procs, status)
    ensures ExecAt(Nodes(script), at, status).Raised?
    decreases script
  {
    if script.Final? || (script.unit.Cd? && script.unit.dirs == []) {
      FirstNode(script, at.piped, at.proc, at.file, at.cwd, at.w, status);
    } else {
      PassesOn(script, at.w.procs, status);
      var next;
      if script.unit.Cd? {
        next := DirectoryPasses(script, at, status);
      } else {
        next := CommandPasses(script, at, status);
      }
      ReachesTheError(script.rest, next, status);
    }
  }

  lemma PassesOn(script: Script, procs: nat, status: Statuses)
    requires script.Joined? && Passes(script, procs, status)
    ensures script.unit.Cd? ==> Passes(script.rest, procs, status)
    ensures script.unit.Simple? ==>
              Passes(script.rest, procs + 1, status) && status(procs) == if script.op == OrOp then 1 else 0
  {
    assert PassesAt(script, procs, status, 0);
    var next := procs + 1;
    forall k: nat
      ensures script.unit.Cd? ==> PassesAt(script.rest, procs, status, k)
      ensures script.unit.Simple? ==> PassesAt(script.rest, next, status, k)
    {
      assert PassesAt(script, procs, status, k) && PassesAt(script, procs, status, k + 1);
    }
  }

  /** A run can end in an exception exactly when some `cd` names no directory or the line ends in a `cd`. */
  lemma RaisesExactlyWhen(script: Script)
    requires Valid(script)
    ensures Runnable(script) <==> forall status: Statuses :: !ExecAll(Nodes(script), status).Raised?
  {
    if Runnable(script) {
      forall status: Statuses
        ensures !ExecAll(Nodes(script), status).Raised?
      {
        RunMeansLine(script, status);
      }
    } else {
      var status: Statuses := k => Passing(script, k);
      ReachesTheError(script, Spot(false, 0, 0, ".", UNTOUCHED), status);
      assert ExecAll(Nodes(script), status).Raised?;
    }
  }

  // ---- The class ----

  function Range(lo: nat, hi: nat): seq<nat> {
    if hi <= lo then [] else seq(hi - lo, i requires 0 <= i => lo + i)
  }

  /** The handles among what a command writes to or reads from. */
  function Handles(files: seq<Sink>): seq<nat> {
    if files == [] then []
    else Handles(files[..|files| - 1])
         + if files[|files| - 1].ToFile? then [files[|files| - 1].handle] else []
  }

  lemma {:induction false} OpenAllAppend(w: World, files: seq<(string, bool)>, more: seq<(string, bool)>)
    ensures OpenAll(w, files + more) == OpenAll(OpenAll(w, files), more)
    decreases |files|
  {
    if files == [] {
      assert files + more == more;
    } else {
      assert (files + more)[1..] == files[1..] + more;
      OpenAllAppend(Open(w, files[0].0, files[0].1), files[1..], more);
    }
  }

  lemma RangeNext(lo: nat, hi: nat)
    requires lo <= hi
    ensures Range(lo, hi + 1) == Range(lo, hi) + [hi]
  {
  }

  lemma OpenInTurn(cmd: Command, piped: bool, w: World)
    ensures var a := OpenAll(w, StdinFiles(cmd, piped));
            var b := OpenAll(a, StdoutFiles(cmd));
            && a.files == w.files + |StdinFiles(cmd, piped)| && a.procs == w.procs
            && b.files == a.files + |StdoutFiles(cmd)| && b.procs == w.procs
            && OpenAll(b, StderrFiles(cmd)) == OpenAll(w, Redirections(cmd, piped))
            && OpenAll(w, Redirections(cmd, piped)).procs == w.procs
  {
    OpenAllCounts(w, StdinFiles(cmd, piped));
    OpenAllCounts(OpenAll(w, StdinFiles(cmd, piped)), StdoutFiles(cmd));
    OpenAllCounts(w, Redirections(cmd, piped));
    OpenAllAppend(w, StdinFiles(cmd, piped), StdoutFiles(cmd));
    OpenAllAppend(w, StdinFiles(cmd, piped) + StdoutFiles(cmd), StderrFiles(cmd));
  }

  lemma {:induction false} HandlesAppend(a: seq<Sink>, b: seq<Sink>)
    ensures Handles(a + b) == Handles(a) + Handles(b)
  {
    if b == [] {
      assert a + b == a;
    } else {
      assert (a + b)[..|a + b| - 1] == a + b[..|b| - 1];
      HandlesAppend(a, b[..|b| - 1]);
    }
  }

  lemma {:induction false} HandlesPrefix(files: seq<Sink>, i: nat)
    requires i <= |files|
    ensures Handles(files[..i]) <= Handles(files)
  {
    if i < |files| {
      HandlesPrefix(files[..|files| - 1], i);
      assert files[..|files| - 1][..i] == files[..i];
    } else {
      assert files[..i] == files;
    }
  }

  lemma HandlesNext(files: seq<Sink>, i: nat, all: seq<nat>)
    requires i < |files| && Handles(files) == all
    ensures Handles(files[..i + 1]) == Handles(files[..i]) + if files[i].ToFile? then [files[i].handle] else []
    ensures Handles(files[..i]) <= Handles(files[..i + 1]) <= all
  {
    var next := files[..i + 1];
    assert next[..|next| - 1] == files[..i] && next[|next| - 1] == files[i];
    HandlesPrefix(files, i + 1);
  }

  class Pipeline {
    var current: Option<Node>
    var pipeline: seq<Node>

    constructor ()
      ensures current == None && pipeline == []
    {
      current, pipeline := None, [];
    }

    method CommitCommand()
      requires current.Some?
      modifies this
      ensures current == None && pipeline == old(pipeline) + [old(current).value]
    {
      pipeline := pipeline + [current.value];
      current := None;
    }

    ghost function Snapshot(state: State, env: map<string, string>): Parser
      reads this
    {
      Parser(state, env, current, pipeline)
    }

    /** A token in front of a command. False: an assertion of the parser failed. */
    method TokenAtBegin(token: string, env: map<string, string>)
      returns (ok: bool, state: State, newEnv: map<string, string>)
      requires current == None
      modifies this
      ensures (if ok then Some(Snapshot(state, newEnv)) else None) == Step(token, old(Snapshot(AtBegin, env)))
    {
      ok, state, newEnv := true, AtBegin, env;
      var assignment := Assignment(token);
      if assignment.Some? {
        newEnv := env[assignment.value.0 := assignment.value.1];
      } else if token == "cd" {
        current := Some(Chdir(None));
        ok := env == map[];
        state := InChdir;
      } else {
        current := Some(Cmd(Command([token], None, Terminal, Unset, env)));
        newEnv := map[];
        state := InCommand;
      }
    }

    /** A token behind a command name. */
    method TokenInCommand(token: string, env: map<string, string>) returns (ok: bool, state: State)
      requires current.Some? && current.value.Cmd?
      modifies this
      ensures (if ok then Some(Snapshot(state, env)) else None) == Step(token, old(Snapshot(InCommand, env)))
    {
      ok, state := true, InCommand;
      var c := current.value.cmd;
      if token == ">" {
        state := WantStdout;
      } else if token == "2>" {
        state := WantStderr;
      } else if token == "2>&1" {
        ok := c.stderr == Unset;
        current := Some(Cmd(c.(stderr := WithStdout)));
      } else if token == "<" {
        state := WantStdin;
      } else if token == "|" {
        ok := c.stdout == Terminal;
        current := Some(Cmd(c.(stdout := IntoPipe)));
        ghost var fed := current.value;
        CommitCommand();
        pipeline := pipeline + [Pipe];
        assert pipeline == old(pipeline) + [fed, Pipe];
        state := AtBegin;
      } else if token == "&&" || token == "||" {
        CommitCommand();
        pipeline := pipeline + [if token == "&&" then And else Or];
        assert pipeline == old(pipeline) + [Cmd(c), if token == "&&" then And else Or];
        state := AtBegin;
      } else {
        current := Some(Cmd(c.(argv := c.argv + [token])));
      }
    }

    /** A token behind `cd`. */
    method TokenInChdir(token: string, env: map<string, string>) returns (ok: bool, state: State)
      requires current.Some? && current.value.Chdir?
      modifies this
      ensures (if ok then Some(Snapshot(state, env)) else None) == Step(token, old(Snapshot(InChdir, env)))
    {
      ok, state := true, InChdir;
      if token == "&&" {
        ghost var node := current.value;
        CommitCommand();
        pipeline := pipeline + [And];
        assert pipeline == old(pipeline) + [node, And];
        state := AtBegin;
      } else {
        ok := current.value.dir.None?;
        current := Some(Chdir(Some(token)));
      }
    }

    /** The file name behind a redirection sign. */
    method TokenIsFile(token: string, env: map<string, string>, state: State) returns (ok: bool)
      requires current.Some? && current.value.Cmd?
      requires state in {WantStderr, WantStdout, WantStdin}
      modifies this
      ensures (if ok then Some(Snapshot(InCommand, env)) else None) == Step(token, old(Snapshot(state, env)))
    {
      var c := current.value.cmd;
      if state == WantStdout {
        ok := c.stdout == Terminal;
        current := Some(Cmd(c.(stdout := OutFile(token))));
      } else if state == WantStderr {
        ok := c.stderr == Unset;
        current := Some(Cmd(c.(stderr := ErrFile(token))));
      } else {
        ok := c.stdin == None;
        current := Some(Cmd(c.(stdin := Some(token))));
      }
    }

    /** Accepts exactly the sentences of the grammar and builds the nodes of the script they write down. */
    method Parse(tokens: seq<string>) returns (ok: bool)
      modifies this
      ensures ok <==> InGrammar(tokens)
      ensures ok ==> current == None
      ensures forall script {:trigger Tokens(script)} :: Valid(script) && Tokens(script) == tokens ==>
                pipeline == Nodes(script)
    {
      ok := ReadTokens(tokens);
      ParserIsGrammar(tokens);
    }

    /** The loop over the tokens. */
    method ReadTokens(tokens: seq<string>) returns (ok: bool)
      modifies this
      ensures (if ok then Some(pipeline) else None) == ParseFrom(tokens, Begin(map[], []))
      ensures ok ==> current == None
    {
      current, pipeline := None, [];
      var state, env := AtBegin, map[];
      var rest := tokens;
      while rest != []
        invariant state == AtBegin ==> current == None
        invariant state == InChdir ==> current.Some? && current.value.Chdir?
        invariant state !in {AtBegin, InChdir} ==> current.Some? && current.value.Cmd?
        invariant ParseFrom(tokens, Begin(map[], [])) == ParseFrom(rest, Snapshot(state, env))
        decreases |rest|
      {
        FirstToken(rest, Snapshot(state, env));
        var token := rest[0];
        rest := rest[1..];
        match state {
          case AtBegin => ok, state, env := TokenAtBegin(token, env);
          case InCommand => ok, state := TokenInCommand(token, env);
          case InChdir => ok, state := TokenInChdir(token, env);
          case _ =>
            ok := TokenIsFile(token, env, state);
            state := InCommand;
        }
        if !ok {
          return;
        }
      }
      ok := current.Some?;
      if ok {
        CommitCommand();
      }
    }

    /** Waits for all processes; a failure anywhere makes the last status the result. */
    method ExecPipedCommands(commands: seq<nat>, w: World, ghost proc: nat, status: Statuses)
      returns (retval: int, after: World)
      requires proc < w.procs && commands == Range(proc, w.procs)
      ensures retval == status(w.procs - 1)
      ensures after == w.(trace := w.trace + Waits(proc, w.procs))
    {
      var retvals := [];
      after := w;
      for i := 0 to |commands|
        invariant |retvals| == i
        invariant forall k :: 0 <= k < i ==> retvals[k] == status(commands[k])
        invariant after == w.(trace := w.trace + Waits(proc, proc + i))
      {
        after := after.(trace := after.trace + [Waited(commands[i])]);
        Regroup(w.trace, Waits(proc, proc + i), [Waited(commands[i])]);
        retvals := retvals + [status(commands[i])];
      }
      retval := 0;
      for i := 0 to |retvals|
        invariant retval == 0
        invariant forall k :: 0 <= k < i ==> retvals[k] == 0
      {
        if retvals[i] != 0 {
          retval := retvals[|retvals| - 1];
          break;
        }
      }
    }

    /** Closes the files of a group; the null device stays open. */
    method CloseFiles(files: seq<Sink>, w: World, ghost file: nat) returns (after: World)
      requires file <= w.files && Handles(files) == Range(file, w.files)
      ensures after == w.(trace := w.trace + Closes(file, w.files))
    {
      after := w;
      assert files[..0] == [];
      ghost var n := 0;
      for i := 0 to |files|
        invariant n == |Handles(files[..i])| <= w.files - file
        invariant after == w.(trace := w.trace + Closes(file, file + n))
      {
        HandlesNext(files, i, Range(file, w.files));
        if files[i].ToFile? {
          assert files[i].handle == Handles(files[..i + 1])[n] == Range(file, w.files)[n];
          var closed := Closed(files[i].handle);
          after := after.(trace := after.trace + [closed]);
          Regroup(w.trace, Closes(file, file + n), [closed]);
          n := n + 1;
        }
      }
      assert files[..|files|] == files;
    }

    /** Opens a file for writing unless it is the null device; either goes on the list of files to close. */
    method OpenOutFile(name: string, files: seq<Sink>, w: World, ghost lo: nat)
      returns (sink: Sink, moreFiles: seq<Sink>, after: World)
      requires lo <= w.files && Handles(files) == Range(lo, w.files)
      ensures sink == if IsNullDevice(name) then ToNull else ToFile(w.files)
      ensures after == if IsNullDevice(name) then w else Open(w, name, true)
      ensures Handles(moreFiles) == Range(lo, after.files)
    {
      if name == "NUL:" || name == "/dev/null" {
        sink, after := ToNull, w;
      } else {
        sink, after := ToFile(w.files), Open(w, name, true);
      }
      moreFiles := files + [sink];
      assert moreFiles[..|files|] == files;
    }

    /** Opens the standard input of a command unless it reads a pipe. */
    method OpenStdin(cmd: Command, piped: bool, commands: seq<nat>, w: World)
      returns (stdin: Source, files: seq<Sink>, after: World)
      requires piped ==> commands != [] && commands[|commands| - 1] == w.procs - 1
      ensures after == OpenAll(w, StdinFiles(cmd, piped)) && Handles(files) == Range(w.files, after.files)
      ensures stdin == StdinSource(cmd, piped, w.files, w.procs)
    {
      stdin, files, after := NoStdin, [], w;
      if piped {
        stdin := FromPipe(commands[|commands| - 1]);
      } else if cmd.stdin.Some? {
        stdin := FromFile(w.files);
        files := [ToFile(w.files)];
        after := Open(w, cmd.stdin.value, false);
        assert files[..0] == [];
      }
    }

    method OpenStdout(cmd: Command, before: seq<Sink>, w: World, ghost lo: nat)
      returns (stdout: Sink, files: seq<Sink>, after: World)
      requires lo <= w.files && Handles(before) == Range(lo, w.files)
      ensures after == OpenAll(w, StdoutFiles(cmd)) && stdout == StdoutSink(cmd, w.files)
      ensures Handles(files) == Range(lo, after.files)
    {
      stdout, files, after := NoSink, before, w;
      if cmd.stdout.IntoPipe? {
        stdout := NewPipe;
      } else if cmd.stdout.OutFile? {
        stdout, files, after := OpenOutFile(cmd.stdout.name, before, w, lo);
      }
    }

    method OpenStderr(cmd: Command, before: seq<Sink>, w: World, ghost lo: nat)
      returns (stderr: Sink, files: seq<Sink>, after: World)
      requires lo <= w.files && Handles(before) == Range(lo, w.files)
      ensures after == OpenAll(w, StderrFiles(cmd)) && stderr == StderrSink(cmd, w.files)
      ensures Handles(files) == Range(lo, after.files)
    {
      stderr, files, after := NoSink, before, w;
      if cmd.stderr.WithStdout? {
        stderr := SameAsStdout;
      } else if cmd.stderr.ErrFile? {
        stderr, files, after := OpenOutFile(cmd.stderr.name, before, w, lo);
      }
    }

    /** Opens what the command redirects; `files` are the handles to close later. */
    method OpenRedirections(cmd: Command, piped: bool, commands: seq<nat>, before: seq<Sink>, w: World, ghost lo: nat)
      returns (stdin: Source, stdout: Sink, stderr: Sink, files: seq<Sink>, after: World)
      requires piped ==> commands != [] && commands[|commands| - 1] == w.procs - 1
      requires lo <= w.files && Handles(before) == Range(lo, w.files)
      ensures after == OpenAll(w, Redirections(cmd, piped)) && after.procs == w.procs
      ensures stdin == StdinSource(cmd, piped, w.files, w.procs)
      ensures stdout == StdoutSink(cmd, w.files + |StdinFiles(cmd, piped)|)
      ensures stderr == StderrSink(cmd, w.files + |StdinFiles(cmd, piped)| + |StdoutFiles(cmd)|)
      ensures Handles(files) == Range(lo, after.files)
    {
      OpenInTurn(cmd, piped, w);
      stdin, files, after := OpenStdin(cmd, piped, commands, w);
      HandlesAppend(before, files);
      stdout, files, after := OpenStdout(cmd, before + files, after, lo);
      stderr, files, after := OpenStderr(cmd, files, after, lo);
    }

    method StartCommand(cmd: Command, piped: bool, commands: seq<nat>, before: seq<Sink>, cwd: string, w: World,
                        ghost lo: nat)
      returns (files: seq<Sink>, after: World)
      requires piped ==> commands != [] && commands[|commands| - 1] == w.procs - 1
      requires lo <= w.files && Handles(before) == Range(lo, w.files)
      ensures after == Launch(cmd, piped, cwd, w)
      ensures Handles(files) == Range(lo, after.files)
    {
      var stdin, stdout, stderr;
      stdin, stdout, stderr, files, after := OpenRedirections(cmd, piped, commands, before, w, lo);
      var procCwd := if cwd == "." then None else Some(cwd);
      var started := Started(after.procs, cmd.argv, stdin, stdout, stderr, cmd.env, procCwd);
      assert started == Popen(cmd, piped, cwd, w.files, w.procs);
      after := Launched(after, started);
    }

    /** The end of a group: the commands are waited for and its files are closed. */
    method EndGroup(commands: seq<nat>, files: seq<Sink>, w: World, ghost proc: nat, ghost file: nat, status: Statuses)
      returns (retval: int, after: World)
      requires proc < w.procs && commands == Range(proc, w.procs)
      requires file <= w.files && Handles(files) == Range(file, w.files)
      ensures retval == status(w.procs - 1) && after == Finish(w, proc, file)
    {
      retval, after := ExecPipedCommands(commands, w, proc, status);
      after := CloseFiles(files, after, file);
    }

    /** Runs the pipeline when the k-th process started exits with status(k). */
    method Run(status: Statuses) returns (outcome: Outcome)
      ensures outcome == ExecAll(pipeline, status)
      ensures forall script {:trigger Nodes(script)} ::
                Valid(script) && Runnable(script) && pipeline == Nodes(script) ==>
                outcome == Settled(Value(LineOf(script), status))
    {
      outcome := RunNodes(pipeline, status);
      forall script {:trigger Nodes(script)} | Valid(script) && Runnable(script) && pipeline == Nodes(script)
        ensures outcome == Settled(Value(LineOf(script), status))
      {
        RunMeansLine(script, status);
      }
    }

    /**
     * The operator behind a running command: the run ends with `retval`, the group goes on behind a pipe, or a new
     * group starts.
     */
    method NextOperator(nodes: seq<Node>, piped: bool, commands: seq<nat>, files: seq<Sink>, ghost cwd: string,
                        w: World, ghost proc: nat, ghost file: nat, status: Statuses)
      returns (ended: bool, retval: int, nowPiped: bool, nowCommands: seq<nat>, nowFiles: seq<Sink>, after: World,
               ghost nowProc: nat, ghost nowFile: nat)
      requires proc < w.procs && commands == Range(proc, w.procs)
      requires file <= w.files && Handles(files) == Range(file, w.files)
      ensures ended ==> ExecNext(nodes, piped, proc, file, cwd, w, status) == Exit(retval, after)
      ensures !ended ==> nodes != []
      ensures !ended ==> ExecNext(nodes, piped, proc, file, cwd, w, status)
                         == Exec(nodes[1..], nowPiped, nowProc, nowFile, cwd, after, status)
      ensures !ended ==> nowProc <= after.procs && nowCommands == Range(nowProc, after.procs)
      ensures !ended ==> nowFile <= after.files && Handles(nowFiles) == Range(nowFile, after.files)
      ensures !ended ==> (nowPiped ==> nowCommands != [])
    {
      ended, retval, nowPiped, nowCommands, nowFiles, after := false, 0, piped, commands, files, w;
      nowProc, nowFile := proc, file;
      if nodes == [] || nodes[0].Or? || nodes[0].And? {
        retval, after := EndGroup(commands, files, w, proc, file, status);
        ended := nodes == [] || (retval == 0) == nodes[0].Or?;
        nowPiped, nowCommands, nowFiles := false, [], [];
        nowProc, nowFile := after.procs, after.files;
      } else if nodes[0].Pipe? {
        nowPiped := true;
      }
    }

    method RunNodes(pipeline: seq<Node>, status: Statuses) returns (outcome: Outcome)
      ensures outcome == ExecAll(pipeline, status)
    {
      var nodes := pipeline;
      var files: seq<Sink>, commands: seq<nat> := [], [];
      var piped, cwd, w := false, ".", UNTOUCHED;
      ghost var proc: nat, file: nat := 0, 0;
      while nodes != []
        invariant ExecAll(pipeline, status) == Exec(nodes, piped, proc, file, cwd, w, status)
        invariant proc <= w.procs && commands == Range(proc, w.procs) && (piped ==> commands != [])
        invariant file <= w.files && Handles(files) == Range(file, w.files)
        decreases |nodes|
      {
        var node := nodes[0];
        if node.Chdir? {
          if |nodes| == 1 {
            return Raised(IndexError, w);
          }
          if nodes[1] != And {
            return Raised(AssertionError, w);
          }
          if node.dir.None? {
            return Raised(NoDirectory, w);
          }
          cwd := JoinPath(cwd, node.dir.value);
          nodes := nodes[2..];
        } else if node.Cmd? {
          RangeNext(proc, w.procs);
          var next: nat := w.procs;
          files, w := StartCommand(node.cmd, piped, commands, files, cwd, w, file);
          var ended, retval;
          ended, retval, piped, commands, files, w, proc, file :=
            NextOperator(nodes[1..], piped, commands + [next], files, cwd, w, proc, file, status);
          if ended {
            return Exit(retval, w);
          }
          nodes := nodes[1..][1..];
        } else {
          return Raised(AssertionError, w);
        }
      }
      return NoValue(w);
    }
  }
}
