/** The test runner's worker pool as a protocol: a main thread, any number of
    workers, two first-in first-out queues, stop jobs, and an interrupt that may
    arrive between any two steps. */
module WorkerPool {
  /** Real jobs are numbered from 0; the stop jobs sent to the workers are -1. */
  datatype Job = Job(id: int, isBreak: bool, isSkip: bool, returncode: int)

  const BREAK: Job := Job(-1, true, false, 0)

  /** Where a worker is in its loop. */
  datatype Worker =
    | Idle
    | Holding(job: Job)
    | Running(job: Job)
    | Reporting(job: Job)
    | Exited

  /** Where the main thread is; k counts what the present loop has done. */
  datatype Main =
    | Spawning(k: nat)
    | Dispatching(k: nat)
    | Stopping(k: nat)
    | Collecting(k: nat)
    | Joining(k: nat)
    | Done(code: int)

  /** The summary counters; `interrupted` counts the results that are ignored. */
  datatype Tally = Tally(passed: nat, failed: nat, valgrind: nat, crashed: nat, skipped: nat, interrupted: nat)

  /** The jobs to dispatch, by whether they are to be skipped, and the thread count. */
  datatype Config = Config(skips: seq<bool>, processors: nat)

  /** A job was run and returned this status. */
  datatype Run = Run(id: int, status: int)

  /** The last four fields are history: every job ever put on the output queue, how many
      real jobs and stop jobs have been taken off the input queue, and every run of a job. */
  datatype Pool = Pool(
    main: Main,
    workers: seq<Worker>,
    input: seq<Job>,
    output: seq<Job>,
    threadExit: bool,
    tally: Tally,
    reported: seq<Job>,
    taken: nat,
    stopped: nat,
    runs: seq<Run>)

  function JobOf(c: Config, id: nat): Job
    requires id < |c.skips|
  {
    Job(id, false, c.skips[id], 0)
  }

  predicate IsStart(s: Pool) {
    && s.main == Spawning(0)
    && s.workers == [] && s.input == [] && s.output == [] && s.reported == []
    && !s.threadExit
    && s.tally == Tally(0, 0, 0, 0, 0, 0)
    && s.taken == 0 && s.stopped == 0 && s.runs == []
  }

  /** What the collecting loop does with one result. */
  function Count(t: Tally, job: Job): Tally {
    if job.isBreak then t.(interrupted := t.interrupted + 1)
    else if job.isSkip then t.(skipped := t.skipped + 1)
    else if job.returncode == 0 then t.(passed := t.passed + 1)
    else if job.returncode == 1 then t.(failed := t.failed + 1)
    else if job.returncode == 2 then t.(valgrind := t.valgrind + 1)
    else t.(crashed := t.crashed + 1)
  }

  function TallyOf(jobs: seq<Job>): Tally {
    if jobs == [] then Tally(0, 0, 0, 0, 0, 0)
    else Count(TallyOf(jobs[..|jobs| - 1]), jobs[|jobs| - 1])
  }

  // ---------- the steps ----------

  ghost predicate MainStep(c: Config, s: Pool, s': Pool) {
    match s.main
    case Spawning(k) =>
      if k < c.processors then s' == s.(main := Spawning(k + 1), workers := s.workers + [Idle])
      else s' == s.(main := Dispatching(0))
    case Dispatching(k) =>
      if k < |c.skips| then s' == s.(main := Dispatching(k + 1), input := s.input + [JobOf(c, k)])
      else s' == s.(main := Stopping(0))
    case Stopping(k) =>
      if k < c.processors then s' == s.(main := Stopping(k + 1), input := s.input + [BREAK])
      else s' == s.(main := Collecting(0))
    case Collecting(k) =>
      if k < |c.skips| then
        && s.output != []
        && s' == s.(main := Collecting(k + 1), output := s.output[1..], tally := Count(s.tally, s.output[0]))
      else s' == s.(main := Joining(0))
    case Joining(k) =>
      if k < |s.workers| then s.workers[k].Exited? && s' == s.(main := Joining(k + 1))
      else s' == s.(main := Done(if s.tally.passed + s.tally.skipped == |c.skips| then 0 else 1))
    case Done(_) => false
  }

  /** One step of worker w; running a job may return any status. */
  ghost predicate WorkerStep(s: Pool, s': Pool, w: nat)
    requires w < |s.workers|
  {
    match s.workers[w]
    case Idle =>
      && s.input != []
      && var job := s.input[0];
         s' == s.(input := s.input[1..], workers := s.workers[w := Holding(job)],
                  taken := if job.isBreak then s.taken else s.taken + 1,
                  stopped := if job.isBreak then s.stopped + 1 else s.stopped)
    case Holding(job) =>
      if job.isBreak then s' == s.(workers := s.workers[w := Exited])
      else if s.threadExit then s' == s.(workers := s.workers[w := Reporting(job.(isBreak := true))])
      else if job.isSkip then s' == s.(workers := s.workers[w := Reporting(job)])
      else s' == s.(workers := s.workers[w := Running(job)])
    case Running(job) =>
      exists status: int :: s' == s.(workers := s.workers[w := Reporting(job.(returncode := status))],
                                     runs := s.runs + [Run(job.id, status)])
    case Reporting(job) =>
      s' == s.(workers := s.workers[w := Idle], output := s.output + [job], reported := s.reported + [job])
    case Exited => false
  }

  /** The signal handler; a second signal changes nothing. */
  ghost predicate Interrupt(s: Pool, s': Pool) {
    !s.threadExit && s' == s.(threadExit := true)
  }

  ghost predicate Step(c: Config, s: Pool, s': Pool) {
    || MainStep(c, s, s')
    || (exists w: nat :: w < |s.workers| && WorkerStep(s, s', w))
    || Interrupt(s, s')
  }

  // ---------- who has which job ----------

  /** The real job a worker is responsible for, or -1. */
  function InHand(w: Worker): int {
    match w
    case Holding(job) => job.id
    case Running(job) => job.id
    case Reporting(job) => job.id
    case _ => -1
  }

  function Has(w: Worker, id: int): nat {
    if InHand(w) == id then 1 else 0
  }

  function Hands(workers: seq<Worker>, id: int): nat {
    if workers == [] then 0
    else Hands(workers[..|workers| - 1], id) + Has(workers[|workers| - 1], id)
  }

  function Occurs(jobs: seq<Job>, id: int): nat {
    if jobs == [] then 0
    else Occurs(jobs[..|jobs| - 1], id) + if jobs[|jobs| - 1].id == id then 1 else 0
  }

  predicate IsGone(w: Worker) {
    w.Exited? || (w.Holding? && w.job.isBreak)
  }

  /** How many workers have received their stop job. */
  function Gone(workers: seq<Worker>): nat {
    if workers == [] then 0
    else Gone(workers[..|workers| - 1]) + if IsGone(workers[|workers| - 1]) then 1 else 0
  }

  lemma {:induction false} UpdateWorker(workers: seq<Worker>, w: nat, x: Worker)
    requires w < |workers|
    ensures forall id :: Hands(workers[w := x], id) + Has(workers[w], id) == Hands(workers, id) + Has(x, id)
    ensures Gone(workers[w := x]) ==
      Gone(workers) - (if IsGone(workers[w]) then 1 else 0) + if IsGone(x) then 1 else 0
  {
    var n := |workers| - 1;
    if w < n {
      UpdateWorker(workers[..n], w, x);
      assert workers[w := x][..n] == workers[..n][w := x];
    } else {
      assert workers[w := x][..n] == workers[..n];
    }
  }

  // ---------- the invariant ----------

  function Dispatched(c: Config, m: Main): nat {
    match m
    case Spawning(_) => 0
    case Dispatching(k) => k
    case _ => |c.skips|
  }

  function StopsSent(c: Config, m: Main): nat {
    match m
    case Spawning(_) => 0
    case Dispatching(_) => 0
    case Stopping(k) => k
    case _ => c.processors
  }

  function Collected(c: Config, m: Main): nat {
    match m
    case Spawning(_) => 0
    case Dispatching(_) => 0
    case Stopping(_) => 0
    case Collecting(k) => k
    case _ => |c.skips|
  }

  predicate MainInRange(c: Config, m: Main) {
    match m
    case Spawning(k) => k <= c.processors
    case Dispatching(k) => k <= |c.skips|
    case Stopping(k) => k <= c.processors
    case Collecting(k) => k <= |c.skips|
    case Joining(k) => k <= c.processors
    case Done(_) => true
  }

  /** The input queue: the jobs not yet taken, in order, then the stop jobs. */
  ghost predicate InputRight(c: Config, s: Pool) {
    var d, b := Dispatched(c, s.main), StopsSent(c, s.main);
    && s.taken <= d <= |c.skips| && s.stopped <= b
    && (s.stopped > 0 ==> s.taken == |c.skips|)
    && |s.input| == d - s.taken + b - s.stopped
    && forall i {:trigger s.input[i]} :: 0 <= i < |s.input| ==> s.input[i] == Entry(c, s.taken + i, d)
  }

  /** The number-th job in dispatch order; beyond the last real one, a stop job. */
  function Entry(c: Config, number: nat, dispatched: nat): Job
    requires dispatched <= |c.skips|
  {
    if number < dispatched then JobOf(c, number) else BREAK
  }

  /** A job in a worker's hands is one of those configured; only a stop job is a
      break while it is held, and only an interrupted one when it is reported. */
  predicate WorkerRight(c: Config, w: Worker) {
    match w
    case Holding(job) => job == BREAK || (0 <= job.id < |c.skips| && job == JobOf(c, job.id))
    case Running(job) => 0 <= job.id < |c.skips| && job == JobOf(c, job.id) && !job.isSkip
    case Reporting(job) => 0 <= job.id < |c.skips| && job.isSkip == c.skips[job.id]
    case _ => true
  }

  /** Every taken job is in exactly one place: one worker's hands or the report. */
  ghost predicate OnePlaceEach(s: Pool) {
    forall id: nat {:trigger OnePlace(s, id)} :: OnePlace(s, id)
  }

  ghost predicate OnePlace(s: Pool, id: nat) {
    Places(s, id) == if id < s.taken then 1 else 0
  }

  function Places(s: Pool, id: nat): nat {
    Hands(s.workers, id) + Occurs(s.reported, id)
  }

  ghost predicate OutputRight(c: Config, s: Pool) {
    var k := Collected(c, s.main);
    && k <= |s.reported|
    && s.output == s.reported[k..]
    && s.tally == TallyOf(s.reported[..k])
    && forall i :: 0 <= i < |s.reported| ==>
      0 <= s.reported[i].id < |c.skips| && s.reported[i].isSkip == c.skips[s.reported[i].id]
  }

  ghost predicate WorkersRight(c: Config, s: Pool) {
    && |s.workers| == (if s.main.Spawning? then s.main.k else c.processors)
    && (forall w :: 0 <= w < |s.workers| ==> WorkerRight(c, s.workers[w]))
    && Gone(s.workers) == s.stopped
    && (s.taken > 0 ==> |s.workers| > 0)
    && (s.main.Joining? ==> s.main.k <= |s.workers| && forall w :: 0 <= w < s.main.k ==> s.workers[w].Exited?)
    && (s.main.Done? ==> forall w :: 0 <= w < |s.workers| ==> s.workers[w].Exited?)
    && (s.main.Done? ==> s.main.code == if s.tally.passed + s.tally.skipped == |c.skips| then 0 else 1)
  }

  /** The statuses that runs of job number id have returned. */
  function Statuses(runs: seq<Run>, id: int): seq<int> {
    if runs == [] then []
    else
      var n := |runs| - 1;
      Statuses(runs[..n], id) + if runs[n].id == id then [runs[n].status] else []
  }

  /** A job that carries a result was run once and carries what that run returned; one that
      was interrupted or is to be skipped was not run. */
  predicate Explained(runs: seq<Run>, job: Job) {
    Statuses(runs, job.id) == if job.isBreak || job.isSkip then [] else [job.returncode]
  }

  predicate WorkerExplained(runs: seq<Run>, w: Worker) {
    match w
    case Holding(job) => Statuses(runs, job.id) == []
    case Running(job) => Statuses(runs, job.id) == []
    case Reporting(job) => Explained(runs, job)
    case _ => true
  }

  ghost predicate ReportsExplained(runs: seq<Run>, reported: seq<Job>) {
    forall i :: 0 <= i < |reported| ==> Explained(runs, reported[i])
  }

  ghost predicate WorkersExplained(runs: seq<Run>, workers: seq<Worker>) {
    forall w :: 0 <= w < |workers| ==> WorkerExplained(runs, workers[w])
  }

  /** No job outside the first `taken` has been run. */
  ghost predicate NoneAhead(runs: seq<Run>, taken: nat) {
    forall id: int {:trigger Statuses(runs, id)} :: !(0 <= id < taken) ==> Statuses(runs, id) == []
  }

  ghost predicate RunsRight(s: Pool) {
    && ReportsExplained(s.runs, s.reported)
    && WorkersExplained(s.runs, s.workers)
    && NoneAhead(s.runs, s.taken)
  }

  ghost predicate Inv(c: Config, s: Pool) {
    && MainInRange(c, s.main)
    && InputRight(c, s)
    && OnePlaceEach(s)
    && OutputRight(c, s)
    && WorkersRight(c, s)
    && RunsRight(s)
  }

  lemma StartQueues(c: Config, s: Pool)
    requires IsStart(s)
    ensures MainInRange(c, s.main) && InputRight(c, s) && OnePlaceEach(s)
  {
  }

  lemma StartOutput(c: Config, s: Pool)
    requires IsStart(s)
    ensures OutputRight(c, s)
  {
    assert Collected(c, s.main) == 0;
    assert s.reported == [] && s.reported[..0] == [] && s.reported[0..] == [];
    assert TallyOf([]) == s.tally;
  }

  lemma StartInv(c: Config, s: Pool)
    requires IsStart(s)
    ensures Inv(c, s)
  {
    StartQueues(c, s);
    StartOutput(c, s);
    assert RunsRight(s);
  }

  lemma DispatchKeepsInput(c: Config, s: Pool, s': Pool)
    requires s.main.Dispatching? && s.main.k <= |c.skips| && InputRight(c, s) && MainStep(c, s, s')
    ensures InputRight(c, s')
  {
  }

  lemma StopKeepsInput(c: Config, s: Pool, s': Pool)
    requires s.main.Stopping? && s.main.k <= c.processors && InputRight(c, s) && MainStep(c, s, s')
    ensures InputRight(c, s')
  {
  }

  lemma CollectKeepsInput(c: Config, s: Pool, s': Pool)
    requires !s.main.Dispatching? && !s.main.Stopping? && InputRight(c, s) && MainStep(c, s, s')
    ensures InputRight(c, s')
  {
  }

  lemma MainKeepsPlaces(c: Config, s: Pool, s': Pool)
    requires OnePlaceEach(s) && MainStep(c, s, s')
    ensures OnePlaceEach(s')
  {
    if s.main.Spawning? && s.main.k < c.processors {
      assert s'.workers[..|s.workers|] == s.workers;
    }
    forall id: nat
      ensures OnePlace(s', id)
    {
      assert OnePlace(s, id);
    }
  }

  lemma CollectKeepsOutput(c: Config, s: Pool, s': Pool)
    requires OutputRight(c, s) && s.main.Collecting? && s.main.k < |c.skips| && MainStep(c, s, s')
    ensures OutputRight(c, s')
  {
    var k := s.main.k;
    assert s.reported[..k + 1][..k] == s.reported[..k];
    assert s.output[0] == s.reported[k];
  }

  lemma MainKeepsOutput(c: Config, s: Pool, s': Pool)
    requires OutputRight(c, s) && MainInRange(c, s.main) && MainStep(c, s, s')
    ensures OutputRight(c, s')
  {
    if s.main.Collecting? && s.main.k < |c.skips| {
      CollectKeepsOutput(c, s, s');
    } else {
      assert s'.output == s.output && s'.reported == s.reported && s'.tally == s.tally;
      assert Collected(c, s'.main) == Collected(c, s.main);
    }
  }

  lemma SpawnKeepsWorkers(c: Config, s: Pool, s': Pool)
    requires s.main.Spawning? && s.main.k < c.processors && WorkersRight(c, s) && MainStep(c, s, s')
    ensures WorkersRight(c, s') && MainInRange(c, s'.main)
  {
    assert s'.workers[..|s.workers|] == s.workers;
  }

  lemma JoinKeepsWorkers(c: Config, s: Pool, s': Pool)
    requires s.main.Joining? && WorkersRight(c, s) && MainStep(c, s, s')
    ensures WorkersRight(c, s') && MainInRange(c, s'.main)
  {
  }

  lemma MainKeepsWorkers(c: Config, s: Pool, s': Pool)
    requires WorkersRight(c, s) && MainInRange(c, s.main) && MainStep(c, s, s')
    ensures WorkersRight(c, s') && MainInRange(c, s'.main)
  {
    if s.main.Spawning? && s.main.k < c.processors {
      SpawnKeepsWorkers(c, s, s');
    } else if s.main.Joining? {
      JoinKeepsWorkers(c, s, s');
    } else {
      assert s'.workers == s.workers && s'.taken == s.taken && s'.stopped == s.stopped && !s'.main.Done?;
    }
  }

  lemma TakingKeepsInput(c: Config, s: Pool, s': Pool)
    requires InputRight(c, s) && s.input != [] && s'.main == s.main && s'.input == s.input[1..]
    requires s'.taken == s.taken + (if s.input[0].isBreak then 0 else 1)
    requires s'.stopped == s.stopped + if s.input[0].isBreak then 1 else 0
    ensures InputRight(c, s')
  {
    assert s.input[0] == Entry(c, s.taken, Dispatched(c, s.main));
    forall i | 0 <= i < |s'.input|
      ensures s'.input[i] == Entry(c, s'.taken + i, Dispatched(c, s.main))
    {
      assert s'.input[i] == s.input[i + 1];
    }
  }

  lemma WorkerKeepsInput(c: Config, s: Pool, s': Pool, w: nat)
    requires InputRight(c, s) && w < |s.workers| && WorkerStep(s, s', w)
    ensures InputRight(c, s')
  {
    if s.workers[w].Idle? {
      TakingKeepsInput(c, s, s');
    }
  }

  lemma WorkerKeepsPlaces(c: Config, s: Pool, s': Pool, w: nat)
    requires InputRight(c, s) && OnePlaceEach(s)
    requires w < |s.workers| && WorkerRight(c, s.workers[w]) && WorkerStep(s, s', w)
    ensures OnePlaceEach(s')
  {
    if s.workers[w].Idle? {
      TakingKeepsPlaces(c, s, s', w);
    } else if s.workers[w].Reporting? {
      ReportingKeepsPlaces(s, s', w);
    } else {
      UpdateWorker(s.workers, w, s'.workers[w]);
      assert s'.workers == s.workers[w := s'.workers[w]] && s'.reported == s.reported && s'.taken == s.taken;
      assert forall id: nat :: Has(s'.workers[w], id) == Has(s.workers[w], id);
      PlacesMoved(s, s');
    }
  }

  /** Each number has as many places as before, one more if it has just been taken. */
  lemma PlacesMoved(s: Pool, s': Pool)
    requires OnePlaceEach(s)
    requires forall id: nat ::
      Places(s', id) == Places(s, id) + if s.taken <= id < s'.taken then 1 else 0
    requires s.taken <= s'.taken
    ensures OnePlaceEach(s')
  {
    forall id: nat
      ensures OnePlace(s', id)
    {
      assert OnePlace(s, id);
    }
  }

  lemma TakingKeepsPlaces(c: Config, s: Pool, s': Pool, w: nat)
    requires InputRight(c, s) && OnePlaceEach(s)
    requires w < |s.workers| && s.workers[w].Idle? && WorkerStep(s, s', w)
    ensures OnePlaceEach(s')
  {
    assert s.input[0] == Entry(c, s.taken, Dispatched(c, s.main));
    UpdateWorker(s.workers, w, s'.workers[w]);
    assert s'.workers == s.workers[w := s'.workers[w]] && s'.reported == s.reported;
    PlacesMoved(s, s');
  }

  lemma ReportingKeepsPlaces(s: Pool, s': Pool, w: nat)
    requires OnePlaceEach(s) && w < |s.workers| && s.workers[w].Reporting? && WorkerStep(s, s', w)
    ensures OnePlaceEach(s')
  {
    UpdateWorker(s.workers, w, Idle);
    assert s'.workers == s.workers[w := Idle];
    assert s'.reported[..|s.reported|] == s.reported;
    PlacesMoved(s, s');
  }

  lemma WorkerKeepsOutput(c: Config, s: Pool, s': Pool, w: nat)
    requires OutputRight(c, s)
    requires w < |s.workers| && WorkerRight(c, s.workers[w]) && WorkerStep(s, s', w)
    ensures OutputRight(c, s')
  {
    if s.workers[w].Reporting? {
      var k := Collected(c, s.main);
      assert s'.reported[..k] == s.reported[..k];
      assert s'.reported[k..] == s.output + [s.workers[w].job];
    }
  }

  lemma WorkerKeepsWorkers(c: Config, s: Pool, s': Pool, w: nat)
    requires InputRight(c, s) && WorkersRight(c, s)
    requires w < |s.workers| && WorkerStep(s, s', w)
    ensures WorkersRight(c, s')
  {
    UpdateWorker(s.workers, w, s'.workers[w]);
    assert s'.workers == s.workers[w := s'.workers[w]];
    assert WorkerRight(c, s.workers[w]);
    if s.workers[w].Idle? {
      assert s.input[0] == Entry(c, s.taken, Dispatched(c, s.main));
    }
  }

  // ---------- each result is that of its one run ----------

  lemma RunAdded(runs: seq<Run>, run: Run, id: int)
    ensures Statuses(runs + [run], id) == Statuses(runs, id) + if run.id == id then [run.status] else []
  {
    assert (runs + [run])[..|runs|] == runs;
  }

  lemma {:induction false} HandsCountAll(workers: seq<Worker>, w: nat, id: int)
    requires w < |workers| && InHand(workers[w]) == id
    ensures Hands(workers, id) > 0
  {
    if w < |workers| - 1 {
      HandsCountAll(workers[..|workers| - 1], w, id);
    }
  }

  /** A job in one worker's hands is in no other's, and has not been reported. */
  lemma InHandOnly(s: Pool, w: nat, id: nat)
    requires OnePlaceEach(s) && w < |s.workers| && InHand(s.workers[w]) == id
    ensures forall v :: 0 <= v < |s.workers| && v != w ==> InHand(s.workers[v]) != id
    ensures forall i :: 0 <= i < |s.reported| ==> s.reported[i].id != id
    ensures id < s.taken
  {
    assert OnePlace(s, id);
    HandsCountAll(s.workers, w, id);
    var others := s.workers[w := Idle];
    UpdateWorker(s.workers, w, Idle);
    forall v | 0 <= v < |s.workers| && v != w
      ensures InHand(s.workers[v]) != id
    {
      if InHand(s.workers[v]) == id {
        HandsCountAll(others, v, id);
      }
    }
    forall i | 0 <= i < |s.reported|
      ensures s.reported[i].id != id
    {
      SomeoneOccurs(s.reported, i);
    }
  }

  /** Running a job once more concerns the worker that runs it and nobody else. */
  lemma RunKeepsOthers(s: Pool, w: nat, run: Run)
    requires OnePlaceEach(s) && RunsRight(s) && w < |s.workers| && InHand(s.workers[w]) == run.id >= 0
    ensures ReportsExplained(s.runs + [run], s.reported)
    ensures forall v :: 0 <= v < |s.workers| && v != w ==> WorkerExplained(s.runs + [run], s.workers[v])
    ensures NoneAhead(s.runs + [run], s.taken)
  {
    InHandOnly(s, w, run.id);
    forall i | 0 <= i < |s.reported|
      ensures Explained(s.runs + [run], s.reported[i])
    {
      RunAdded(s.runs, run, s.reported[i].id);
    }
    forall v | 0 <= v < |s.workers| && v != w
      ensures WorkerExplained(s.runs + [run], s.workers[v])
    {
      RunAdded(s.runs, run, InHand(s.workers[v]));
    }
    forall id: int | !(0 <= id < s.taken)
      ensures Statuses(s.runs + [run], id) == []
    {
      RunAdded(s.runs, run, id);
    }
  }

  lemma WorkerKeepsRuns(c: Config, s: Pool, s': Pool, w: nat)
    requires Inv(c, s) && w < |s.workers| && WorkerStep(s, s', w)
    ensures RunsRight(s')
  {
    assert WorkerRight(c, s.workers[w]) && WorkerExplained(s.runs, s.workers[w]);
    if s.workers[w].Running? {
      var job := s.workers[w].job;
      var status :| s' == s.(workers := s.workers[w := Reporting(job.(returncode := status))],
                             runs := s.runs + [Run(job.id, status)]);
      RunKeepsOthers(s, w, Run(job.id, status));
      RunAdded(s.runs, Run(job.id, status), job.id);
    } else if s.workers[w].Idle? {
      assert s.input[0] == Entry(c, s.taken, Dispatched(c, s.main));
    }
  }

  lemma InterruptKeepsInv(c: Config, s: Pool, s': Pool)
    requires Inv(c, s) && Interrupt(s, s')
    ensures Inv(c, s')
  {
    forall id: nat
      ensures OnePlace(s', id)
    {
      assert OnePlace(s, id);
    }
  }

  lemma MainKeepsInv(c: Config, s: Pool, s': Pool)
    requires Inv(c, s) && MainStep(c, s, s')
    ensures Inv(c, s')
  {
    if s.main.Dispatching? {
      DispatchKeepsInput(c, s, s');
    } else if s.main.Stopping? {
      StopKeepsInput(c, s, s');
    } else {
      CollectKeepsInput(c, s, s');
    }
    MainKeepsPlaces(c, s, s');
    MainKeepsOutput(c, s, s');
    MainKeepsWorkers(c, s, s');
    assert s'.runs == s.runs && s'.reported == s.reported && s'.taken == s.taken;
  }

  lemma WorkerKeepsInv(c: Config, s: Pool, s': Pool, w: nat)
    requires Inv(c, s) && w < |s.workers| && WorkerStep(s, s', w)
    ensures Inv(c, s')
  {
    WorkerKeepsInput(c, s, s', w);
    WorkerKeepsPlaces(c, s, s', w);
    WorkerKeepsOutput(c, s, s', w);
    WorkerKeepsWorkers(c, s, s', w);
    WorkerKeepsRuns(c, s, s', w);
  }

  lemma StepKeepsInv(c: Config, s: Pool, s': Pool)
    requires Inv(c, s) && Step(c, s, s')
    ensures Inv(c, s')
  {
    if MainStep(c, s, s') {
      MainKeepsInv(c, s, s');
    } else if w: nat :| w < |s.workers| && WorkerStep(s, s', w) {
      WorkerKeepsInv(c, s, s', w);
    } else {
      InterruptKeepsInv(c, s, s');
    }
  }

  // ---------- every run is finite ----------

  function Weight(w: Worker): nat {
    match w
    case Holding(_) => 4
    case Running(_) => 3
    case Reporting(_) => 2
    case _ => 0
  }

  function Weights(workers: seq<Worker>): nat {
    if workers == [] then 0 else Weights(workers[..|workers| - 1]) + Weight(workers[|workers| - 1])
  }

  lemma {:induction false} UpdateWeight(workers: seq<Worker>, w: nat, x: Worker)
    requires w < |workers|
    ensures Weights(workers[w := x]) + Weight(workers[w]) == Weights(workers) + Weight(x)
  {
    var n := |workers| - 1;
    if w < n {
      UpdateWeight(workers[..n], w, x);
      assert workers[w := x][..n] == workers[..n][w := x];
    } else {
      assert workers[w := x][..n] == workers[..n];
    }
  }

  function MainWork(c: Config, m: Main): int {
    6 * (|c.skips| - Dispatched(c, m)) + 6 * (c.processors - StopsSent(c, m)) +
    match m
    case Spawning(k) => 2 * c.processors - k + 5
    case Dispatching(_) => c.processors + 4
    case Stopping(_) => c.processors + 3
    case Collecting(_) => c.processors + 2
    case Joining(k) => c.processors - k + 1
    case Done(_) => 0
  }

  /** How much is left to do: every step takes some of it away. */
  function Rank(c: Config, s: Pool): int {
    MainWork(c, s.main) + 5 * |s.input| + Weights(s.workers) + |s.output| + if s.threadExit then 0 else 1
  }

  lemma MainLowersRank(c: Config, s: Pool, s': Pool)
    requires MainInRange(c, s.main) && MainStep(c, s, s')
    requires s.main.Joining? ==> |s.workers| == c.processors
    ensures Rank(c, s') < Rank(c, s)
  {
    if s.main.Spawning? && s.main.k < c.processors {
      assert s'.workers[..|s.workers|] == s.workers;
    }
  }

  lemma WorkerLowersRank(c: Config, s: Pool, s': Pool, w: nat)
    requires w < |s.workers| && WorkerStep(s, s', w)
    ensures Rank(c, s') < Rank(c, s)
  {
    UpdateWeight(s.workers, w, s'.workers[w]);
    assert s'.workers == s.workers[w := s'.workers[w]];
  }

  lemma StepLowersRank(c: Config, s: Pool, s': Pool)
    requires Inv(c, s) && Step(c, s, s')
    ensures Rank(c, s') < Rank(c, s)
  {
    if MainStep(c, s, s') {
      MainLowersRank(c, s, s');
    } else if w: nat :| w < |s.workers| && WorkerStep(s, s', w) {
      WorkerLowersRank(c, s, s', w);
    }
  }

  ghost predicate StepAt(c: Config, run: seq<Pool>, i: nat)
    requires i + 1 < |run|
  {
    Step(c, run[i], run[i + 1])
  }

  /** Any interleaving of main, workers and an interrupt, from the start. */
  ghost predicate IsRun(c: Config, run: seq<Pool>) {
    && |run| > 0 && IsStart(run[0])
    && forall i {:trigger StepAt(c, run, i)} :: 0 <= i < |run| - 1 ==> StepAt(c, run, i)
  }

  lemma {:induction false} RunKeepsInv(c: Config, run: seq<Pool>, i: nat)
    requires IsRun(c, run) && i < |run|
    ensures Inv(c, run[i])
    ensures i + Rank(c, run[i]) <= Rank(c, run[0])
  {
    if i == 0 {
      StartInv(c, run[0]);
    } else {
      RunKeepsInv(c, run, i - 1);
      assert StepAt(c, run, i - 1);
      StepKeepsInv(c, run[i - 1], run[i]);
      StepLowersRank(c, run[i - 1], run[i]);
    }
  }

  /** No run is longer than a bound fixed by the jobs and the workers. */
  lemma RunsAreFinite(c: Config, run: seq<Pool>)
    requires IsRun(c, run)
    ensures |run| <= 6 * |c.skips| + 8 * c.processors + 7
  {
    var n := |run| - 1;
    RunKeepsInv(c, run, n);
    assert Rank(c, run[0]) == 6 * |c.skips| + 8 * c.processors + 6;
    assert Rank(c, run[n]) >= 0;
  }

  // ---------- no run gets stuck ----------

  /** Some thread can take a step, without waiting for an interrupt. */
  ghost predicate CanMove(c: Config, s: Pool) {
    || (exists s' :: MainStep(c, s, s'))
    || (exists w: nat, s' :: w < |s.workers| && WorkerStep(s, s', w))
  }

  lemma WorkerCanMove(c: Config, s: Pool, w: nat)
    requires w < |s.workers|
    requires !s.workers[w].Exited? && (s.workers[w].Idle? ==> s.input != [])
    ensures CanMove(c, s)
  {
    var s' :=
      match s.workers[w]
      case Idle =>
        s.(input := s.input[1..], workers := s.workers[w := Holding(s.input[0])],
           taken := if s.input[0].isBreak then s.taken else s.taken + 1,
           stopped := if s.input[0].isBreak then s.stopped + 1 else s.stopped)
      case Holding(job) =>
        s.(workers := s.workers[w :=
          if job.isBreak then Exited
          else if s.threadExit then Reporting(job.(isBreak := true))
          else if job.isSkip then Reporting(job) else Running(job)])
      case Running(job) =>
        s.(workers := s.workers[w := Reporting(job.(returncode := 0))], runs := s.runs + [Run(job.id, 0)])
      case Reporting(job) =>
        s.(workers := s.workers[w := Idle], output := s.output + [job], reported := s.reported + [job])
      case Exited => s;
    assert WorkerStep(s, s', w);
  }

  lemma MainCanMove(c: Config, s: Pool)
    requires MainInRange(c, s.main) && !s.main.Done?
    requires s.main.Collecting? && s.main.k < |c.skips| ==> s.output != []
    requires s.main.Joining? && s.main.k < |s.workers| ==> s.workers[s.main.k].Exited?
    ensures CanMove(c, s)
  {
    var s' :=
      match s.main
      case Spawning(k) =>
        if k < c.processors then s.(main := Spawning(k + 1), workers := s.workers + [Idle])
        else s.(main := Dispatching(0))
      case Dispatching(k) =>
        if k < |c.skips| then s.(main := Dispatching(k + 1), input := s.input + [JobOf(c, k)])
        else s.(main := Stopping(0))
      case Stopping(k) =>
        if k < c.processors then s.(main := Stopping(k + 1), input := s.input + [BREAK])
        else s.(main := Collecting(0))
      case Collecting(k) =>
        if k < |c.skips| then
          s.(main := Collecting(k + 1), output := s.output[1..], tally := Count(s.tally, s.output[0]))
        else s.(main := Joining(0))
      case Joining(k) =>
        if k < |s.workers| then s.(main := Joining(k + 1))
        else s.(main := Done(if s.tally.passed + s.tally.skipped == |c.skips| then 0 else 1))
      case Done(_) => s;
    assert MainStep(c, s, s');
  }

  ghost predicate Resting(workers: seq<Worker>) {
    forall w :: 0 <= w < |workers| ==> workers[w].Idle? || workers[w].Exited?
  }

  lemma {:induction false} RestingHands(workers: seq<Worker>, id: nat)
    requires Resting(workers)
    ensures Hands(workers, id) == 0
  {
    if workers != [] {
      RestingHands(workers[..|workers| - 1], id);
    }
  }

  lemma {:induction false} GoneBound(workers: seq<Worker>)
    ensures Gone(workers) <= |workers|
    ensures Gone(workers) == |workers| <==> forall w :: 0 <= w < |workers| ==> IsGone(workers[w])
  {
    if workers != [] {
      var n := |workers| - 1;
      GoneBound(workers[..n]);
      assert forall w :: 0 <= w < |workers| ==> workers[w] == if w < n then workers[..n][w] else workers[n];
    }
  }

  /** The jobs of a list other than those numbered id. */
  function Others(jobs: seq<Job>, id: int): seq<Job> {
    if jobs == [] then []
    else
      var n := |jobs| - 1;
      if jobs[n].id == id then Others(jobs[..n], id) else Others(jobs[..n], id) + [jobs[n]]
  }

  lemma {:induction false} OthersCount(jobs: seq<Job>, id: int, x: int)
    ensures |Others(jobs, id)| + Occurs(jobs, id) == |jobs|
    ensures Occurs(Others(jobs, id), x) == if x == id then 0 else Occurs(jobs, x)
  {
    if jobs != [] {
      var n := |jobs| - 1;
      OthersCount(jobs[..n], id, x);
      var front := Others(jobs[..n], id);
      assert (front + [jobs[n]])[..|front|] == front;
    }
  }

  /** Number id occurs once if it is below n and not at all otherwise. */
  predicate OccursOnce(jobs: seq<Job>, n: nat, id: nat) {
    Occurs(jobs, id) == if id < n then 1 else 0
  }

  ghost predicate NumberedOnce(jobs: seq<Job>, n: nat) {
    && (forall id: nat {:trigger OccursOnce(jobs, n, id)} :: OccursOnce(jobs, n, id))
    && forall i :: 0 <= i < |jobs| ==> jobs[i].id >= 0
  }

  lemma OneFewer(jobs: seq<Job>, n: nat)
    requires n > 0 && NumberedOnce(jobs, n)
    ensures NumberedOnce(Others(jobs, n - 1), n - 1)
    ensures |Others(jobs, n - 1)| == |jobs| - 1
  {
    var m := n - 1;
    var rest := Others(jobs, m);
    forall id: nat
      ensures OccursOnce(rest, m, id)
    {
      assert OccursOnce(jobs, n, id);
      OthersCount(jobs, m, id);
    }
    assert OccursOnce(jobs, n, m);
    OthersCount(jobs, m, 0);
    OthersFrom(jobs, m);
  }

  /** Each number below n once, and no other: the list has length n. */
  lemma {:induction false} OnceEach(jobs: seq<Job>, n: nat)
    requires NumberedOnce(jobs, n)
    ensures |jobs| == n
    decreases n
  {
    if n > 0 {
      OneFewer(jobs, n);
      OnceEach(Others(jobs, n - 1), n - 1);
    } else {
      assert jobs != [] ==> !OccursOnce(jobs, 0, jobs[|jobs| - 1].id);
    }
  }

  lemma {:induction false} OthersFrom(jobs: seq<Job>, id: int)
    ensures forall i :: 0 <= i < |Others(jobs, id)| ==> Others(jobs, id)[i] in jobs
  {
    if jobs != [] {
      OthersFrom(jobs[..|jobs| - 1], id);
    }
  }

  /** With no worker busy and every job taken, every job has been reported. */
  lemma AllReported(c: Config, s: Pool)
    requires Inv(c, s) && Resting(s.workers) && s.taken == |c.skips|
    ensures |s.reported| == |c.skips|
    ensures NumberedOnce(s.reported, |c.skips|)
  {
    forall id: nat
      ensures OccursOnce(s.reported, |c.skips|, id)
    {
      assert OnePlace(s, id);
      RestingHands(s.workers, id);
    }
    OnceEach(s.reported, |c.skips|);
  }

  /** Unless there are jobs and nobody to run them, some thread can always move
      until the main thread has returned. */
  lemma NeverStuck(c: Config, s: Pool)
    requires Inv(c, s) && !s.main.Done?
    requires c.processors > 0 || c.skips == []
    ensures CanMove(c, s)
  {
    if w: nat :| w < |s.workers| && !s.workers[w].Exited? && (s.workers[w].Idle? ==> s.input != []) {
      WorkerCanMove(c, s, w);
    } else {
      GoneBound(s.workers);
      if s.main.Collecting? && s.main.k < |c.skips| {
        if s.workers[0].Idle? {
          assert s.taken == |c.skips|;
        } else {
          assert s.workers[0].Exited? && IsGone(s.workers[0]);
          SomeoneGone(s.workers, 0);
        }
        AllReported(c, s);
      }
      MainCanMove(c, s);
    }
  }

  lemma {:induction false} SomeoneGone(workers: seq<Worker>, w: nat)
    requires w < |workers| && IsGone(workers[w])
    ensures Gone(workers) > 0
  {
    if w < |workers| - 1 {
      SomeoneGone(workers[..|workers| - 1], w);
    }
  }

  // ---------- what the end of a run means ----------

  predicate Good(job: Job) {
    !job.isBreak && (job.isSkip || job.returncode == 0)
  }

  ghost predicate AllGood(jobs: seq<Job>) {
    forall job :: job in jobs ==> Good(job)
  }

  lemma {:induction false} TallyMeaning(jobs: seq<Job>)
    ensures var t := TallyOf(jobs);
      && t.passed + t.failed + t.valgrind + t.crashed + t.skipped + t.interrupted == |jobs|
      && (t.passed + t.skipped == |jobs| <==> AllGood(jobs))
  {
    if jobs != [] {
      var n := |jobs| - 1;
      TallyMeaning(jobs[..n]);
      AllGoodNext(jobs);
    }
  }

  lemma AllGoodNext(jobs: seq<Job>)
    requires jobs != []
    ensures AllGood(jobs) <==> AllGood(jobs[..|jobs| - 1]) && Good(jobs[|jobs| - 1])
  {
    var n := |jobs| - 1;
    assert forall job :: job in jobs <==> job in jobs[..n] || job == jobs[n];
  }

  function HowMany(jobs: seq<Job>, which: Job -> bool): nat {
    if jobs == [] then 0
    else HowMany(jobs[..|jobs| - 1], which) + if which(jobs[|jobs| - 1]) then 1 else 0
  }

  predicate Ignored(job: Job) { job.isBreak }

  predicate Skipped(job: Job) { job.isSkip && !job.isBreak }

  predicate WasRun(job: Job) { !job.isBreak && !job.isSkip }

  predicate Passed(job: Job) { WasRun(job) && job.returncode == 0 }

  predicate Failed(job: Job) { WasRun(job) && job.returncode == 1 }

  predicate ValgrindError(job: Job) { WasRun(job) && job.returncode == 2 }

  predicate Crashed(job: Job) { WasRun(job) && (job.returncode < 0 || job.returncode > 2) }

  /** Each counter is the number of results of its kind, in whatever order they came. */
  lemma {:induction false} TallyCounts(jobs: seq<Job>)
    ensures TallyOf(jobs) == Tally(HowMany(jobs, Passed), HowMany(jobs, Failed), HowMany(jobs, ValgrindError),
                                   HowMany(jobs, Crashed), HowMany(jobs, Skipped), HowMany(jobs, Ignored))
  {
    if jobs != [] {
      TallyCounts(jobs[..|jobs| - 1]);
    }
  }

  lemma DoneMeansAllTaken(c: Config, s: Pool)
    requires Inv(c, s) && s.main.Done?
    ensures s.taken == |c.skips| && Resting(s.workers)
  {
    GoneBound(s.workers);
    if c.processors == 0 && c.skips != [] {
      var job := s.reported[0];
      assert OnePlace(s, job.id);
      SomeoneOccurs(s.reported, 0);
    }
  }

  lemma {:induction false} SomeoneOccurs(jobs: seq<Job>, i: nat)
    requires i < |jobs|
    ensures Occurs(jobs, jobs[i].id) > 0
  {
    if i < |jobs| - 1 {
      SomeoneOccurs(jobs[..|jobs| - 1], i);
    }
  }

  ghost predicate Interrupted(reported: seq<Job>, id: int) {
    exists job :: job in reported && job.id == id && job.isBreak
  }

  /** The job was to be skipped and was not interrupted, or its one run returned 0. */
  ghost predicate EndedWell(c: Config, s: Pool, id: nat)
    requires id < |c.skips|
  {
    if c.skips[id] then !Interrupted(s.reported, id) else Statuses(s.runs, id) == [0]
  }

  /** Only jobs that are not to be skipped are run, and every report of one of them carries
      the status of its one run or says that it was interrupted before. */
  ghost predicate ReportsAreRuns(c: Config, s: Pool) {
    && (forall id: int {:trigger Statuses(s.runs, id)} ::
          Statuses(s.runs, id) != [] ==> 0 <= id < |c.skips| && !c.skips[id])
    && forall job :: job in s.reported ==>
         && 0 <= job.id < |c.skips| && job.isSkip == c.skips[job.id]
         && Statuses(s.runs, job.id) == if job.isBreak || job.isSkip then [] else [job.returncode]
  }

  /** When the main thread has returned: each job was reported exactly once, with the
      status of its one run if it had one, each worker has taken one stop job and exited,
      the queues are empty, the counters add up, and the exit code is 0 exactly if every
      job was skipped or returned 0. */
  ghost predicate Finished(c: Config, s: Pool) {
    && s.main.Done?
    && |s.reported| == |c.skips|
    && NumberedOnce(s.reported, |c.skips|)
    && s.input == [] && s.output == []
    && |s.workers| == c.processors == s.stopped
    && (forall w :: 0 <= w < |s.workers| ==> s.workers[w].Exited?)
    && s.tally.passed + s.tally.failed + s.tally.valgrind + s.tally.crashed + s.tally.skipped
       + s.tally.interrupted == |c.skips|
    && ReportsAreRuns(c, s)
    && s.main.code in {0, 1}
    && (s.main.code == 0 <==> forall id: nat :: id < |c.skips| ==> EndedWell(c, s, id))
  }

  lemma {:induction false} OccursSomewhere(jobs: seq<Job>, id: int) returns (i: nat)
    requires Occurs(jobs, id) > 0
    ensures i < |jobs| && jobs[i].id == id
  {
    var n := |jobs| - 1;
    if jobs[n].id == id {
      i := n;
    } else {
      i := OccursSomewhere(jobs[..n], id);
    }
  }

  lemma EndIsRuns(c: Config, s: Pool)
    requires Inv(c, s) && NumberedOnce(s.reported, |c.skips|) && s.taken == |c.skips|
    ensures ReportsAreRuns(c, s)
  {
    forall id: int | Statuses(s.runs, id) != []
      ensures 0 <= id < |c.skips| && !c.skips[id]
    {
      assert OccursOnce(s.reported, |c.skips|, id);
      var i := OccursSomewhere(s.reported, id);
      assert Explained(s.runs, s.reported[i]);
    }
  }

  lemma GoodIsEndedWell(c: Config, s: Pool)
    requires NumberedOnce(s.reported, |c.skips|) && ReportsAreRuns(c, s)
    ensures AllGood(s.reported) <==> forall id: nat :: id < |c.skips| ==> EndedWell(c, s, id)
  {
    forall id: nat | id < |c.skips| && AllGood(s.reported)
      ensures EndedWell(c, s, id)
    {
      assert OccursOnce(s.reported, |c.skips|, id);
      var i := OccursSomewhere(s.reported, id);
      assert s.reported[i] in s.reported;
    }
    if forall id: nat :: id < |c.skips| ==> EndedWell(c, s, id) {
      forall job | job in s.reported
        ensures Good(job)
      {
        assert EndedWell(c, s, job.id);
      }
    }
  }

  lemma Outcome(c: Config, s: Pool)
    requires Inv(c, s) && s.main.Done?
    ensures Finished(c, s)
  {
    DoneMeansAllTaken(c, s);
    AllReported(c, s);
    assert s.reported[..|c.skips|] == s.reported;
    TallyMeaning(s.reported);
    GoneBound(s.workers);
    EndIsRuns(c, s);
    GoodIsEndedWell(c, s);
  }

  /** A run that no thread can continue has returned, with the outcome above. */
  lemma RunsFinish(c: Config, run: seq<Pool>)
    requires IsRun(c, run) && !CanMove(c, run[|run| - 1])
    requires c.processors > 0 || c.skips == []
    ensures Finished(c, run[|run| - 1])
  {
    var s := run[|run| - 1];
    RunKeepsInv(c, run, |run| - 1);
    if !s.main.Done? {
      NeverStuck(c, s);
    }
    Outcome(c, s);
  }

  /** With jobs but no worker thread, the main thread never returns. */
  lemma NobodyToRunThem(c: Config, run: seq<Pool>)
    requires IsRun(c, run) && c.processors == 0 && c.skips != []
    ensures !run[|run| - 1].main.Done?
  {
    var n := |run| - 1;
    RunKeepsInv(c, run, n);
    if run[n].main.Done? {
      DoneMeansAllTaken(c, run[n]);
    }
  }

  // ---------- interrupts ----------

  /** Until the signal arrives no result has been marked as interrupted. */
  ghost predicate Quiet(s: Pool) {
    s.threadExit || (
      && (forall i :: 0 <= i < |s.reported| ==> !s.reported[i].isBreak)
      && forall w :: 0 <= w < |s.workers| && s.workers[w].Reporting? ==> !s.workers[w].job.isBreak)
  }

  lemma {:induction false} QuietRun(c: Config, run: seq<Pool>, i: nat)
    requires IsRun(c, run) && i < |run|
    ensures Quiet(run[i])
  {
    if i > 0 {
      QuietRun(c, run, i - 1);
      RunKeepsInv(c, run, i - 1);
      assert StepAt(c, run, i - 1);
      StepKeepsQuiet(c, run[i - 1], run[i]);
    }
  }

  lemma StepKeepsQuiet(c: Config, s: Pool, s': Pool)
    requires forall w :: 0 <= w < |s.workers| ==> WorkerRight(c, s.workers[w])
    requires Step(c, s, s') && Quiet(s)
    ensures Quiet(s')
  {
    if w: nat :| w < |s.workers| && WorkerStep(s, s', w) {
      assert WorkerRight(c, s.workers[w]);
    }
  }

  /** Each job that is not to be skipped has been run exactly once, and the exit code is 0 exactly
      if all these runs returned 0. */
  ghost predicate AllRun(c: Config, s: Pool)
    requires s.main.Done?
  {
    && (forall id: nat :: id < |c.skips| ==> |Statuses(s.runs, id)| == if c.skips[id] then 0 else 1)
    && (s.main.code == 0 <==> forall id: nat :: id < |c.skips| && !c.skips[id] ==> Statuses(s.runs, id) == [0])
  }

  /** Without an interrupt all jobs that are not to be skipped are run, and they alone decide the
      exit code. */
  lemma UndisturbedOutcome(c: Config, run: seq<Pool>, s: Pool)
    requires IsRun(c, run) && s == run[|run| - 1] && s.main.Done? && !s.threadExit
    ensures AllRun(c, s)
  {
    QuietAt(c, run, |run| - 1, s);
    Outcome(c, s);
    QuietEnd(c, s);
  }

  lemma QuietAt(c: Config, run: seq<Pool>, i: nat, s: Pool)
    requires IsRun(c, run) && i < |run| && s == run[i]
    ensures Inv(c, s) && Quiet(s)
  {
    RunKeepsInv(c, run, i);
    QuietRun(c, run, i);
  }

  lemma QuietEnd(c: Config, s: Pool)
    requires Finished(c, s) && Quiet(s) && !s.threadExit
    ensures AllRun(c, s)
  {
    forall id: nat | id < |c.skips|
      ensures |Statuses(s.runs, id)| == if c.skips[id] then 0 else 1
      ensures EndedWell(c, s, id) <==> c.skips[id] || Statuses(s.runs, id) == [0]
    {
      assert OccursOnce(s.reported, |c.skips|, id);
      QuietReport(c, s, id);
    }
  }

  lemma QuietReport(c: Config, s: Pool, id: nat)
    requires ReportsAreRuns(c, s) && Quiet(s) && !s.threadExit && id < |c.skips|
    requires OccursOnce(s.reported, |c.skips|, id)
    ensures |Statuses(s.runs, id)| == if c.skips[id] then 0 else 1
    ensures EndedWell(c, s, id) <==> c.skips[id] || Statuses(s.runs, id) == [0]
  {
    var i := OccursSomewhere(s.reported, id);
    assert s.reported[i] in s.reported;
  }

  // ---------- after an interrupt ----------

  /** Nobody has begun to run or to report this job. */
  ghost predicate NotBegun(s: Pool, id: int) {
    && (forall i :: 0 <= i < |s.reported| ==> s.reported[i].id != id)
    && forall w :: 0 <= w < |s.workers| ==> !Begun(s.workers[w], id)
  }

  predicate Begun(w: Worker, id: int) {
    (w.Running? || w.Reporting?) && w.job.id == id
  }

  /** The job is not being run, has not been run, and is only reported as interrupted. */
  ghost predicate CutOff(s: Pool, id: int) {
    && (forall i :: 0 <= i < |s.reported| ==> s.reported[i].id == id ==> s.reported[i].isBreak)
    && (forall w :: 0 <= w < |s.workers| ==> CutOffBy(s.workers[w], id))
    && Statuses(s.runs, id) == []
  }

  predicate CutOffBy(w: Worker, id: int) {
    Begun(w, id) ==> w.Reporting? && w.job.isBreak
  }

  lemma WorkerKeepsCutOff(s: Pool, s': Pool, w: nat, id: nat)
    requires s.threadExit && CutOff(s, id) && w < |s.workers| && WorkerStep(s, s', w)
    ensures CutOff(s', id) && s'.threadExit
  {
    var worker := s.workers[w];
    assert CutOffBy(worker, id);
    if worker.Running? {
      var status :| s' == s.(workers := s.workers[w := Reporting(worker.job.(returncode := status))],
                             runs := s.runs + [Run(worker.job.id, status)]);
      RunAdded(s.runs, Run(worker.job.id, status), id);
    }
  }

  lemma MainKeepsCutOff(c: Config, s: Pool, s': Pool, id: nat)
    requires MainStep(c, s, s') && s.threadExit && CutOff(s, id)
    ensures CutOff(s', id) && s'.threadExit
  {
    assert s'.runs == s.runs && s'.reported == s.reported && s'.threadExit;
    assert s'.workers == s.workers || s'.workers == s.workers + [Idle];
  }

  lemma StepKeepsCutOff(c: Config, s: Pool, s': Pool, id: nat)
    requires Step(c, s, s') && s.threadExit && CutOff(s, id)
    ensures CutOff(s', id) && s'.threadExit
  {
    if MainStep(c, s, s') {
      MainKeepsCutOff(c, s, s', id);
    } else if w: nat :| w < |s.workers| && WorkerStep(s, s', w) {
      WorkerKeepsCutOff(s, s', w, id);
    }
  }

  /** Once the signal has arrived, a job that nobody has begun is never run, and it is reported as
      interrupted even if it was to be skipped. */
  lemma {:induction false} InterruptStops(c: Config, run: seq<Pool>, i: nat, j: nat, id: nat)
    requires IsRun(c, run) && i <= j < |run| && id < |c.skips|
    requires run[i].threadExit && NotBegun(run[i], id)
    ensures CutOff(run[j], id) && run[j].threadExit
  {
    if i < j {
      InterruptStops(c, run, i, j - 1, id);
      assert StepAt(c, run, j - 1);
      StepKeepsCutOff(c, run[j - 1], run[j], id);
    } else {
      RunKeepsInv(c, run, i);
      NotBegunIsCutOff(c, run[i], id);
    }
  }

  /** An interrupt that leaves a job unbegun makes the exit code 1. */
  lemma InterruptedOutcome(c: Config, run: seq<Pool>, i: nat, id: nat)
    requires IsRun(c, run) && i < |run| && id < |c.skips|
    requires run[i].threadExit && NotBegun(run[i], id)
    ensures run[|run| - 1].main.Done? ==> run[|run| - 1].main.code == 1
  {
    var n := |run| - 1;
    InterruptStops(c, run, i, n, id);
    RunKeepsInv(c, run, n);
    if run[n].main.Done? {
      Outcome(c, run[n]);
      CutOffEndsBadly(c, run[n], id);
    }
  }

  lemma NotBegunIsCutOff(c: Config, s: Pool, id: nat)
    requires Inv(c, s) && NotBegun(s, id) && id < |c.skips|
    ensures CutOff(s, id)
  {
    assert OnePlace(s, id);
    if id < s.taken {
      if Occurs(s.reported, id) > 0 {
        var i := OccursSomewhere(s.reported, id);
      }
      var w := HandsSomewhere(s.workers, id);
      assert WorkerExplained(s.runs, s.workers[w]);
    }
  }

  lemma {:induction false} HandsSomewhere(workers: seq<Worker>, id: nat) returns (w: nat)
    requires Hands(workers, id) > 0
    ensures w < |workers| && InHand(workers[w]) == id
  {
    var n := |workers| - 1;
    if InHand(workers[n]) == id {
      w := n;
    } else {
      w := HandsSomewhere(workers[..n], id);
    }
  }

  lemma CutOffEndsBadly(c: Config, s: Pool, id: nat)
    requires Finished(c, s) && CutOff(s, id) && id < |c.skips|
    ensures s.main.code == 1
  {
    assert OccursOnce(s.reported, |c.skips|, id);
    var i := OccursSomewhere(s.reported, id);
    assert s.reported[i] in s.reported;
    assert !EndedWell(c, s, id);
  }
}
