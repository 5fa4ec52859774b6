/**
 * The hand-over of a register snapshot in ctrl/ctrl.c: `registers_syn_get` waits on a condition until
 * `sync_completion_cb`, called by a driver thread, has set a flag. Two threads are interleaved one library call
 * or flag access at a time, and the wait may wake up without a signal.
 */
module RegisterSync {
  import opened Wrappers

  /** The call that the waiting thread makes next; Asleep is inside pthread_cond_wait, Relock on its way out. */
  datatype Waiter =
    InitMutex | InitCond | ClearFlag | Execute | Lock | Test | Asleep | Relock | Unlock
  | DestroyCond | DestroyMutex | Read | Done

  /** How far the callback has come. */
  datatype Callback = Uncalled | Called | HasLock | HasSet | HasSignalled | Returned

  datatype Owner = Nobody | TheWaiter | TheCallback

  datatype State = State(
    waiter: Waiter, callback: Callback, owner: Owner, flag: bool, mutexLive: bool, condLive: bool)

  /** The context is a local variable: its flag starts with any value. */
  predicate IsStart(s: State) {
    s == State(InitMutex, Uncalled, Nobody, s.flag, false, false)
  }

  datatype Move = WaiterMoves | CallbackMoves | SpuriousWakeUp

  /** None: the thread is blocked, has returned or has not been called. */
  function Next(s: State, m: Move): Option<State> {
    match m
    case WaiterMoves => WaiterNext(s)
    case CallbackMoves => CallbackNext(s)
    case SpuriousWakeUp => if s.waiter == Asleep then Some(s.(waiter := Relock)) else None
  }

  function WaiterNext(s: State): Option<State> {
    match s.waiter
    case InitMutex => Some(s.(waiter := InitCond, mutexLive := true))
    case InitCond => Some(s.(waiter := ClearFlag, condLive := true))
    case ClearFlag => Some(s.(waiter := Execute, flag := false))
    case Execute => Some(s.(waiter := Lock, callback := Called))
    case Lock => if s.owner == Nobody then Some(s.(waiter := Test, owner := TheWaiter)) else None
    case Test => if s.flag then Some(s.(waiter := Unlock)) else Some(s.(waiter := Asleep, owner := Nobody))
    case Asleep => None
    case Relock => if s.owner == Nobody then Some(s.(waiter := Test, owner := TheWaiter)) else None
    case Unlock => Some(s.(waiter := DestroyCond, owner := Nobody))
    case DestroyCond => Some(s.(waiter := DestroyMutex, condLive := false))
    case DestroyMutex => Some(s.(waiter := Read, mutexLive := false))
    case Read => Some(s.(waiter := Done))
    case Done => None
  }

  /** A signal wakes the waiter if it is asleep and is forgotten otherwise. */
  function CallbackNext(s: State): Option<State> {
    match s.callback
    case Uncalled => None
    case Called => if s.owner == Nobody then Some(s.(callback := HasLock, owner := TheCallback)) else None
    case HasLock => Some(s.(callback := HasSet, flag := true))
    case HasSet => Some(s.(callback := HasSignalled, waiter := if s.waiter == Asleep then Relock else s.waiter))
    case HasSignalled => Some(s.(callback := Returned, owner := Nobody))
    case Returned => None
  }

  /** Where a sequence of moves leads, when all of them are possible. */
  function After(s: State, moves: seq<Move>): Option<State> {
    if moves == [] then Some(s)
    else match After(s, moves[..|moves| - 1])
         case None => None
         case Some(t) => Next(t, moves[|moves| - 1])
  }

  // ---- What holds in every reachable state ----

  predicate UsesMutex(s: State, m: Move) {
    match m
    case WaiterMoves => s.waiter in {Lock, Test, Relock, Unlock, DestroyMutex}
    case CallbackMoves => s.callback in {Called, HasSignalled}
    case SpuriousWakeUp => false
  }

  predicate UsesCond(s: State, m: Move) {
    match m
    case WaiterMoves => s.waiter in {Test, Relock, DestroyCond}
    case CallbackMoves => s.callback == HasSet
    case SpuriousWakeUp => true
  }

  predicate UsesFlag(s: State, m: Move) {
    match m
    case WaiterMoves => s.waiter == Test
    case CallbackMoves => s.callback == HasLock
    case SpuriousWakeUp => false
  }

  /** The move only touches what is alive, and the flag only under the lock. */
  predicate Proper(s: State, m: Move) {
    && (UsesMutex(s, m) ==> s.mutexLive)
    && (UsesCond(s, m) ==> s.condLive)
    && (UsesFlag(s, m) ==> s.owner == if m == WaiterMoves then TheWaiter else TheCallback)
  }

  /** The signal that will wake the waiter is still to come. */
  predicate SignalAhead(s: State) {
    s.callback in {Called, HasLock, HasSet}
  }

  predicate Inv(s: State) {
    var before := s.waiter in {InitMutex, InitCond, ClearFlag, Execute};
    var behind := s.waiter in {DestroyCond, DestroyMutex, Read, Done};
    && (before <==> s.callback == Uncalled)
    && (s.waiter == Execute ==> !s.flag)
    && (!before ==> (s.flag <==> s.callback in {HasSet, HasSignalled, Returned}))
    && (s.owner == TheWaiter <==> s.waiter in {Test, Unlock})
    && (s.owner == TheCallback <==> s.callback in {HasLock, HasSet, HasSignalled})
    && (s.mutexLive <==> s.waiter !in {InitMutex, Read, Done})
    && (s.condLive <==> s.waiter !in {InitMutex, InitCond, DestroyMutex, Read, Done})
    && (s.waiter == Unlock || behind ==> s.callback == Returned)
    && (s.waiter == Asleep ==> SignalAhead(s))
  }

  lemma StepKeepsInv(s: State, m: Move)
    requires Inv(s) && Next(s, m).Some?
    ensures Inv(Next(s, m).value)
  {
  }

  lemma {:induction false} Reachable(s: State, moves: seq<Move>)
    requires IsStart(s) && After(s, moves).Some?
    ensures Inv(After(s, moves).value)
  {
    if moves != [] {
      Reachable(s, moves[..|moves| - 1]);
      StepKeepsInv(After(s, moves[..|moves| - 1]).value, moves[|moves| - 1]);
    }
  }

  /**
   * In every interleaving: whoever moves next finds mutex and condition alive and holds the lock at the flag; the
   * condition and the mutex are destroyed, and the shadow table is read, only when the callback has set the flag
   * and will not touch the context again.
   */
  lemma EveryMoveIsProper(s: State, moves: seq<Move>, m: Move)
    requires IsStart(s) && After(s, moves).Some?
    ensures var t := After(s, moves).value;
            && (Next(t, m).Some? ==> Proper(t, m))
            && (t.waiter in {DestroyCond, DestroyMutex, Read, Done} ==>
                  t.flag && t.callback == Returned && Next(t, CallbackMoves).None?)
  {
    Reachable(s, moves);
  }

  /** No wake-up is lost: while the waiter sleeps, the signal is ahead, and a flag that is set is soon signalled. */
  lemma NoWakeUpIsLost(s: State, moves: seq<Move>)
    requires IsStart(s) && After(s, moves).Some? && After(s, moves).value.waiter == Asleep
    ensures var t := After(s, moves).value;
            SignalAhead(t) && (t.flag <==> t.callback == HasSet)
  {
    Reachable(s, moves);
  }

  // ---- Progress ----

  function WaiterRank(w: Waiter): nat {
    match w
    case InitMutex => 12
    case InitCond => 11
    case ClearFlag => 10
    case Execute => 9
    case Lock => 8
    case Relock => 8
    case Test => 7
    case Asleep => 6
    case Unlock => 4
    case DestroyCond => 3
    case DestroyMutex => 2
    case Read => 1
    case Done => 0
  }

  /** Signalling a sleeping waiter sends it back to the lock once more. */
  function Rank(s: State): nat {
    WaiterRank(s.waiter)
    + match s.callback { case Uncalled => 6 case Called => 6 case HasLock => 5 case HasSet => 4
                         case HasSignalled => 1 case Returned => 0 }
  }

  function Spurious(moves: seq<Move>): nat {
    if moves == [] then 0
    else Spurious(moves[..|moves| - 1]) + if moves[|moves| - 1] == SpuriousWakeUp then 1 else 0
  }

  lemma StepLowersRank(s: State, m: Move)
    requires Inv(s) && Next(s, m).Some?
    ensures Rank(Next(s, m).value) < Rank(s) + if m == SpuriousWakeUp then 3 else 0
  {
  }

  lemma {:induction false} RunLowersRank(s: State, moves: seq<Move>)
    requires IsStart(s) && After(s, moves).Some?
    ensures |moves| + Rank(After(s, moves).value) <= 18 + 3 * Spurious(moves)
  {
    if moves != [] {
      var n := |moves| - 1;
      RunLowersRank(s, moves[..n]);
      Reachable(s, moves[..n]);
      StepLowersRank(After(s, moves[..n]).value, moves[n]);
    }
  }

  /** Short of the end some thread can always move, without waiting for a spurious wake-up. */
  lemma NeverStuck(s: State, moves: seq<Move>)
    requires IsStart(s) && After(s, moves).Some?
    ensures var t := After(s, moves).value;
            Next(t, WaiterMoves).None? && Next(t, CallbackMoves).None? <==> t.waiter == Done
  {
    Reachable(s, moves);
  }

  /**
   * A run with k spurious wake-ups has at most 18 + 3k moves. One that cannot go on has read the table, after the
   * callback returned.
   */
  lemma RunsEndAfterTheRead(s: State, moves: seq<Move>)
    requires IsStart(s) && After(s, moves).Some?
    ensures |moves| <= 18 + 3 * Spurious(moves)
    ensures (forall m :: Next(After(s, moves).value, m).None?) ==>
              After(s, moves).value == State(Done, Returned, Nobody, true, false, false)
  {
    RunLowersRank(s, moves);
    NeverStuck(s, moves);
    Reachable(s, moves);
    var t := After(s, moves).value;
    if forall m :: Next(t, m).None? {
      assert Next(t, WaiterMoves).None? && Next(t, CallbackMoves).None?;
    }
  }
}
