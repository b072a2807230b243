/**
 * The condition-variable handoff of CancellationToken (rust/crates/hns-loopback-proxy/src/backend.rs):
 * any number of threads calling `cancel` and `wait_cancelled_timeout`, interleaved one shared
 * access at a time. Shared accesses are sequentially consistent.
 */
module Cancellation {
  import opened Prelude

  type ThreadId = nat

  /** Where a thread is, named after the access it makes next. */
  datatype Pc =
    | Outside
    | CancelCalled               // takes the lock
    | CancelLocked               // swaps the flag
    | CancelSwapped              // the swap saw false: notifies everyone asleep
    | CancelDone(first: bool)    // releases the lock and returns
    | WaitCalled                 // reads the flag without the lock
    | WaitContending             // takes the lock
    | WaitLocked                 // reads the flag again
    | WaitTesting                // tests the flag in the waiting loop
    | WaitCommitted              // saw false: sleeps, or gives up past the deadline
    | WaitAsleep                 // in the wait set, without the lock
    | WaitAwake                  // left the wait set: takes the lock
    | WaitEnding                 // reads the flag for the result
    | WaitDone(seen: bool)       // releases the lock and returns

  datatype Event = CancelReturned(first: bool) | WaitReturned(seen: bool)

  datatype State = State(cancelled: bool, holder: Option<ThreadId>, pcs: map<ThreadId, Pc>, log: seq<Event>)

  /** `Wake` is a timeout or a spurious wakeup. */
  datatype Action =
    | CallCancel(t: ThreadId)
    | CallWait(t: ThreadId)
    | Advance(t: ThreadId)
    | GiveUp(t: ThreadId)
    | Wake(t: ThreadId)

  function Start(threads: set<ThreadId>): State {
    State(false, None, map t | t in threads :: Outside, [])
  }

  function Move(s: State, t: ThreadId, pc: Pc): State {
    s.(pcs := s.pcs[t := pc])
  }

  function Lock(s: State, t: ThreadId, pc: Pc): State {
    if s.holder.None? then Move(s, t, pc).(holder := Some(t)) else s
  }

  function Return(s: State, t: ThreadId, event: Event): State {
    Move(s, t, Outside).(log := s.log + [event])
  }

  function Notified(pcs: map<ThreadId, Pc>): map<ThreadId, Pc> {
    map t | t in pcs :: if pcs[t] == WaitAsleep then WaitAwake else pcs[t]
  }

  /** One access of thread `t`; a thread that cannot take the lock stays where it is. */
  function Proceed(s: State, t: ThreadId): State
    requires t in s.pcs
  {
    match s.pcs[t]
    case CancelCalled => Lock(s, t, CancelLocked)
    case CancelLocked =>
      if s.cancelled then Move(s, t, CancelDone(false)) else Move(s, t, CancelSwapped).(cancelled := true)
    case CancelSwapped => Move(s.(pcs := Notified(s.pcs)), t, CancelDone(true))
    case CancelDone(first) => Return(s.(holder := None), t, CancelReturned(first))
    case WaitCalled => if s.cancelled then Return(s, t, WaitReturned(true)) else Move(s, t, WaitContending)
    case WaitContending => Lock(s, t, WaitLocked)
    case WaitLocked => Move(s, t, if s.cancelled then WaitDone(true) else WaitTesting)
    case WaitTesting => Move(s, t, if s.cancelled then WaitEnding else WaitCommitted)
    case WaitCommitted => Move(s.(holder := None), t, WaitAsleep)
    case WaitAwake => Lock(s, t, WaitTesting)
    case WaitEnding => Move(s, t, WaitDone(s.cancelled))
    case WaitDone(seen) => Return(s.(holder := None), t, WaitReturned(seen))
    case _ => s
  }

  /** An action that is not possible in a state leaves it alone. */
  function Step(s: State, a: Action): State {
    if a.t !in s.pcs then s
    else
      match a
      case CallCancel(t) => if s.pcs[t] == Outside then Move(s, t, CancelCalled) else s
      case CallWait(t) => if s.pcs[t] == Outside then Move(s, t, WaitCalled) else s
      case GiveUp(t) => if s.pcs[t] == WaitCommitted then Move(s, t, WaitEnding) else s
      case Wake(t) => if s.pcs[t] == WaitAsleep then Move(s, t, WaitAwake) else s
      case Advance(t) => Proceed(s, t)
  }

  function Run(s: State, actions: seq<Action>): State
    decreases |actions|
  {
    if actions == [] then s else Run(Step(s, actions[0]), actions[1..])
  }

  // ---------------------------------------------------------------- the invariant

  predicate HoldsLock(pc: Pc) {
    pc.CancelLocked? || pc.CancelSwapped? || pc.CancelDone? || pc.WaitLocked? || pc.WaitTesting?
    || pc.WaitCommitted? || pc.WaitEnding? || pc.WaitDone?
  }

  /** The lock is held by exactly the thread that is inside a critical section. */
  ghost predicate Exclusive(s: State) {
    && (s.holder.Some? ==> s.holder.value in s.pcs)
    && forall t | t in s.pcs :: HoldsLock(s.pcs[t]) <==> s.holder == Some(t)
  }

  /** What a thread has concluded about the flag is still so. */
  predicate Consistent(cancelled: bool, pc: Pc) {
    && ((pc.CancelSwapped? || pc.CancelDone? || pc == WaitDone(true)) ==> cancelled)
    && ((pc.WaitCommitted? || pc == WaitDone(false)) ==> !cancelled)
  }

  predicate HolderAt(s: State, pc: Pc) {
    s.holder.Some? && s.holder.value in s.pcs && s.pcs[s.holder.value] == pc
  }

  /** A thread asleep while the flag is set is about to be notified. */
  predicate NotForgotten(s: State, pc: Pc) {
    s.cancelled && pc.WaitAsleep? ==> HolderAt(s, CancelSwapped)
  }

  ghost predicate ThreadsAgree(s: State) {
    forall t | t in s.pcs :: Consistent(s.cancelled, s.pcs[t]) && NotForgotten(s, s.pcs[t])
  }

  function FirstReturns(log: seq<Event>): nat {
    if log == [] then 0 else FirstReturns(log[..|log| - 1]) + (if log[|log| - 1] == CancelReturned(true) then 1 else 0)
  }

  /** The thread that won the swap has not returned yet. */
  predicate Winning(s: State) {
    HolderAt(s, CancelSwapped) || HolderAt(s, CancelDone(true))
  }

  /** The flag is set exactly when one thread has won the swap, and that thread returns `true` once. */
  predicate OneWinner(s: State) {
    FirstReturns(s.log) + (if Winning(s) then 1 else 0) == if s.cancelled then 1 else 0
  }

  /** Returns in order: nothing reports "not cancelled" after something reported "cancelled". */
  ghost predicate Linear(log: seq<Event>) {
    forall i, j | 0 <= i < j < |log| && (log[i].CancelReturned? || log[i].seen) ::
      log[j] != WaitReturned(false) && (log[i].CancelReturned? ==> log[j] != CancelReturned(true))
  }

  /** A `cancel` returns `true` when none has returned `true` before, and otherwise `false`. */
  ghost predicate WinnerFirst(log: seq<Event>) {
    forall i | 0 <= i < |log| && log[i].CancelReturned? :: FirstReturns(log[..i]) == if log[i].first then 0 else 1
  }

  ghost predicate LogAgrees(s: State) {
    && Linear(s.log)
    && (forall i | 0 <= i < |s.log| && (s.log[i].CancelReturned? || s.log[i].seen) :: s.cancelled)
    && WinnerFirst(s.log)
  }

  ghost predicate Inv(s: State) {
    Exclusive(s) && ThreadsAgree(s) && OneWinner(s) && LogAgrees(s)
  }

  lemma FirstReturnsOf(log: seq<Event>, event: Event)
    ensures FirstReturns(log + [event]) == FirstReturns(log) + (if event == CancelReturned(true) then 1 else 0)
  {
    assert (log + [event])[..|log|] == log;
  }

  lemma StepIsExclusive(s: State, a: Action)
    requires Exclusive(s)
    ensures Exclusive(Step(s, a))
  {
  }

  lemma StepAgrees(s: State, a: Action)
    requires Exclusive(s) && ThreadsAgree(s)
    ensures ThreadsAgree(Step(s, a))
  {
  }

  lemma StepHasOneWinner(s: State, a: Action)
    requires Exclusive(s) && ThreadsAgree(s) && OneWinner(s)
    ensures OneWinner(Step(s, a))
  {
    hide FirstReturns, NotForgotten, Notified;
    var next := Step(s, a);
    if a.Advance? && a.t in s.pcs {
      var pc := s.pcs[a.t];
      assert HoldsLock(pc) <==> s.holder == Some(a.t);
      assert Consistent(s.cancelled, pc);
      if pc.CancelDone? {
        FirstReturnsOf(s.log, CancelReturned(pc.first));
        assert Winning(s) <==> pc.first;
      } else if pc.WaitDone? {
        FirstReturnsOf(s.log, WaitReturned(pc.seen));
      } else if pc.WaitCalled? {
        FirstReturnsOf(s.log, WaitReturned(true));
        SameWinner(s, next, a.t);
      } else if !HoldsLock(pc) && s.holder.Some? {
        SameWinner(s, next, a.t);
      }
    } else if a.t in s.pcs {
      SameWinner(s, next, a.t);
    }
  }

  /** A step of a thread outside the critical section does not change who is winning. */
  lemma SameWinner(s: State, next: State, t: ThreadId)
    requires t in s.pcs && next.holder == s.holder && forall u | u in s.pcs && u != t :: u in next.pcs && next.pcs[u] == s.pcs[u]
    requires t in next.pcs && (s.pcs[t] == next.pcs[t] || (!Wins(s.pcs[t]) && !Wins(next.pcs[t])))
    requires s.holder.Some? ==> s.holder.value in s.pcs
    ensures Winning(next) == Winning(s)
  {
  }

  predicate Wins(pc: Pc) {
    pc == CancelSwapped || pc == CancelDone(true)
  }

  lemma LogStep(s: State, next: State, event: Event)
    requires LogAgrees(s) && OneWinner(s) && next.log == s.log + [event] && next.cancelled == s.cancelled
    requires event == WaitReturned(false) ==> !s.cancelled
    requires event != WaitReturned(false) ==> s.cancelled
    requires event == CancelReturned(true) ==> FirstReturns(s.log) == 0
    requires event == CancelReturned(false) ==> FirstReturns(s.log) == 1
    ensures LogAgrees(next)
  {
    hide FirstReturns;
    WinnerReturned(s.log);
    assert next.log[..|s.log|] == s.log;
    assert forall i | 0 <= i < |s.log| :: next.log[..i] == s.log[..i];
  }

  lemma {:induction false} EarlierReturns(log: seq<Event>, i: nat)
    requires i <= |log|
    ensures FirstReturns(log[..i]) <= FirstReturns(log)
    ensures FirstReturns(log[..i]) < FirstReturns(log) ==> exists j :: i <= j < |log| && log[j] == CancelReturned(true)
    ensures i < |log| && log[i] == CancelReturned(true) ==> FirstReturns(log[..i]) < FirstReturns(log)
    decreases |log|
  {
    if i < |log| {
      var front := log[..|log| - 1];
      EarlierReturns(front, i);
      assert front[..i] == log[..i];
      if i < |front| {
        assert front[i] == log[i];
      }
    } else {
      assert log[..i] == log;
    }
  }

  /** Once a `cancel` has returned, one has returned `true`. */
  lemma WinnerReturned(log: seq<Event>)
    requires WinnerFirst(log)
    ensures forall i | 0 <= i < |log| && log[i].CancelReturned? :: FirstReturns(log) >= 1
  {
    forall i | 0 <= i < |log| && log[i].CancelReturned?
      ensures FirstReturns(log) >= 1
    {
      EarlierReturns(log, i);
    }
  }

  lemma StepLogAgrees(s: State, a: Action)
    requires Inv(s)
    ensures LogAgrees(Step(s, a))
  {
    var next := Step(s, a);
    if a.t in s.pcs && a.Advance? {
      var pc := s.pcs[a.t];
      assert Consistent(s.cancelled, pc) && (HoldsLock(pc) <==> s.holder == Some(a.t));
      if pc.CancelDone? {
        LogStep(s, next, CancelReturned(pc.first));
      } else if pc.WaitDone? {
        LogStep(s, next, WaitReturned(pc.seen));
      } else if pc.WaitCalled? && s.cancelled {
        LogStep(s, next, WaitReturned(true));
      }
    }
  }

  lemma StepKeepsInv(s: State, a: Action)
    requires Inv(s)
    ensures Inv(Step(s, a))
    ensures s.cancelled ==> Step(s, a).cancelled
  {
    StepIsExclusive(s, a);
    StepAgrees(s, a);
    StepHasOneWinner(s, a);
    StepLogAgrees(s, a);
  }

  /** Every state of every run satisfies the invariant, and the flag never clears. */
  lemma {:induction false} RunKeepsInv(s: State, actions: seq<Action>)
    requires Inv(s)
    ensures Inv(Run(s, actions))
    ensures s.cancelled ==> Run(s, actions).cancelled
    decreases |actions|
  {
    hide Inv, Step;
    if actions != [] {
      StepKeepsInv(s, actions[0]);
      RunKeepsInv(Step(s, actions[0]), actions[1..]);
    }
  }

  // ---------------------------------------------------------------- what callers rely on

  /** The flag is set and the winner has notified everyone. */
  ghost predicate Settled(s: State) {
    Inv(s) && s.cancelled && !HolderAt(s, CancelSwapped)
  }

  /**
   * No lost wakeup: in every reachable state in which some `cancel` has returned, the flag is set,
   * nobody is asleep without having been notified, and nobody is about to fall asleep.
   */
  lemma NoLostWakeup(threads: set<ThreadId>, actions: seq<Action>, i: nat)
    requires i < |Run(Start(threads), actions).log| && Run(Start(threads), actions).log[i].CancelReturned?
    ensures var s := Run(Start(threads), actions);
      Settled(s) && forall t | t in s.pcs :: !s.pcs[t].WaitAsleep? && !s.pcs[t].WaitCommitted?
  {
    RunKeepsInv(Start(threads), actions);
    var s := Run(Start(threads), actions);
    WinnerReturned(s.log);
    forall t | t in s.pcs
      ensures !s.pcs[t].WaitAsleep? && !s.pcs[t].WaitCommitted?
    {
      assert Consistent(s.cancelled, s.pcs[t]) && NotForgotten(s, s.pcs[t]);
    }
  }

  /** In every run exactly one `cancel` returns `true`: the one that returns first. */
  lemma OneCancelReturnsTrue(threads: set<ThreadId>, actions: seq<Action>)
    ensures var log := Run(Start(threads), actions).log;
      forall i | 0 <= i < |log| && log[i].CancelReturned? :: log[i].first <==> NoneBefore(log, i)
  {
    RunKeepsInv(Start(threads), actions);
    var log := Run(Start(threads), actions).log;
    forall i | 0 <= i < |log| && log[i].CancelReturned?
      ensures log[i].first <==> NoneBefore(log, i)
    {
      var before := log[..i];
      assert WinnerFirst(before) by {
        assert forall j | 0 <= j < i :: before[..j] == log[..j];
      }
      WinnerReturned(before);
      EarlierReturns(before, 0);
      assert before[..0] == [];
      assert FirstReturns(before) == if log[i].first then 0 else 1;
    }
  }

  ghost predicate NoneBefore(log: seq<Event>, i: nat)
    requires i <= |log|
  {
    forall j | 0 <= j < i :: !log[j].CancelReturned?
  }

  /**
   * Returns are linear: after a `cancel` has returned, every wait returns `true` and every other
   * `cancel` returns `false`; after a wait has returned `true`, no wait returns `false`.
   */
  lemma ReturnsAreLinear(threads: set<ThreadId>, actions: seq<Action>, i: nat, j: nat)
    requires i < j < |Run(Start(threads), actions).log|
    ensures var log := Run(Start(threads), actions).log;
      && (log[i].CancelReturned? ==> log[j] == WaitReturned(true) || log[j] == CancelReturned(false))
      && (log[i] == WaitReturned(true) ==> log[j] != WaitReturned(false))
  {
    RunKeepsInv(Start(threads), actions);
  }

  // ---------------------------------------------------------------- progress

  /** How many accesses a call still needs once the flag is set and everyone has been notified. */
  function Remaining(pc: Pc): nat {
    match pc
    case Outside => 0
    case CancelCalled => 4
    case CancelLocked => 3
    case CancelSwapped => 2
    case CancelDone(_) => 1
    case WaitCalled => 1
    case WaitContending => 3
    case WaitLocked => 2
    case WaitTesting => 3
    case WaitCommitted => 2
    case WaitAsleep => 5
    case WaitAwake => 4
    case WaitEnding => 2
    case WaitDone(_) => 1
  }

  ghost function Total(pcs: map<ThreadId, Pc>): nat
    decreases |pcs|
  {
    if pcs == map[] then 0 else var t :| t in pcs; Remaining(pcs[t]) + Total(pcs - {t})
  }

  lemma {:induction false} TotalWithout(pcs: map<ThreadId, Pc>, t: ThreadId)
    requires t in pcs
    ensures Total(pcs) == Remaining(pcs[t]) + Total(pcs - {t})
    decreases |pcs|
  {
    var picked :| picked in pcs && Total(pcs) == Remaining(pcs[picked]) + Total(pcs - {picked});
    if picked != t {
      TotalWithout(pcs - {picked}, t);
      TotalWithout(pcs - {t}, picked);
      assert pcs - {picked} - {t} == pcs - {t} - {picked};
    }
  }

  /** Some call is still running. */
  ghost predicate Busy(s: State) {
    exists t :: t in s.pcs && s.pcs[t] != Outside
  }

  /** While a call is running, some thread can move: the holder of the lock, or anyone if it is free. */
  lemma SomeoneCanMove(s: State)
    requires Settled(s) && Busy(s)
    ensures exists t :: t in s.pcs && Step(s, Advance(t)) != s
  {
    var t :| t in s.pcs && s.pcs[t] != Outside;
    assert Consistent(s.cancelled, s.pcs[t]) && NotForgotten(s, s.pcs[t]);
    var mover := if s.holder.Some? then s.holder.value else t;
    assert HoldsLock(s.pcs[mover]) <==> s.holder == Some(mover);
    assert Step(s, Advance(mover)).pcs[mover] != s.pcs[mover];
  }

  /** Each access brings the running calls one step nearer to their returns. */
  lemma EveryMoveCounts(s: State, t: ThreadId)
    requires Settled(s) && t in s.pcs && Step(s, Advance(t)) != s
    ensures Settled(Step(s, Advance(t))) && Total(Step(s, Advance(t)).pcs) < Total(s.pcs)
  {
    var next := Step(s, Advance(t));
    StepKeepsInv(s, Advance(t));
    OneAccess(s, t);
    StaysSettled(s, t);
    hide *;
    TotalWithout(s.pcs, t);
    TotalWithout(next.pcs, t);
  }

  lemma OneAccess(s: State, t: ThreadId)
    requires Settled(s) && t in s.pcs && Step(s, Advance(t)) != s
    ensures var next := Step(s, Advance(t));
      t in next.pcs && next.pcs - {t} == s.pcs - {t} && Remaining(next.pcs[t]) < Remaining(s.pcs[t])
  {
    hide LogAgrees, OneWinner, Notified;
    assert Consistent(s.cancelled, s.pcs[t]);
    assert NotForgotten(s, s.pcs[t]);
    assert HoldsLock(s.pcs[t]) <==> s.holder == Some(t);
    assert s.pcs[t] != CancelSwapped;
  }

  lemma StaysSettled(s: State, t: ThreadId)
    requires Settled(s) && t in s.pcs
    ensures !HolderAt(Step(s, Advance(t)), CancelSwapped) && Step(s, Advance(t)).cancelled
  {
    hide LogAgrees, OneWinner, Notified;
    assert HoldsLock(s.pcs[t]) <==> s.holder == Some(t);
    assert s.pcs[t] != CancelSwapped;
  }

  /** Every access in the run has an effect. */
  ghost predicate Moves(s: State, ts: seq<ThreadId>)
    decreases |ts|
  {
    ts == [] || (ts[0] in s.pcs && Step(s, Advance(ts[0])) != s && Moves(Step(s, Advance(ts[0])), ts[1..]))
  }

  function Advances(ts: seq<ThreadId>): seq<Action> {
    seq(|ts|, i requires 0 <= i < |ts| => Advance(ts[i]))
  }

  /**
   * Cancellation reaches every caller: once the flag is set and the sleepers are notified, the
   * running calls return after at most `Total` accesses, however they are scheduled, and they
   * cannot get stuck before all have returned.
   */
  lemma {:induction false} CallsFinish(s: State, ts: seq<ThreadId>)
    requires Settled(s) && Moves(s, ts)
    ensures |ts| <= Total(s.pcs)
    ensures Busy(Run(s, Advances(ts))) ==>
      exists t :: t in Run(s, Advances(ts)).pcs && Step(Run(s, Advances(ts)), Advance(t)) != Run(s, Advances(ts))
    decreases |ts|
  {
    hide Settled, Step, Busy;
    if ts == [] {
      if Busy(s) {
        SomeoneCanMove(s);
      }
    } else {
      EveryMoveCounts(s, ts[0]);
      CallsFinish(Step(s, Advance(ts[0])), ts[1..]);
      assert Advances(ts)[1..] == Advances(ts[1..]);
    }
  }
}
