/** Where every runtime of the browser process is, in every interleaving. */
module ProcessLedger {
  import opened Prelude
  import opened ProcessModel

  function One(condition: bool): nat {
    if condition then 1 else 0
  }

  function Times(ids: seq<nat>, id: nat): nat {
    if ids == [] then 0 else One(ids[0] == id) + Times(ids[1..], id)
  }

  lemma {:induction false} TimesConcat(a: seq<nat>, b: seq<nat>, id: nat)
    ensures Times(a + b, id) == Times(a, id) + Times(b, id)
  {
    hide One;
    if a == [] {
      assert a + b == b;
    } else {
      TimesConcat(a[1..], b, id);
      assert (a + b)[1..] == a[1..] + b;
    }
  }

  lemma TimesOne(x: nat, id: nat)
    ensures Times([x], id) == One(x == id)
  {
    assert [x][1..] == [];
  }

  // ---------------------------------------------------------------- the places a runtime can be in

  function OwnedTimes(phase: Phase, id: RuntimeId): nat {
    One(Owned(phase) == Some(id))
  }

  function RunningTimes(running: Running, id: RuntimeId): nat {
    One((running.Built? && running.runtime == id) || running == Busy(CloseRuntime(id)))
  }

  function OutcomeTimes(outcome: Option<RuntimeId>, id: RuntimeId): nat {
    One(outcome == Some(id))
  }

  function ArrivalTimes(arrival: Arrival, id: RuntimeId): nat {
    if arrival.BuildArrived? then OutcomeTimes(arrival.outcome, id) else 0
  }

  function ArrivedTimes(arrivals: seq<Arrival>, id: RuntimeId): nat {
    if arrivals == [] then 0 else ArrivalTimes(arrivals[0], id) + ArrivedTimes(arrivals[1..], id)
  }

  function ClosingTimes(queue: seq<Work>, id: RuntimeId): nat {
    if queue == [] then 0 else One(queue[0] == CloseRuntime(id)) + ClosingTimes(queue[1..], id)
  }

  /** How often a runtime is on its way to being closed, or closed. */
  function HandedToClose(s: System, id: RuntimeId): nat {
    One(s.running == Busy(CloseRuntime(id))) + ClosingTimes(s.queue, id) + Times(s.closed, id)
  }

  /** How often a runtime is still in preparation: being set up, or on its way to the main actor. */
  function InPreparation(s: System, id: RuntimeId): nat {
    One(s.running.Built? && s.running.runtime == id) + ArrivedTimes(s.arrivals, id)
  }

  /** In how many places a runtime is. */
  function Places(s: System, id: RuntimeId): nat {
    OwnedTimes(s.phase, id) + InPreparation(s, id) + HandedToClose(s, id)
  }

  lemma {:induction false} ClosingAppend(queue: seq<Work>, work: Work, id: RuntimeId)
    ensures ClosingTimes(queue + [work], id) == ClosingTimes(queue, id) + One(work == CloseRuntime(id))
  {
    hide One;
    if queue == [] {
      assert queue + [work] == [work] && [work][1..] == [];
    } else {
      ClosingAppend(queue[1..], work, id);
      assert (queue + [work])[1..] == queue[1..] + [work];
    }
  }

  lemma {:induction false} ArrivedAppend(arrivals: seq<Arrival>, arrival: Arrival, id: RuntimeId)
    ensures ArrivedTimes(arrivals + [arrival], id) == ArrivedTimes(arrivals, id) + ArrivalTimes(arrival, id)
  {
    hide ArrivalTimes;
    if arrivals == [] {
      assert arrivals + [arrival] == [arrival] && [arrival][1..] == [];
    } else {
      ArrivedAppend(arrivals[1..], arrival, id);
      assert (arrivals + [arrival])[1..] == arrivals[1..] + [arrival];
    }
  }

  // ---------------------------------------------------------------- the main actor

  /** The main actor leaves the background alone, except that it may submit one piece of work. */
  predicate Submitted(s: System, next: System, work: Option<Work>) {
    && next.running == s.running && next.arrivals == s.arrivals && next.closed == s.closed && next.runtimes == s.runtimes
    && next.queue == if work.Some? then s.queue + [work.value] else s.queue
  }

  function Closes(work: Option<Work>): Option<RuntimeId> {
    if work.Some? && work.value.CloseRuntime? then Some(work.value.runtime) else None
  }

  lemma SubmittedPlaces(s: System, next: System, work: Option<Work>, id: RuntimeId)
    requires Submitted(s, next, work)
    ensures Places(next, id) + OwnedTimes(s.phase, id)
      == Places(s, id) + OwnedTimes(next.phase, id) + OutcomeTimes(Closes(work), id)
  {
    if work.Some? {
      ClosingAppend(s.queue, work.value, id);
    }
    hide OwnedTimes, RunningTimes, ArrivedTimes, ClosingTimes, Times;
  }

  lemma PrepareSubmits(s: System, callback: Callback, directory: bool) returns (work: Option<Work>)
    ensures Submitted(s, PrepareWith(s, callback, directory), work) && (work.Some? ==> work.value.Build?)
    ensures Owned(PrepareWith(s, callback, directory).phase) == Owned(s.phase)
  {
    hide AnswersTo;
    work := if directory && (s.phase.Idle? || s.phase.Failed?) then Some(Build(s.network, ForPrepare)) else None;
    if (s.phase.Idle? || s.phase.Failed?) && !directory {
      NotPrepared(s, callback);
      hide FinishPreparation;
    }
  }

  lemma NotPrepared(s: System, callback: Callback)
    ensures var next := FinishPreparation(s.(phase := Preparing([callback])), None); Submitted(s, next, None) && next.phase == Failed
  {
    hide AnswersTo;
  }

  lemma SwitchSubmits(s: System, network: Network, directory: bool) returns (work: Option<Work>)
    ensures Submitted(s, SwitchNetwork(s, network, directory), work) && (work.Some? ==> work.value.Build?)
    ensures Owned(SwitchNetwork(s, network, directory).phase) == Owned(s.phase)
  {
    hide PrepareWith;
    if !s.switchInFlight && network == s.network && !s.phase.Ready? {
      work := PrepareSubmits(s.(calls := s.calls + 1), s.calls, directory);
    } else if !s.switchInFlight && s.phase.Ready? && directory && network != s.network {
      work := Some(Build(network, ForSwitch(s.phase.runtime, s.switchGeneration + 1, s.calls)));
    } else {
      work := None;
    }
  }

  lemma SyncSubmits(s: System, e: Event) returns (work: Option<Work>)
    requires e.SyncRequest? || e.ScheduledSync? || e.ForegroundResume? || e.ForegroundSuspend?
    ensures Submitted(s, Step(s, e), work) && Owned(Step(s, e).phase) == Owned(s.phase)
    ensures work.Some? ==> work.value.Sync? && Owned(s.phase) == Some(work.value.runtime)
  {
    var next := Step(s, e);
    work := if next.queue == s.queue then None else Some(next.queue[|s.queue|]);
  }

  lemma CloseSubmits(s: System) returns (work: Option<Work>)
    ensures Submitted(s, Close(s), work) && Owned(Close(s).phase).None? && Closes(work) == Owned(s.phase)
    ensures work.Some? ==> work.value.CloseRuntime?
  {
    hide AnswersTo;
    work := if Owned(s.phase).Some? then Some(CloseRuntime(Owned(s.phase).value)) else None;
  }

  predicate Call(e: Event) {
    !e.Arriving? && !e.Taking? && !e.FactoryDone? && !e.SetUpDone? && !e.WorkDone?
  }

  /** A call keeps the owned runtime, or gives it up and submits its close. */
  lemma CallSubmits(s: System, e: Event) returns (work: Option<Work>)
    requires Call(e)
    ensures Submitted(s, Step(s, e), work)
    ensures var owned := Owned(Step(s, e).phase);
      if e.Shutdown? then owned.None? && Closes(work) == Owned(s.phase) else owned == Owned(s.phase) && Closes(work).None?
    ensures work.Some? && work.value.Sync? ==> Owned(s.phase) == Some(work.value.runtime)
  {
    hide PrepareWith, SwitchNetwork, Close, Owned;
    match e {
      case Preparation(directory) => work := PrepareSubmits(s.(calls := s.calls + 1), s.calls, directory);
      case NetworkChange(network, directory) => work := SwitchSubmits(s, network, directory);
      case Shutdown => work := CloseSubmits(s);
      case _ => work := SyncSubmits(s, e);
    }
  }

  lemma CallKeepsPlaces(s: System, e: Event, id: RuntimeId)
    requires Call(e)
    ensures Places(Step(s, e), id) == Places(s, id) && Step(s, e).runtimes == s.runtimes
  {
    var work := CallSubmits(s, e);
    hide Step, Places;
    SubmittedPlaces(s, Step(s, e), work, id);
  }

  lemma PreparationSubmits(s: System, outcome: Option<RuntimeId>, id: RuntimeId) returns (work: Option<Work>)
    ensures var next := FinishPreparation(s, outcome);
      Submitted(s, next, work) && (work.Some? ==> work.value.CloseRuntime?)
      && OwnedTimes(s.phase, id) + OutcomeTimes(outcome, id) == OwnedTimes(next.phase, id) + OutcomeTimes(Closes(work), id)
  {
    hide AnswersTo;
    work := if outcome.Some? && !s.phase.Preparing? then Some(CloseRuntime(outcome.value)) else None;
  }

  lemma SwitchedSubmits(s: System, outcome: Option<RuntimeId>, network: Network, purpose: Purpose, id: RuntimeId)
    returns (work: Option<Work>)
    requires purpose.ForSwitch?
    ensures var next := FinishSwitch(s, outcome, network, purpose);
      Submitted(s, next, work) && (work.Some? ==> work.value.CloseRuntime?)
      && OwnedTimes(s.phase, id) + OutcomeTimes(outcome, id) == OwnedTimes(next.phase, id) + OutcomeTimes(Closes(work), id)
  {
    if outcome.None? {
      work := None;
    } else if s.switchInFlight && purpose.generation == s.switchGeneration && s.phase == Switching(purpose.from) {
      work := Some(CloseRuntime(purpose.from));
    } else {
      work := Some(CloseRuntime(outcome.value));
    }
  }

  lemma SyncedSubmits(s: System, runtime: RuntimeId, succeeded: bool)
    ensures Submitted(s, FinishSync(s, runtime, succeeded), None) && FinishSync(s, runtime, succeeded).phase == s.phase
  {
    hide AnswersTo;
  }

  lemma NextArrivalPlaces(s: System, id: RuntimeId)
    requires s.arrivals != []
    ensures Places(s, id) == Places(s.(arrivals := s.arrivals[1..]), id) + ArrivalTimes(s.arrivals[0], id)
  {
    hide OwnedTimes, RunningTimes, ClosingTimes, Times, ArrivalTimes, One;
  }

  lemma ArriveKeepsPlaces(s: System, id: RuntimeId)
    requires Networks(s) && s.arrivals != []
    ensures Places(Arrive(s), id) == Places(s, id) && Arrive(s).runtimes == s.runtimes
  {
    NextArrivalPlaces(s, id);
    var arrival := s.arrivals[0];
    var rest := s.(arrivals := s.arrivals[1..]);
    assert arrival.BuildArrived? ==> arrival.work.Build?;
    hide Networks, Places, FinishPreparation, FinishSwitch, FinishSync, OwnedTimes, OutcomeTimes;
    var next := Arrive(s);
    var work := None;
    if arrival.SyncArrived? {
      SyncedSubmits(rest, arrival.runtime, arrival.succeeded);
      assert next == FinishSync(rest, arrival.runtime, arrival.succeeded);
    } else if arrival.work.purpose.ForPrepare? {
      work := PreparationSubmits(rest, arrival.outcome, id);
    } else {
      work := SwitchedSubmits(rest, arrival.outcome, arrival.work.network, arrival.work.purpose, id);
    }
    hide Arrive;
    SubmittedPlaces(rest, next, work, id);
  }

  // ---------------------------------------------------------------- the queue

  lemma TakeKeepsPlaces(s: System, id: RuntimeId)
    requires s.running.Nothing? && s.queue != []
    ensures Places(Take(s), id) == Places(s, id)
  {
    hide OwnedTimes, ArrivedTimes, Times;
  }

  lemma FactoryKeepsPlaces(s: System, succeeds: bool, id: RuntimeId)
    requires s.running.Busy? && s.running.work.Build?
    ensures Places(Factory(s, succeeds), id) == Places(s, id) + One(succeeds && id == |s.runtimes|)
  {
    ArrivedAppend(s.arrivals, BuildArrived(None, s.running.work), id);
    hide OwnedTimes, ArrivedTimes, ClosingTimes, Times;
  }

  lemma SetUpKeepsPlaces(s: System, succeeds: bool, id: RuntimeId)
    requires s.running.Built?
    ensures Places(SetUp(s, succeeds), id) == Places(s, id)
  {
    ArrivedAppend(s.arrivals, BuildArrived(if succeeds then Some(s.running.runtime) else None, s.running.work), id);
    TimesConcat(s.closed, [s.running.runtime], id);
    TimesOne(s.running.runtime, id);
    hide OwnedTimes, ArrivedTimes, ClosingTimes, Times;
  }

  lemma FinishKeepsPlaces(s: System, succeeded: bool, id: RuntimeId)
    requires s.running.Busy? && !s.running.work.Build?
    ensures Places(Finish(s, succeeded), id) == Places(s, id)
  {
    ArrivedAppend(s.arrivals, SyncArrived(s.running.work.runtime, succeeded), id);
    TimesConcat(s.closed, [s.running.work.runtime], id);
    TimesOne(s.running.work.runtime, id);
    hide OwnedTimes, ArrivedTimes, ClosingTimes, Times;
  }

  lemma StepMovesRuntimes(s: System, e: Event, id: RuntimeId)
    requires Networks(s)
    ensures var next := Step(s, e);
      Places(next, id) == Places(s, id) + One(|next.runtimes| == |s.runtimes| + 1 && id == |s.runtimes|)
      && (|next.runtimes| == |s.runtimes| || |next.runtimes| == |s.runtimes| + 1)
  {
    hide Networks, Places, Arrive;
    match e {
      case Arriving => if s.arrivals != [] { ArriveKeepsPlaces(s, id); }
      case Taking => if s.running.Nothing? && s.queue != [] { TakeKeepsPlaces(s, id); }
      case FactoryDone(succeeds) => if s.running.Busy? && s.running.work.Build? { FactoryKeepsPlaces(s, succeeds, id); }
      case SetUpDone(succeeds) => if s.running.Built? { SetUpKeepsPlaces(s, succeeds, id); }
      case WorkDone(succeeded) => if s.running.Busy? && !s.running.work.Build? { FinishKeepsPlaces(s, succeeded, id); }
      case _ =>
        hide Step;
        CallKeepsPlaces(s, e, id);
    }
  }

  /** Each runtime that was created is in exactly one place. */
  ghost predicate OnePlaceEach(s: System) {
    forall id: RuntimeId :: Places(s, id) == One(id < |s.runtimes|)
  }

  lemma StepKeepsOnePlace(s: System, e: Event)
    requires Networks(s) && OnePlaceEach(s)
    ensures OnePlaceEach(Step(s, e))
  {
    hide Networks, Places, Step;
    forall id: RuntimeId
      ensures Places(Step(s, e), id) == One(id < |Step(s, e).runtimes|)
    {
      StepMovesRuntimes(s, e, id);
    }
  }

  // ---------------------------------------------------------------- no work after close

  /** The runtime has left preparation: it was owned at some time. */
  predicate Released(s: System, id: RuntimeId) {
    id < |s.runtimes| && InPreparation(s, id) == 0
  }

  predicate Open(s: System, id: RuntimeId) {
    Times(s.closed, id) == 0
  }

  /** A sync that is queued or running is on a runtime whose close comes later, if at all. */
  ghost predicate SyncsBeforeClose(s: System) {
    && (forall i, j | 0 <= i < j < |s.queue| && s.queue[i].CloseRuntime? :: s.queue[j] != Sync(s.queue[i].runtime))
    && (forall i | 0 <= i < |s.queue| && s.queue[i].Sync? ::
          s.running != Busy(CloseRuntime(s.queue[i].runtime)) && Open(s, s.queue[i].runtime) && Released(s, s.queue[i].runtime))
    && (s.running.Busy? && s.running.work.Sync? ==> Open(s, s.running.work.runtime))
  }

  lemma {:induction false} QueuedClose(queue: seq<Work>, i: nat)
    requires i < |queue| && queue[i].CloseRuntime?
    ensures ClosingTimes(queue, queue[i].runtime) > 0
  {
    if i > 0 {
      QueuedClose(queue[1..], i - 1);
    }
  }

  lemma OwnedIsReleased(s: System, id: RuntimeId)
    requires OnePlaceEach(s) && Owned(s.phase) == Some(id)
    ensures Released(s, id) && Open(s, id) && s.running != Busy(CloseRuntime(id)) && CloseRuntime(id) !in s.queue
  {
    assert Places(s, id) == One(id < |s.runtimes|);
    if CloseRuntime(id) in s.queue {
      var i :| 0 <= i < |s.queue| && s.queue[i] == CloseRuntime(id);
      QueuedClose(s.queue, i);
    }
    hide ArrivedTimes, Times;
  }

  /** Work that is submitted is a close, a build, or a sync on the owned runtime. */
  lemma SubmittedBeforeClose(s: System, next: System, work: Option<Work>)
    requires SyncsBeforeClose(s) && Submitted(s, next, work)
    requires work.Some? && work.value.Sync? ==> OnePlaceEach(s) && Owned(s.phase) == Some(work.value.runtime)
    ensures SyncsBeforeClose(next)
  {
    if work.Some? && work.value.Sync? {
      OwnedIsReleased(s, work.value.runtime);
    }
    hide ArrivedTimes, Times, OnePlaceEach;
  }

  lemma TakeBeforeClose(s: System)
    requires SyncsBeforeClose(s) && s.running.Nothing? && s.queue != []
    ensures SyncsBeforeClose(Take(s))
  {
    hide ArrivedTimes, Times;
  }

  lemma FactoryBeforeClose(s: System, succeeds: bool)
    requires SyncsBeforeClose(s) && s.running.Busy? && s.running.work.Build?
    ensures SyncsBeforeClose(Factory(s, succeeds))
  {
    forall id: RuntimeId | Released(s, id)
      ensures Released(Factory(s, succeeds), id)
    {
      ArrivedAppend(s.arrivals, BuildArrived(None, s.running.work), id);
    }
    hide ArrivedTimes, Times, Released;
  }

  lemma SetUpBeforeClose(s: System, succeeds: bool)
    requires SyncsBeforeClose(s) && s.running.Built?
    ensures SyncsBeforeClose(SetUp(s, succeeds))
  {
    forall id: RuntimeId | Released(s, id)
      ensures Released(SetUp(s, succeeds), id) && Open(SetUp(s, succeeds), id) == Open(s, id)
    {
      ArrivedAppend(s.arrivals, BuildArrived(if succeeds then Some(s.running.runtime) else None, s.running.work), id);
      TimesConcat(s.closed, [s.running.runtime], id);
      TimesOne(s.running.runtime, id);
    }
    hide ArrivedTimes, Times, Released, Open;
  }

  lemma FinishBeforeClose(s: System, succeeded: bool)
    requires SyncsBeforeClose(s) && s.running.Busy? && !s.running.work.Build?
    ensures SyncsBeforeClose(Finish(s, succeeded))
  {
    forall id: RuntimeId
      ensures Released(s, id) ==> Released(Finish(s, succeeded), id)
      ensures s.running != Busy(CloseRuntime(id)) ==> Open(Finish(s, succeeded), id) == Open(s, id)
    {
      ArrivedAppend(s.arrivals, SyncArrived(s.running.work.runtime, succeeded), id);
      TimesConcat(s.closed, [s.running.work.runtime], id);
      TimesOne(s.running.work.runtime, id);
    }
    hide ArrivedTimes, Times, Released, Open;
  }

  lemma NextArrivalBeforeClose(s: System)
    requires SyncsBeforeClose(s) && s.arrivals != []
    ensures SyncsBeforeClose(s.(arrivals := s.arrivals[1..]))
  {
    hide ArrivalTimes, Times;
  }

  lemma ArriveBeforeClose(s: System)
    requires SyncsBeforeClose(s) && Networks(s) && s.arrivals != []
    ensures SyncsBeforeClose(Arrive(s))
  {
    NextArrivalBeforeClose(s);
    var arrival := s.arrivals[0];
    var rest := s.(arrivals := s.arrivals[1..]);
    assert arrival.BuildArrived? ==> arrival.work.Build?;
    hide Networks, SyncsBeforeClose, FinishPreparation, FinishSwitch, FinishSync, OwnedTimes, OutcomeTimes;
    var next := Arrive(s);
    var work := None;
    if arrival.SyncArrived? {
      SyncedSubmits(rest, arrival.runtime, arrival.succeeded);
    } else if arrival.work.purpose.ForPrepare? {
      work := PreparationSubmits(rest, arrival.outcome, 0);
    } else {
      work := SwitchedSubmits(rest, arrival.outcome, arrival.work.network, arrival.work.purpose, 0);
    }
    hide Arrive;
    SubmittedBeforeClose(rest, next, work);
  }

  lemma StepKeepsSyncsBeforeClose(s: System, e: Event)
    requires SyncsBeforeClose(s) && OnePlaceEach(s) && Networks(s)
    ensures SyncsBeforeClose(Step(s, e))
  {
    hide Networks, OnePlaceEach, SyncsBeforeClose, Arrive;
    match e {
      case Arriving => if s.arrivals != [] { ArriveBeforeClose(s); }
      case Taking => if s.running.Nothing? && s.queue != [] { TakeBeforeClose(s); }
      case FactoryDone(succeeds) => if s.running.Busy? && s.running.work.Build? { FactoryBeforeClose(s, succeeds); }
      case SetUpDone(succeeds) => if s.running.Built? { SetUpBeforeClose(s, succeeds); }
      case WorkDone(succeeded) => if s.running.Busy? && !s.running.work.Build? { FinishBeforeClose(s, succeeded); }
      case _ =>
        var work := CallSubmits(s, e);
        hide Step;
        SubmittedBeforeClose(s, Step(s, e), work);
    }
  }

  // ---------------------------------------------------------------- every run

  ghost predicate Inv(s: System) {
    Orderly(s) && Networks(s) && OnePlaceEach(s) && SyncsBeforeClose(s)
  }

  lemma StepKeepsInv(s: System, e: Event)
    requires Inv(s)
    ensures Inv(Step(s, e))
  {
    hide Orderly, Networks, OnePlaceEach, SyncsBeforeClose, Step;
    StepIsOrderly(s, e);
    StepKeepsNetworks(s, e);
    StepKeepsOnePlace(s, e);
    StepKeepsSyncsBeforeClose(s, e);
  }

  lemma LaunchIsValid(network: Network)
    ensures Inv(Launch(network))
  {
  }

  lemma {:induction false} RunKeepsInv(s: System, events: seq<Event>)
    requires Inv(s)
    ensures Inv(Run(s, events))
    decreases |events|
  {
    hide Inv, Step;
    if events != [] {
      StepKeepsInv(s, events[0]);
      RunKeepsInv(Step(s, events[0]), events[1..]);
    }
  }

  /**
   * In every interleaving each runtime ever created is in exactly one place: owned by the phase,
   * still in preparation, or handed to close, and there once.
   */
  lemma RuntimesHaveOnePlace(network: Network, events: seq<Event>, id: RuntimeId)
    ensures var s := Run(Launch(network), events);
      One(Owned(s.phase) == Some(id)) + InPreparation(s, id) + HandedToClose(s, id) == One(id < |s.runtimes|)
  {
    hide Launch, Run, InPreparation, HandedToClose;
    LaunchIsValid(network);
    RunKeepsInv(Launch(network), events);
    assert Places(Run(Launch(network), events), id) == One(id < |Run(Launch(network), events).runtimes|);
  }

  /** The owned runtime always belongs to the current network. */
  lemma OwnedNetworkIsCurrent(network: Network, events: seq<Event>)
    ensures var s := Run(Launch(network), events);
      Owned(s.phase).Some? ==> IsFor(s, Owned(s.phase).value, s.network)
  {
    hide Launch, Run;
    LaunchIsValid(network);
    RunKeepsInv(Launch(network), events);
  }

  /** A synchronisation never runs on a runtime that has been closed. */
  lemma NoUseAfterClose(network: Network, events: seq<Event>)
    ensures var s := Run(Launch(network), events);
      s.running.Busy? && s.running.work.Sync? ==> s.running.work.runtime !in s.closed
  {
    hide Launch, Run;
    LaunchIsValid(network);
    RunKeepsInv(Launch(network), events);
    var s := Run(Launch(network), events);
    if s.running.Busy? && s.running.work.Sync? {
      NeverListed(s.closed, s.running.work.runtime);
    }
  }

  lemma {:induction false} NeverListed(ids: seq<nat>, id: nat)
    requires Times(ids, id) == 0
    ensures id !in ids
  {
    if ids != [] {
      NeverListed(ids[1..], id);
    }
  }

  /** When the background is at rest, every runtime but the owned one has been closed exactly once. */
  lemma RestIsClosed(network: Network, events: seq<Event>, id: RuntimeId)
    requires var s := Run(Launch(network), events); s.queue == [] && s.running.Nothing? && s.arrivals == []
    ensures var s := Run(Launch(network), events); Times(s.closed, id) == One(id < |s.runtimes| && Owned(s.phase) != Some(id))
  {
    hide Launch, Run;
    RuntimesHaveOnePlace(network, events, id);
  }
}
