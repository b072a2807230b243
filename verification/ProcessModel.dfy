/**
 * The owner of the native runtime on iOS (BrowserProcess.swift): preparation, network switch,
 * synchronisation and close on the main actor, against one serial background queue whose results
 * come back to the main actor in order.
 */
module ProcessModel {
  import opened Prelude

  datatype Network = Mainnet | Testnet | Regtest

  /** Runtimes and callbacks are numbered in the order in which they appear. */
  type RuntimeId = nat
  type Callback = nat

  datatype Phase =
    | Idle
    | Preparing(callbacks: seq<Callback>)
    | Ready(runtime: RuntimeId)
    | Switching(runtime: RuntimeId)
    | Failed
    | Closed

  datatype Purpose = ForPrepare | ForSwitch(from: RuntimeId, generation: nat, completion: Callback)

  datatype Work = Build(network: Network, purpose: Purpose) | Sync(runtime: RuntimeId) | CloseRuntime(runtime: RuntimeId)

  /** The block that the serial queue is executing; `Built` has a runtime that is not set up yet. */
  datatype Running = Nothing | Busy(work: Work) | Built(runtime: RuntimeId, work: Work)

  /** A result on its way to the main actor. */
  datatype Arrival = BuildArrived(outcome: Option<RuntimeId>, work: Work) | SyncArrived(runtime: RuntimeId, succeeded: bool)

  datatype Reply = Environment(runtime: RuntimeId) | Refused | SyncResult(runtime: RuntimeId, succeeded: bool)

  datatype Answer = Answer(callback: Callback, reply: Reply)

  datatype System = System(
    phase: Phase,
    network: Network,
    switchInFlight: bool,
    switchGeneration: nat,
    foreground: bool,
    scheduleGeneration: nat,
    syncInFlight: bool,
    syncCallbacks: seq<Callback>,
    queue: seq<Work>,
    running: Running,
    arrivals: seq<Arrival>,
    runtimes: seq<Network>,      // the network each runtime was created for
    closed: seq<RuntimeId>,
    calls: nat,
    answers: seq<Answer>,
    dropped: seq<Callback>)      // callbacks that nobody will ever call

  function Launch(network: Network): System {
    System(Idle, network, false, 0, false, 0, false, [], [], Nothing, [], [], [], 0, [], [])
  }

  // ---------------------------------------------------------------- the main actor

  function Answered(s: System, callback: Callback, reply: Reply): System {
    s.(answers := s.answers + [Answer(callback, reply)])
  }

  function AnswersTo(callbacks: seq<Callback>, reply: Reply): seq<Answer> {
    seq(|callbacks|, i requires 0 <= i < |callbacks| => Answer(callbacks[i], reply))
  }

  function Submit(s: System, work: Work): System {
    s.(queue := s.queue + [work])
  }

  function FinishPreparation(s: System, outcome: Option<RuntimeId>): System {
    if !s.phase.Preparing? then (if outcome.Some? then Submit(s, CloseRuntime(outcome.value)) else s)
    else if outcome.Some? then
      s.(phase := Ready(outcome.value),
         answers := s.answers + AnswersTo(s.phase.callbacks, Environment(outcome.value)),
         scheduleGeneration := s.scheduleGeneration + if s.foreground then 1 else 0)
    else s.(phase := Failed, answers := s.answers + AnswersTo(s.phase.callbacks, Refused))
  }

  /** `directory` says whether the data directory could be made. */
  function PrepareWith(s: System, callback: Callback, directory: bool): System {
    match s.phase
    case Ready(runtime) => Answered(s, callback, Environment(runtime))
    case Closed => Answered(s, callback, Refused)
    case Preparing(callbacks) => s.(phase := Preparing(callbacks + [callback]))
    case Switching(_) => Answered(s, callback, Refused)
    case _ =>
      var preparing := s.(phase := Preparing([callback]));
      if directory then Submit(preparing, Build(s.network, ForPrepare)) else FinishPreparation(preparing, None)
  }

  function Prepare(s: System, directory: bool): System {
    PrepareWith(s.(calls := s.calls + 1), s.calls, directory)
  }

  function SuspendForegroundSync(s: System): System {
    s.(foreground := false, scheduleGeneration := s.scheduleGeneration + 1)
  }

  function SwitchNetwork(s: System, network: Network, directory: bool): System {
    var callback := s.calls;
    var called := s.(calls := s.calls + 1);
    if s.switchInFlight then Answered(called, callback, Refused)
    else if network == s.network then
      (if s.phase.Ready? then Answered(called, callback, Environment(s.phase.runtime)) else PrepareWith(called, callback, directory))
    else if !s.phase.Ready? || !directory then Answered(called, callback, Refused)
    else
      Submit(SuspendForegroundSync(called).(phase := Switching(s.phase.runtime), switchInFlight := true,
                                            switchGeneration := s.switchGeneration + 1),
             Build(network, ForSwitch(s.phase.runtime, s.switchGeneration + 1, callback)))
  }

  function FinishSwitch(s: System, outcome: Option<RuntimeId>, network: Network, purpose: Purpose): System
    requires purpose.ForSwitch?
  {
    if !s.switchInFlight || purpose.generation != s.switchGeneration || s.phase != Switching(purpose.from) then
      Answered(if outcome.Some? then Submit(s, CloseRuntime(outcome.value)) else s, purpose.completion, Refused)
    else
      var finished := s.(switchInFlight := false, scheduleGeneration := s.scheduleGeneration + if s.foreground then 1 else 0);
      if outcome.Some? then
        Answered(Submit(finished.(phase := Ready(outcome.value), network := network), CloseRuntime(purpose.from)),
               purpose.completion, Environment(outcome.value))
      else Answered(finished.(phase := Ready(purpose.from)), purpose.completion, Refused)
  }

  function StartSyncIfNeeded(s: System, runtime: RuntimeId): System {
    if s.syncInFlight then s else Submit(s.(syncInFlight := true), Sync(runtime))
  }

  function SyncNow(s: System): System {
    var called := s.(calls := s.calls + 1);
    if !s.phase.Ready? then Answered(called, s.calls, Refused)
    else
      StartSyncIfNeeded(called.(scheduleGeneration := s.scheduleGeneration + 1,
                                syncCallbacks := s.syncCallbacks + [s.calls]), s.phase.runtime)
  }

  function ResumeForegroundSync(s: System): System {
    s.(foreground := true, scheduleGeneration := s.scheduleGeneration + 1)
  }

  function RunScheduledSync(s: System, generation: nat): System {
    if generation != s.scheduleGeneration || !s.foreground || !s.phase.Ready? then s
    else StartSyncIfNeeded(s, s.phase.runtime)
  }

  function FinishSync(s: System, runtime: RuntimeId, succeeded: bool): System {
    s.(syncInFlight := false, syncCallbacks := [],
       answers := s.answers + AnswersTo(s.syncCallbacks, SyncResult(runtime, succeeded)),
       scheduleGeneration := s.scheduleGeneration + if s.foreground then 1 else 0)
  }

  function Close(s: System): System {
    var closed := SuspendForegroundSync(s).(
      switchInFlight := false, switchGeneration := s.switchGeneration + 1, phase := Closed, syncCallbacks := [],
      answers := s.answers + AnswersTo(s.syncCallbacks, Refused),
      dropped := s.dropped + if s.phase.Preparing? then s.phase.callbacks else []);
    if s.phase.Ready? || s.phase.Switching? then Submit(closed, CloseRuntime(s.phase.runtime)) else closed
  }

  function Arrive(s: System): System
    requires s.arrivals != []
  {
    var rest := s.(arrivals := s.arrivals[1..]);
    match s.arrivals[0]
    case SyncArrived(runtime, succeeded) => FinishSync(rest, runtime, succeeded)
    case BuildArrived(outcome, work) =>
      if !work.Build? then rest
      else if work.purpose.ForPrepare? then FinishPreparation(rest, outcome)
      else FinishSwitch(rest, outcome, work.network, work.purpose)
  }

  // ---------------------------------------------------------------- the serial queue

  function Take(s: System): System
    requires s.running.Nothing? && s.queue != []
  {
    s.(running := Busy(s.queue[0]), queue := s.queue[1..])
  }

  /** The runtime factory returns or throws. */
  function Factory(s: System, succeeds: bool): System
    requires s.running.Busy? && s.running.work.Build?
  {
    if succeeds then s.(running := Built(|s.runtimes|, s.running.work), runtimes := s.runtimes + [s.running.work.network])
    else s.(running := Nothing, arrivals := s.arrivals + [BuildArrived(None, s.running.work)])
  }

  /** Policy and snapshot are installed, or the new runtime is closed on the spot. */
  function SetUp(s: System, succeeds: bool): System
    requires s.running.Built?
  {
    if succeeds then
      s.(running := Nothing, arrivals := s.arrivals + [BuildArrived(Some(s.running.runtime), s.running.work)])
    else
      s.(running := Nothing, closed := s.closed + [s.running.runtime],
         arrivals := s.arrivals + [BuildArrived(None, s.running.work)])
  }

  function Finish(s: System, succeeded: bool): System
    requires s.running.Busy? && !s.running.work.Build?
  {
    match s.running.work
    case Sync(runtime) => s.(running := Nothing, arrivals := s.arrivals + [SyncArrived(runtime, succeeded)])
    case CloseRuntime(runtime) => s.(running := Nothing, closed := s.closed + [runtime])
  }

  // ---------------------------------------------------------------- steps

  datatype Event =
    | Preparation(directory: bool)
    | NetworkChange(network: Network, directory: bool)
    | SyncRequest
    | ForegroundResume
    | ForegroundSuspend
    | ScheduledSync(generation: nat)
    | Shutdown
    | Arriving
    | Taking
    | FactoryDone(succeeds: bool)
    | SetUpDone(succeeds: bool)
    | WorkDone(succeeded: bool)

  /** An event that is not possible in a state leaves it alone. */
  function Step(s: System, e: Event): System {
    match e
    case Preparation(directory) => Prepare(s, directory)
    case NetworkChange(network, directory) => SwitchNetwork(s, network, directory)
    case SyncRequest => SyncNow(s)
    case ForegroundResume => ResumeForegroundSync(s)
    case ForegroundSuspend => SuspendForegroundSync(s)
    case ScheduledSync(generation) => RunScheduledSync(s, generation)
    case Shutdown => Close(s)
    case Arriving => if s.arrivals != [] then Arrive(s) else s
    case Taking => if s.running.Nothing? && s.queue != [] then Take(s) else s
    case FactoryDone(succeeds) => if s.running.Busy? && s.running.work.Build? then Factory(s, succeeds) else s
    case SetUpDone(succeeds) => if s.running.Built? then SetUp(s, succeeds) else s
    case WorkDone(succeeded) => if s.running.Busy? && !s.running.work.Build? then Finish(s, succeeded) else s
  }

  function Run(s: System, events: seq<Event>): System
    decreases |events|
  {
    if events == [] then s else Run(Step(s, events[0]), events[1..])
  }

  // ---------------------------------------------------------------- the invariant: what is in flight

  /** The builds and syncs among some work, in order. */
  function JobsIn(work: seq<Work>): seq<Work> {
    if work == [] then [] else (if work[0].CloseRuntime? then [] else [work[0]]) + JobsIn(work[1..])
  }

  function ArrivedJobs(arrivals: seq<Arrival>): seq<Work> {
    if arrivals == [] then []
    else [if arrivals[0].BuildArrived? then arrivals[0].work else Sync(arrivals[0].runtime)] + ArrivedJobs(arrivals[1..])
  }

  function RunningJob(running: Running): seq<Work> {
    if running.Nothing? || running.work.CloseRuntime? then [] else [running.work]
  }

  /** Everything whose result has not been handled yet, in the order in which it will be. */
  function Jobs(s: System): seq<Work> {
    ArrivedJobs(s.arrivals) + RunningJob(s.running) + JobsIn(s.queue)
  }

  /** What is in flight follows from the phase: at most one sync, and behind it at most one build. */
  ghost predicate Scheduled(s: System) {
    var jobs := Jobs(s);
    match s.phase
    case Idle => jobs == []
    case Failed => jobs == []
    case Preparing(_) => jobs == [Build(s.network, ForPrepare)]
    case Ready(runtime) => jobs == if s.syncInFlight then [Sync(runtime)] else []
    case Switching(runtime) =>
      var syncs := if s.syncInFlight then [Sync(runtime)] else [];
      && |jobs| == |syncs| + 1 && jobs[..|syncs|] == syncs
      && jobs[|syncs|].Build? && jobs[|syncs|].purpose.ForSwitch?
      && jobs[|syncs|].purpose.from == runtime && jobs[|syncs|].purpose.generation == s.switchGeneration
    case Closed =>
      && (forall i | 0 <= i < |jobs| :: jobs[i].Build? || (i == 0 && s.syncInFlight))
      && (s.syncInFlight ==> jobs != [] && jobs[0].Sync?)
  }

  ghost predicate Flags(s: System) {
    && (s.switchInFlight <==> s.phase.Switching?)
    && (s.syncCallbacks != [] ==> s.syncInFlight)
    && (!s.phase.Ready? && !s.phase.Switching? ==> s.syncCallbacks == [])
    && (s.phase.Idle? || s.phase.Failed? || s.phase.Preparing? ==> !s.syncInFlight)
  }

  ghost predicate IsFor(s: System, runtime: RuntimeId, network: Network) {
    runtime < |s.runtimes| && s.runtimes[runtime] == network
  }

  /** Every runtime belongs to the network it was built for; the owned one to the current network. */
  ghost predicate Networks(s: System) {
    && (s.phase.Ready? || s.phase.Switching? ==> IsFor(s, s.phase.runtime, s.network))
    && (s.running.Built? ==> s.running.work.Build? && IsFor(s, s.running.runtime, s.running.work.network))
    && (forall i | 0 <= i < |s.arrivals| && s.arrivals[i].BuildArrived? ::
          s.arrivals[i].work.Build?
          && (s.arrivals[i].outcome.Some? ==> IsFor(s, s.arrivals[i].outcome.value, s.arrivals[i].work.network)))
  }

  // ---------------------------------------------------------------- what is in flight, step by step

  lemma {:induction false} JobsAppend(queue: seq<Work>, work: Work)
    ensures JobsIn(queue + [work]) == JobsIn(queue) + if work.CloseRuntime? then [] else [work]
  {
    if queue == [] {
      assert queue + [work] == [work];
    } else {
      JobsAppend(queue[1..], work);
      assert (queue + [work])[1..] == queue[1..] + [work];
    }
  }

  lemma {:induction false} ArrivedAppend(arrivals: seq<Arrival>, arrival: Arrival)
    ensures ArrivedJobs(arrivals + [arrival])
      == ArrivedJobs(arrivals) + [if arrival.BuildArrived? then arrival.work else Sync(arrival.runtime)]
  {
    if arrivals == [] {
      assert arrivals + [arrival] == [arrival];
    } else {
      ArrivedAppend(arrivals[1..], arrival);
      assert (arrivals + [arrival])[1..] == arrivals[1..] + [arrival];
    }
  }

  lemma SameJobs(s: System, next: System)
    requires next.arrivals == s.arrivals && next.running == s.running && next.queue == s.queue
    ensures Jobs(next) == Jobs(s)
  {
  }

  lemma OneMoreJob(s: System, next: System, work: Work)
    requires next.arrivals == s.arrivals && next.running == s.running && next.queue == s.queue + [work]
    ensures Jobs(next) == Jobs(s) + if work.CloseRuntime? then [] else [work]
  {
    JobsAppend(s.queue, work);
  }

  /** The queue works through the jobs without changing what is in flight. */
  lemma TakeKeepsJobs(s: System)
    requires s.running.Nothing? && s.queue != []
    ensures Jobs(Take(s)) == Jobs(s)
  {
  }

  lemma FactoryKeepsJobs(s: System, succeeds: bool)
    requires s.running.Busy? && s.running.work.Build?
    ensures Jobs(Factory(s, succeeds)) == Jobs(s)
  {
    ArrivedAppend(s.arrivals, BuildArrived(None, s.running.work));
    hide ArrivedJobs, JobsIn;
  }

  lemma SetUpKeepsJobs(s: System, succeeds: bool)
    requires s.running.Built? && s.running.work.Build?
    ensures Jobs(SetUp(s, succeeds)) == Jobs(s)
  {
    ArrivedAppend(s.arrivals, BuildArrived(if succeeds then Some(s.running.runtime) else None, s.running.work));
    hide ArrivedJobs, JobsIn;
  }

  lemma FinishKeepsJobs(s: System, succeeded: bool)
    requires s.running.Busy? && !s.running.work.Build?
    ensures Jobs(Finish(s, succeeded)) == Jobs(s)
  {
    ArrivedAppend(s.arrivals, SyncArrived(s.running.work.runtime, succeeded));
    hide ArrivedJobs, JobsIn;
  }

  /** Handling an arrival takes the first job out. */
  lemma ArrivalIsFirstJob(s: System)
    requires s.arrivals != []
    ensures Jobs(s) != [] && Jobs(s.(arrivals := s.arrivals[1..])) == Jobs(s)[1..]
    ensures Jobs(s)[0] == if s.arrivals[0].BuildArrived? then s.arrivals[0].work else Sync(s.arrivals[0].runtime)
  {
  }

  ghost predicate Orderly(s: System) {
    Scheduled(s) && Flags(s)
  }

  lemma PrepareIsOrderly(s: System, callback: Callback, directory: bool)
    requires Orderly(s)
    ensures Orderly(PrepareWith(s, callback, directory))
  {
    hide Jobs, AnswersTo;
    var next := PrepareWith(s, callback, directory);
    if directory && (s.phase.Idle? || s.phase.Failed?) {
      OneMoreJob(s, next, Build(s.network, ForPrepare));
    } else {
      SameJobs(s, next);
    }
  }

  lemma SwitchIsOrderly(s: System, network: Network, directory: bool)
    requires Orderly(s)
    ensures Orderly(SwitchNetwork(s, network, directory))
  {
    hide Jobs, PrepareWith;
    var callback := s.calls;
    var called := s.(calls := s.calls + 1);
    var next := SwitchNetwork(s, network, directory);
    SameJobs(s, called);
    if !s.switchInFlight && network == s.network && !s.phase.Ready? {
      PrepareIsOrderly(called, callback, directory);
    } else if !s.switchInFlight && s.phase.Ready? && directory && network != s.network {
      OneMoreJob(s, next, Build(network, ForSwitch(s.phase.runtime, s.switchGeneration + 1, callback)));
    } else {
      SameJobs(s, next);
    }
  }

  lemma SyncIsOrderly(s: System)
    requires Orderly(s)
    ensures Orderly(SyncNow(s))
  {
    hide Jobs;
    if s.phase.Ready? && !s.syncInFlight {
      OneMoreJob(s, SyncNow(s), Sync(s.phase.runtime));
    } else {
      SameJobs(s, SyncNow(s));
    }
  }

  lemma ScheduleIsOrderly(s: System, generation: nat)
    requires Orderly(s)
    ensures Orderly(RunScheduledSync(s, generation)) && Orderly(ResumeForegroundSync(s)) && Orderly(SuspendForegroundSync(s))
  {
    hide Jobs;
    SameJobs(s, ResumeForegroundSync(s));
    SameJobs(s, SuspendForegroundSync(s));
    var next := RunScheduledSync(s, generation);
    if next != s {
      OneMoreJob(s, next, Sync(s.phase.runtime));
    }
  }

  lemma CloseIsOrderly(s: System)
    requires Orderly(s)
    ensures Orderly(Close(s))
  {
    hide Jobs, AnswersTo;
    if s.phase.Ready? || s.phase.Switching? {
      OneMoreJob(s, Close(s), CloseRuntime(s.phase.runtime));
    } else {
      SameJobs(s, Close(s));
    }
  }

  lemma FinishPreparationIsOrderly(s: System, outcome: Option<RuntimeId>)
    requires Flags(s) && if s.phase.Preparing? then Jobs(s) == [] else Scheduled(s)
    ensures Orderly(FinishPreparation(s, outcome))
  {
    hide Jobs, AnswersTo;
    var next := FinishPreparation(s, outcome);
    if outcome.Some? && !s.phase.Preparing? {
      OneMoreJob(s, next, CloseRuntime(outcome.value));
    } else {
      SameJobs(s, next);
    }
  }

  /** The result of a switch is never stale unless the process was closed. */
  predicate Current(s: System, purpose: Purpose) {
    s.phase.Switching? && purpose.ForSwitch? && purpose.from == s.phase.runtime && purpose.generation == s.switchGeneration
  }

  lemma FinishSwitchIsOrderly(s: System, outcome: Option<RuntimeId>, network: Network, purpose: Purpose)
    requires purpose.ForSwitch? && Flags(s)
    requires if s.phase.Switching? then Current(s, purpose) && Jobs(s) == [] && !s.syncInFlight else Scheduled(s)
    ensures Orderly(FinishSwitch(s, outcome, network, purpose))
  {
    hide Jobs;
    var next := FinishSwitch(s, outcome, network, purpose);
    if outcome.None? {
      SameJobs(s, next);
    } else if s.phase.Switching? {
      OneMoreJob(s, next, CloseRuntime(purpose.from));
    } else {
      OneMoreJob(s, next, CloseRuntime(outcome.value));
    }
  }

  lemma FinishSyncIsOrderly(s: System, runtime: RuntimeId, succeeded: bool)
    requires s.syncInFlight && Scheduled(s.(syncInFlight := false)) && Flags(s)
    ensures Orderly(FinishSync(s, runtime, succeeded))
  {
    hide Jobs, AnswersTo;
    SameJobs(s, s.(syncInFlight := false));
    SameJobs(s, FinishSync(s, runtime, succeeded));
  }

  lemma ArriveIsOrderly(s: System)
    requires Orderly(s) && Networks(s) && s.arrivals != []
    ensures Orderly(Arrive(s))
  {
    ArrivalIsFirstJob(s);
    hide Jobs;
    var arrival := s.arrivals[0];
    var rest := s.(arrivals := s.arrivals[1..]);
    SameJobs(rest, rest.(syncInFlight := false));
    if arrival.SyncArrived? {
      FinishSyncIsOrderly(rest, arrival.runtime, arrival.succeeded);
    } else if arrival.work.purpose.ForPrepare? {
      FinishPreparationIsOrderly(rest, arrival.outcome);
    } else {
      FinishSwitchIsOrderly(rest, arrival.outcome, arrival.work.network, arrival.work.purpose);
    }
  }

  lemma QueueIsOrderly(s: System, e: Event)
    requires Orderly(s) && Networks(s) && (e.Taking? || e.FactoryDone? || e.SetUpDone? || e.WorkDone?)
    ensures Orderly(Step(s, e))
  {
    hide Orderly, Jobs;
    match e {
      case Taking => if s.running.Nothing? && s.queue != [] { TakeKeepsJobs(s); StillOrderly(s, Take(s)); }
      case FactoryDone(succeeds) =>
        if s.running.Busy? && s.running.work.Build? { FactoryKeepsJobs(s, succeeds); StillOrderly(s, Factory(s, succeeds)); }
      case SetUpDone(succeeds) => if s.running.Built? { SetUpKeepsJobs(s, succeeds); StillOrderly(s, SetUp(s, succeeds)); }
      case WorkDone(succeeded) =>
        if s.running.Busy? && !s.running.work.Build? { FinishKeepsJobs(s, succeeded); StillOrderly(s, Finish(s, succeeded)); }
    }
  }

  lemma StepIsOrderly(s: System, e: Event)
    requires Orderly(s) && Networks(s)
    ensures Orderly(Step(s, e))
  {
    hide Orderly, Networks, Jobs, PrepareWith, SwitchNetwork, SyncNow, RunScheduledSync, Close, Arrive;
    match e {
      case Preparation(directory) =>
        StillOrderly(s, s.(calls := s.calls + 1));
        PrepareIsOrderly(s.(calls := s.calls + 1), s.calls, directory);
      case NetworkChange(network, directory) => SwitchIsOrderly(s, network, directory);
      case SyncRequest => SyncIsOrderly(s);
      case ForegroundResume => ScheduleIsOrderly(s, 0);
      case ForegroundSuspend => ScheduleIsOrderly(s, 0);
      case ScheduledSync(generation) => ScheduleIsOrderly(s, generation);
      case Shutdown => CloseIsOrderly(s);
      case Arriving => if s.arrivals != [] { ArriveIsOrderly(s); }
      case _ => QueueIsOrderly(s, e);
    }
  }

  lemma StillOrderly(s: System, next: System)
    requires Orderly(s) && next.phase == s.phase && next.network == s.network
    requires next.syncInFlight == s.syncInFlight && next.syncCallbacks == s.syncCallbacks
    requires next.switchInFlight == s.switchInFlight && next.switchGeneration == s.switchGeneration
    requires Jobs(next) == Jobs(s) || (next.arrivals == s.arrivals && next.running == s.running && next.queue == s.queue)
    ensures Orderly(next)
  {
    if next.arrivals == s.arrivals && next.running == s.running && next.queue == s.queue {
      SameJobs(s, next);
    }
    hide Jobs;
  }

  // ---------------------------------------------------------------- networks

  function Owned(phase: Phase): Option<RuntimeId> {
    if phase.Ready? || phase.Switching? then Some(phase.runtime) else None
  }

  /** The call keeps the owned runtime or gives it up, and starts no work. */
  predicate KeepsOwner(s: System, next: System) {
    && next.network == s.network && next.runtimes == s.runtimes
    && next.running == s.running && next.arrivals == s.arrivals
    && (Owned(next.phase) == Owned(s.phase) || Owned(next.phase).None?)
  }

  lemma KeptNetworks(s: System, next: System)
    requires Networks(s) && KeepsOwner(s, next)
    ensures Networks(next)
  {
  }

  lemma NotPreparedKeepsOwner(s: System)
    requires s.phase.Preparing?
    ensures KeepsOwner(s, FinishPreparation(s, None))
  {
    hide AnswersTo;
  }

  lemma PrepareKeepsOwner(s: System, callback: Callback, directory: bool)
    ensures KeepsOwner(s, PrepareWith(s, callback, directory))
  {
    hide FinishPreparation;
    if (s.phase.Idle? || s.phase.Failed?) && !directory {
      NotPreparedKeepsOwner(s.(phase := Preparing([callback])));
    }
  }

  lemma SwitchKeepsOwner(s: System, network: Network, directory: bool)
    ensures KeepsOwner(s, SwitchNetwork(s, network, directory))
  {
    hide PrepareWith;
    if !s.switchInFlight && network == s.network && !s.phase.Ready? {
      PrepareKeepsOwner(s.(calls := s.calls + 1), s.calls, directory);
    }
  }

  lemma CallsKeepOwner(s: System, e: Event)
    requires !e.Arriving? && !e.Taking? && !e.FactoryDone? && !e.SetUpDone? && !e.WorkDone?
    ensures KeepsOwner(s, Step(s, e))
  {
    hide AnswersTo, PrepareWith, SwitchNetwork;
    match e {
      case Preparation(directory) => PrepareKeepsOwner(s.(calls := s.calls + 1), s.calls, directory);
      case NetworkChange(network, directory) => SwitchKeepsOwner(s, network, directory);
      case Shutdown => assert KeepsOwner(s, Close(s));
      case SyncRequest => assert KeepsOwner(s, SyncNow(s));
      case _ => hide Close, SyncNow;
    }
  }

  lemma NewOwner(s: System, next: System)
    requires Networks(s) && next.runtimes == s.runtimes && next.running == s.running && next.arrivals == s.arrivals
    requires Owned(next.phase).Some? ==> IsFor(s, Owned(next.phase).value, next.network)
    ensures Networks(next)
  {
  }

  lemma FinishPreparationKeepsNetworks(s: System, outcome: Option<RuntimeId>)
    requires Networks(s) && (s.phase.Preparing? && outcome.Some? ==> IsFor(s, outcome.value, s.network))
    ensures Networks(FinishPreparation(s, outcome))
  {
    assert Owned(s.phase).Some? ==> IsFor(s, Owned(s.phase).value, s.network);
    hide Networks, IsFor, AnswersTo;
    NewOwner(s, FinishPreparation(s, outcome));
  }

  lemma FinishSwitchKeepsNetworks(s: System, outcome: Option<RuntimeId>, network: Network, purpose: Purpose)
    requires Networks(s) && purpose.ForSwitch? && (outcome.Some? ==> IsFor(s, outcome.value, network))
    ensures Networks(FinishSwitch(s, outcome, network, purpose))
  {
    assert Owned(s.phase).Some? ==> IsFor(s, Owned(s.phase).value, s.network);
    hide Networks, IsFor;
    NewOwner(s, FinishSwitch(s, outcome, network, purpose));
  }

  lemma NextArrival(s: System)
    requires Networks(s) && s.arrivals != []
    ensures Networks(s.(arrivals := s.arrivals[1..]))
    ensures s.arrivals[0].BuildArrived? ==> s.arrivals[0].work.Build?
    ensures s.arrivals[0].BuildArrived? && s.arrivals[0].outcome.Some? ==>
      IsFor(s, s.arrivals[0].outcome.value, s.arrivals[0].work.network)
  {
    hide IsFor;
    var rest := s.(arrivals := s.arrivals[1..]);
    assert forall runtime, network :: IsFor(rest, runtime, network) == IsFor(s, runtime, network) by { SameRuntimes(s, rest); }
  }

  lemma SameRuntimes(s: System, next: System)
    requires s.runtimes <= next.runtimes
    ensures forall runtime, network | IsFor(s, runtime, network) :: IsFor(next, runtime, network)
    ensures s.runtimes == next.runtimes ==> forall runtime, network :: IsFor(next, runtime, network) == IsFor(s, runtime, network)
  {
  }

  lemma ArriveKeepsNetworks(s: System)
    requires Networks(s) && Orderly(s) && s.arrivals != []
    ensures Networks(Arrive(s))
  {
    ArrivalIsFirstJob(s);
    NextArrival(s);
    var arrival := s.arrivals[0];
    var rest := s.(arrivals := s.arrivals[1..]);
    SameRuntimes(s, rest);
    hide Jobs, Networks, IsFor, FinishPreparation, FinishSwitch;
    if arrival.SyncArrived? {
      KeptNetworks(rest, FinishSync(rest, arrival.runtime, arrival.succeeded));
    } else if arrival.work.purpose.ForPrepare? {
      FinishPreparationKeepsNetworks(rest, arrival.outcome);
    } else {
      FinishSwitchKeepsNetworks(rest, arrival.outcome, arrival.work.network, arrival.work.purpose);
    }
  }

  lemma FactoryKeepsNetworks(s: System, succeeds: bool)
    requires Networks(s) && s.running.Busy? && s.running.work.Build?
    ensures Networks(Factory(s, succeeds))
  {
    var next := Factory(s, succeeds);
    SameRuntimes(s, next);
    if succeeds {
      assert IsFor(next, next.running.runtime, next.running.work.network);
    }
    hide IsFor;
  }

  lemma SetUpKeepsNetworks(s: System, succeeds: bool)
    requires Networks(s) && s.running.Built?
    ensures Networks(SetUp(s, succeeds))
  {
    SameRuntimes(s, SetUp(s, succeeds));
    hide IsFor;
  }

  lemma FinishKeepsNetworks(s: System, succeeded: bool)
    requires Networks(s) && s.running.Busy? && !s.running.work.Build?
    ensures Networks(Finish(s, succeeded))
  {
    SameRuntimes(s, Finish(s, succeeded));
    hide IsFor;
  }

  lemma QueueKeepsNetworks(s: System, e: Event)
    requires Networks(s) && (e.Taking? || e.FactoryDone? || e.SetUpDone? || e.WorkDone?)
    ensures Networks(Step(s, e))
  {
    match e {
      case Taking => SameRuntimes(s, Step(s, e)); hide IsFor;
      case FactoryDone(succeeds) =>
        hide Networks;
        if s.running.Busy? && s.running.work.Build? { FactoryKeepsNetworks(s, succeeds); }
      case SetUpDone(succeeds) =>
        hide Networks;
        if s.running.Built? { SetUpKeepsNetworks(s, succeeds); }
      case WorkDone(succeeded) =>
        hide Networks;
        if s.running.Busy? && !s.running.work.Build? { FinishKeepsNetworks(s, succeeded); }
    }
  }

  lemma StepKeepsNetworks(s: System, e: Event)
    requires Networks(s) && Orderly(s)
    ensures Networks(Step(s, e))
  {
    hide Networks, Orderly, KeepsOwner, Arrive;
    if e.Arriving? {
      if s.arrivals != [] {
        ArriveKeepsNetworks(s);
      }
    } else if e.Taking? || e.FactoryDone? || e.SetUpDone? || e.WorkDone? {
      QueueKeepsNetworks(s, e);
    } else {
      CallsKeepOwner(s, e);
      KeptNetworks(s, Step(s, e));
    }
  }
}
