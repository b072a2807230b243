/**
 * What the callbacks of the browser process are told, and that whatever was asked for comes to an
 * end (BrowserProcess.swift).
 */
module ProcessReplies {
  import opened Prelude
  import opened ProcessModel
  import opened ProcessLedger

  // ---------------------------------------------------------------- every reply has its reason

  /**
   * An environment is the one that is ready, right after the reply; a sync result is the one that
   * has arrived, from the owned runtime; and a refusal has one of a few reasons.
   */
  ghost predicate Justified(s: System, e: Event, reply: Reply) {
    match reply
    case Environment(runtime) => Step(s, e).phase == Ready(runtime)
    case SyncResult(runtime, succeeded) =>
      e.Arriving? && s.arrivals != [] && s.arrivals[0] == SyncArrived(runtime, succeeded) && Owned(s.phase) == Some(runtime)
    case Refused => Refusable(s, e)
  }

  ghost predicate Refusable(s: System, e: Event) {
    match e
    case Preparation(directory) => CannotPrepare(s, directory)
    case NetworkChange(network, directory) =>
      s.switchInFlight || (if network == s.network then CannotPrepare(s, directory) else !s.phase.Ready? || !directory)
    case SyncRequest => !s.phase.Ready?
    case Shutdown => true
    case Arriving =>
      && s.arrivals != [] && s.arrivals[0].BuildArrived?
      && (s.arrivals[0].outcome.None? || s.phase.Closed?)
    case _ => false
  }

  /** Closed, in the middle of a switch, or to be built without a directory to build it in. */
  predicate CannotPrepare(s: System, directory: bool) {
    s.phase.Closed? || s.phase.Switching? || ((s.phase.Idle? || s.phase.Failed?) && !directory)
  }

  ghost predicate NewAnswersJustified(s: System, e: Event) {
    var before, after := s.answers, Step(s, e).answers;
    && |before| <= |after| && after[..|before|] == before
    && forall i | |before| <= i < |after| :: Justified(s, e, after[i].reply)
  }

  /** These callbacks are told the same, and nobody else anything. */
  predicate Tells(s: System, next: System, callbacks: seq<Callback>, reply: Reply) {
    next.answers == s.answers + AnswersTo(callbacks, reply)
  }

  lemma TellingIsJustified(s: System, e: Event, callbacks: seq<Callback>, reply: Reply)
    requires Tells(s, Step(s, e), callbacks, reply) && (callbacks != [] ==> Justified(s, e, reply))
    ensures NewAnswersJustified(s, e)
  {
    hide Step, Justified;
  }

  lemma OneTold(callback: Callback, reply: Reply)
    ensures AnswersTo([callback], reply) == [Answer(callback, reply)] && AnswersTo([], reply) == []
  {
  }

  lemma PrepareTells(s: System, callback: Callback, directory: bool) returns (callbacks: seq<Callback>, reply: Reply)
    ensures var next := PrepareWith(s, callback, directory);
      && Tells(s, next, callbacks, reply) && (s.phase.Ready? ==> next.phase == s.phase)
      && callbacks == (if s.phase.Ready? || CannotPrepare(s, directory) then [callback] else [])
      && reply == (if s.phase.Ready? then Environment(s.phase.runtime) else Refused)
  {
    callbacks := if s.phase.Ready? || CannotPrepare(s, directory) then [callback] else [];
    reply := if s.phase.Ready? then Environment(s.phase.runtime) else Refused;
    OneTold(callback, reply);
    hide AnswersTo;
  }

  lemma PreparationIsJustified(s: System, directory: bool)
    ensures NewAnswersJustified(s, Preparation(directory))
  {
    var callbacks, reply := PrepareTells(s.(calls := s.calls + 1), s.calls, directory);
    hide PrepareWith;
    TellingIsJustified(s, Preparation(directory), callbacks, reply);
  }

  lemma ChangeTells(s: System, network: Network, directory: bool)
    requires s.switchInFlight || network != s.network
    ensures var next := SwitchNetwork(s, network, directory);
      Tells(s, next, if s.switchInFlight || !s.phase.Ready? || !directory then [s.calls] else [], Refused)
  {
    OneTold(s.calls, Refused);
    hide PrepareWith, AnswersTo;
  }

  lemma SameNetworkTells(s: System, directory: bool) returns (callbacks: seq<Callback>, reply: Reply)
    requires !s.switchInFlight && !s.phase.Switching?
    ensures var next := SwitchNetwork(s, s.network, directory);
      && Tells(s, next, callbacks, reply)
      && callbacks == (if s.phase.Ready? || CannotPrepare(s, directory) then [s.calls] else [])
      && reply == (if s.phase.Ready? then Environment(s.phase.runtime) else Refused)
      && (s.phase.Ready? ==> next.phase == s.phase)
  {
    callbacks, reply := PrepareTells(s.(calls := s.calls + 1), s.calls, directory);
    OneTold(s.calls, reply);
    hide PrepareWith, AnswersTo;
  }

  lemma ChangeIsJustified(s: System, network: Network, directory: bool)
    requires s.switchInFlight <==> s.phase.Switching?
    ensures NewAnswersJustified(s, NetworkChange(network, directory))
  {
    var callbacks, reply := if s.switchInFlight || !s.phase.Ready? || !directory then [s.calls] else [], Refused;
    if s.switchInFlight || network != s.network {
      ChangeTells(s, network, directory);
    } else {
      callbacks, reply := SameNetworkTells(s, directory);
    }
    hide SwitchNetwork, Tells;
    assert Step(s, NetworkChange(network, directory)) == SwitchNetwork(s, network, directory);
    TellingIsJustified(s, NetworkChange(network, directory), callbacks, reply);
  }

  lemma SyncIsJustified(s: System)
    ensures NewAnswersJustified(s, SyncRequest)
  {
    var callbacks := if s.phase.Ready? then [] else [s.calls];
    OneTold(s.calls, Refused);
    hide AnswersTo;
    assert Tells(s, Step(s, SyncRequest), callbacks, Refused);
    hide SyncNow;
    TellingIsJustified(s, SyncRequest, callbacks, Refused);
  }

  lemma CloseIsJustified(s: System)
    ensures NewAnswersJustified(s, Shutdown)
  {
    hide AnswersTo;
    assert Tells(s, Step(s, Shutdown), s.syncCallbacks, Refused);
    hide ProcessModel.Close;
    TellingIsJustified(s, Shutdown, s.syncCallbacks, Refused);
  }

  lemma QuietIsJustified(s: System, e: Event)
    requires Step(s, e).answers == s.answers
    ensures NewAnswersJustified(s, e)
  {
    hide Step, Justified;
  }

  lemma FinishTells(s: System, outcome: Option<RuntimeId>)
    ensures var next := FinishPreparation(s, outcome);
      && Tells(s, next, if s.phase.Preparing? then s.phase.callbacks else [], if outcome.Some? then Environment(outcome.value) else Refused)
      && (s.phase.Preparing? && outcome.Some? ==> next.phase == Ready(outcome.value))
  {
    OneTold(0, if outcome.Some? then Environment(outcome.value) else Refused);
    hide AnswersTo;
  }

  lemma SwitchTells(s: System, outcome: Option<RuntimeId>, network: Network, purpose: Purpose)
    requires purpose.ForSwitch? && (!s.phase.Closed? ==> s.switchInFlight && Current(s, purpose))
    ensures var next := FinishSwitch(s, outcome, network, purpose);
      && Tells(s, next, [purpose.completion], if outcome.Some? && !s.phase.Closed? then Environment(outcome.value) else Refused)
      && (!s.phase.Closed? && outcome.Some? ==> next.phase == Ready(outcome.value))
  {
    OneTold(purpose.completion, if outcome.Some? && !s.phase.Closed? then Environment(outcome.value) else Refused);
    hide AnswersTo;
  }

  /** What has arrived was still waited for, unless the process was closed. */
  lemma ArrivalIsAwaited(s: System)
    requires Inv(s) && s.arrivals != []
    ensures var arrival := s.arrivals[0];
      && (arrival.SyncArrived? && s.syncCallbacks != [] ==> Owned(s.phase) == Some(arrival.runtime))
      && (arrival.BuildArrived? ==> arrival.work.Build?)
      && (arrival.BuildArrived? && !s.phase.Closed? ==>
            if arrival.work.purpose.ForPrepare? then s.phase.Preparing? && arrival.work.network == s.network
            else s.switchInFlight && Current(s, arrival.work.purpose))
  {
    ArrivalIsFirstJob(s);
    hide Jobs, OnePlaceEach, SyncsBeforeClose;
  }

  lemma ArrivalIsJustified(s: System)
    requires Inv(s) && s.arrivals != []
    ensures NewAnswersJustified(s, Arriving)
  {
    ArrivalIsAwaited(s);
    hide Inv, AnswersTo;
    var rest, arrival := s.(arrivals := s.arrivals[1..]), s.arrivals[0];
    if arrival.SyncArrived? {
      TellingIsJustified(s, Arriving, s.syncCallbacks, SyncResult(arrival.runtime, arrival.succeeded));
    } else if arrival.work.purpose.ForPrepare? {
      FinishTells(rest, arrival.outcome);
      hide FinishPreparation;
      TellingIsJustified(s, Arriving, if s.phase.Preparing? then s.phase.callbacks else [],
                         if arrival.outcome.Some? then Environment(arrival.outcome.value) else Refused);
    } else {
      SwitchTells(rest, arrival.outcome, arrival.work.network, arrival.work.purpose);
      hide FinishSwitch;
      TellingIsJustified(s, Arriving, [arrival.work.purpose.completion],
                         if arrival.outcome.Some? && !s.phase.Closed? then Environment(arrival.outcome.value) else Refused);
    }
  }

  /** In every reachable state, whatever happens: each new answer is justified, and no old one is changed. */
  lemma RepliesAreJustified(network: Network, events: seq<Event>, e: Event)
    ensures NewAnswersJustified(Run(Launch(network), events), e)
  {
    LaunchIsValid(network);
    RunKeepsInv(Launch(network), events);
    hide Run, Launch, NewAnswersJustified, Inv;
    var s := Run(Launch(network), events);
    match e {
      case Preparation(directory) => PreparationIsJustified(s, directory);
      case NetworkChange(wanted, directory) => InvFlags(s); ChangeIsJustified(s, wanted, directory);
      case SyncRequest => SyncIsJustified(s);
      case Shutdown => CloseIsJustified(s);
      case Arriving => if s.arrivals != [] { ArrivalIsJustified(s); } else { QuietIsJustified(s, e); }
      case _ => QuietIsJustified(s, e);
    }
  }

  lemma InvFlags(s: System)
    requires Inv(s)
    ensures Flags(s)
  {
  }

  /** And the environment that is handed out belongs to the current network and is not being closed. */
  lemma EnvironmentIsUsable(network: Network, events: seq<Event>, runtime: RuntimeId)
    requires Run(Launch(network), events).phase == Ready(runtime)
    ensures var s := Run(Launch(network), events); IsFor(s, runtime, s.network) && HandedToClose(s, runtime) == 0
  {
    RuntimesHaveOnePlace(network, events, runtime);
    OwnedNetworkIsCurrent(network, events);
    hide Run, Launch, HandedToClose, InPreparation;
  }

  // ---------------------------------------------------------------- what is asked for is taken up

  /** A preparation with a ready environment is answered at once, and one that cannot be made is refused at once. */
  lemma PreparationIsAnswered(s: System, directory: bool)
    ensures var next := Step(s, Preparation(directory));
      && (s.phase.Ready? ==>
            next == s.(calls := s.calls + 1, answers := s.answers + [Answer(s.calls, Environment(s.phase.runtime))]))
      && (CannotPrepare(s, directory) ==> next.answers == s.answers + [Answer(s.calls, Refused)])
  {
    OneTold(s.calls, Refused);
    hide AnswersTo;
  }

  /** Any other one waits: with those that wait already, or for a build for the current network that it starts. */
  lemma PreparationIsTakenUp(s: System, directory: bool)
    requires Inv(s) && !s.phase.Ready? && !CannotPrepare(s, directory)
    ensures var next := Step(s, Preparation(directory));
      && next.phase == Preparing((if s.phase.Preparing? then s.phase.callbacks else []) + [s.calls])
      && Jobs(next) == [Build(s.network, ForPrepare)] && next.network == s.network && next.answers == s.answers
  {
    ProcessModel.StepIsOrderly(s, Preparation(directory));
    hide Jobs, AnswersTo, OnePlaceEach, SyncsBeforeClose, Networks, FinishPreparation;
    var next := Step(s, Preparation(directory));
    if s.phase.Preparing? {
      assert next.phase.callbacks == s.phase.callbacks + [s.calls];
    } else {
      assert next.phase == Preparing([s.calls]) && [] + [s.calls] == [s.calls];
    }
  }

  lemma SwitchStarts(s: System, network: Network, build: Work)
    requires s.phase.Ready? && network != s.network && !s.switchInFlight
    requires build == Build(network, ForSwitch(s.phase.runtime, s.switchGeneration + 1, s.calls))
    ensures var next := SwitchNetwork(s, network, true);
      && next.phase == Switching(s.phase.runtime) && next.switchInFlight && !next.foreground
      && next.switchGeneration == s.switchGeneration + 1
      && next.network == s.network && next.answers == s.answers && next.calls == s.calls + 1
      && next.arrivals == s.arrivals && next.running == s.running && next.queue == s.queue + [build]
  {
    hide PrepareWith;
  }

  /** A switch to another network from the ready phase: the old runtime stays owned, and one build for the new network is last in line. */
  lemma SwitchIsTakenUp(s: System, network: Network)
    requires Inv(s) && s.phase.Ready? && network != s.network
    ensures var next := Step(s, NetworkChange(network, true)); var jobs := Jobs(next);
      && next.phase == Switching(s.phase.runtime) && next.switchInFlight && !next.foreground
      && next.network == s.network && next.answers == s.answers && next.calls == s.calls + 1
      && jobs == Jobs(s) + [Build(network, ForSwitch(s.phase.runtime, next.switchGeneration, s.calls))]
  {
    InvFlags(s);
    var build := Build(network, ForSwitch(s.phase.runtime, s.switchGeneration + 1, s.calls));
    SwitchStarts(s, network, build);
    hide Inv, SwitchNetwork;
    OneMoreJob(s, SwitchNetwork(s, network, true), build);
    hide Jobs;
  }

  /** The result of a build tells everyone who waits for it, and the phase follows it. */
  lemma BuildEnds(s: System)
    requires Inv(s) && s.arrivals != [] && s.arrivals[0].BuildArrived? && !s.phase.Closed?
    ensures var next := Step(s, Arriving); var outcome, work := s.arrivals[0].outcome, s.arrivals[0].work;
      && work.Build?
      && (work.purpose.ForPrepare? ==>
            && s.phase.Preparing? && next.network == s.network
            && next.phase == (if outcome.Some? then Ready(outcome.value) else Failed)
            && next.answers == s.answers
                 + AnswersTo(s.phase.callbacks, if outcome.Some? then Environment(outcome.value) else Refused))
      && (work.purpose.ForSwitch? ==>
            && s.phase.Switching? && !next.switchInFlight
            && next.phase == Ready(if outcome.Some? then outcome.value else s.phase.runtime)
            && next.network == (if outcome.Some? then work.network else s.network)
            && next.queue == s.queue + (if outcome.Some? then [CloseRuntime(s.phase.runtime)] else [])
            && next.answers == s.answers
                 + [Answer(work.purpose.completion, if outcome.Some? then Environment(outcome.value) else Refused)])
  {
    ArrivalIsAwaited(s);
    hide Inv, AnswersTo, Jobs;
  }

  /** A sync request in the ready phase waits, and a sync of that runtime is in flight. */
  lemma SyncIsTakenUp(s: System)
    requires Inv(s) && s.phase.Ready?
    ensures var next := Step(s, SyncRequest);
      && next.phase == s.phase && next.syncCallbacks == s.syncCallbacks + [s.calls] && next.answers == s.answers
      && next.syncInFlight && Jobs(next) == [Sync(s.phase.runtime)]
  {
    ProcessModel.StepIsOrderly(s, SyncRequest);
    hide Jobs, OnePlaceEach, SyncsBeforeClose, Networks;
  }

  /** A scheduled sync runs in the ready phase, in the foreground and with the newest schedule; otherwise nothing happens. */
  lemma ScheduledSyncIff(s: System, generation: nat)
    requires Inv(s)
    ensures var next := Step(s, ScheduledSync(generation));
      if generation == s.scheduleGeneration && s.foreground && s.phase.Ready? then
        next.syncInFlight && Jobs(next) == [Sync(s.phase.runtime)] && next.phase == s.phase
      else next == s
  {
    ProcessModel.StepIsOrderly(s, ScheduledSync(generation));
    hide Jobs, OnePlaceEach, SyncsBeforeClose, Networks;
  }

  /** Coming to the foreground starts a schedule, and its sync runs as soon as its timer fires with an environment ready. */
  lemma ForegroundSyncRuns(s: System)
    requires Inv(s) && s.phase.Ready?
    ensures var resumed := Step(s, ForegroundResume); var next := Step(resumed, ScheduledSync(resumed.scheduleGeneration));
      && resumed.foreground && resumed.phase == s.phase && resumed.answers == s.answers
      && next.syncInFlight && Jobs(next) == [Sync(s.phase.runtime)]
      && !Step(s, ForegroundSuspend).foreground && !Step(s, Shutdown).foreground
  {
    StepKeepsInv(s, ForegroundResume);
    hide Inv, Jobs, AnswersTo;
    ScheduledSyncIff(Step(s, ForegroundResume), Step(s, ForegroundResume).scheduleGeneration);
  }

  lemma GenerationsRise(s: System, e: Event)
    ensures s.scheduleGeneration <= Step(s, e).scheduleGeneration
    ensures e.ForegroundSuspend? || e.ForegroundResume? || e.Shutdown? || (e.SyncRequest? && s.phase.Ready?) ==>
      s.scheduleGeneration < Step(s, e).scheduleGeneration
  {
    hide AnswersTo;
    match e {
      case Preparation(directory) => PrepareGeneration(s.(calls := s.calls + 1), s.calls, directory); hide PrepareWith;
      case NetworkChange(_, directory) => PrepareGeneration(s.(calls := s.calls + 1), s.calls, directory); hide PrepareWith;
      case Arriving => if s.arrivals != [] { ArriveGeneration(s); } hide Arrive;
      case _ => hide PrepareWith, Arrive, SwitchNetwork;
    }
  }

  lemma PrepareGeneration(s: System, callback: Callback, directory: bool)
    ensures s.scheduleGeneration <= PrepareWith(s, callback, directory).scheduleGeneration
  {
    hide AnswersTo;
  }

  lemma ArriveGeneration(s: System)
    requires s.arrivals != []
    ensures s.scheduleGeneration <= Arrive(s).scheduleGeneration
  {
    hide AnswersTo;
  }

  /** A schedule that has been replaced never runs, however late its timer fires. */
  lemma {:induction false} OldScheduleNeverRuns(s: System, events: seq<Event>, generation: nat)
    requires generation < s.scheduleGeneration
    ensures Step(Run(s, events), ScheduledSync(generation)) == Run(s, events)
    decreases |events|
  {
    if events != [] {
      GenerationsRise(s, events[0]);
      hide Step;
      OldScheduleNeverRuns(Step(s, events[0]), events[1..], generation);
    }
  }

  /** Closing is final, and no new work is taken up. */
  lemma {:induction false} ClosedStaysClosed(s: System, events: seq<Event>)
    requires s.phase.Closed? && Inv(s)
    ensures Run(s, events).phase.Closed? && |Jobs(Run(s, events))| <= |Jobs(s)|
    decreases |events|
  {
    if events != [] {
      ClosedStep(s, events[0]);
      StepKeepsInv(s, events[0]);
      hide Step, Inv;
      ClosedStaysClosed(Step(s, events[0]), events[1..]);
    }
  }

  lemma ClosedStep(s: System, e: Event)
    requires s.phase.Closed? && Inv(s)
    ensures Step(s, e).phase.Closed? && |Jobs(Step(s, e))| <= |Jobs(s)|
  {
    InvFlags(s);
    if Internal(e) {
      ClosedBackground(s, e);
    } else {
      assert Step(s, e).queue == s.queue && Step(s, e).running == s.running && Step(s, e).arrivals == s.arrivals;
    }
    hide AnswersTo, Inv;
  }

  lemma ClosedBackground(s: System, e: Event)
    requires s.phase.Closed? && Inv(s) && Internal(e)
    ensures Step(s, e).phase.Closed? && |Jobs(Step(s, e))| <= |Jobs(s)|
  {
    match e {
      case Arriving =>
        if s.arrivals != [] {
          var rest := s.(arrivals := s.arrivals[1..]);
          ArrivalIsFirstJob(s);
          if s.arrivals[0].BuildArrived? && s.arrivals[0].outcome.Some? {
            OneMoreJob(rest, Step(s, e), CloseRuntime(s.arrivals[0].outcome.value));
          } else {
            SameJobs(rest, Step(s, e));
          }
        }
      case Taking => if s.running.Nothing? && s.queue != [] { TakeKeepsJobs(s); }
      case FactoryDone(succeeds) => if s.running.Busy? && s.running.work.Build? { FactoryKeepsJobs(s, succeeds); }
      case SetUpDone(succeeds) => if s.running.Built? { SetUpKeepsJobs(s, succeeds); }
      case WorkDone(succeeded) => if s.running.Busy? && !s.running.work.Build? { FinishKeepsJobs(s, succeeded); }
    }
    hide Jobs, AnswersTo, OnePlaceEach, SyncsBeforeClose;
  }

  // ---------------------------------------------------------------- left alone, the background comes to rest

  /** The steps of the background and of its results. */
  predicate Internal(e: Event) {
    e.Arriving? || e.Taking? || e.FactoryDone? || e.SetUpDone? || e.WorkDone?
  }

  function WorkWeight(work: Work): nat {
    match work
    case CloseRuntime(_) => 2
    case Sync(_) => 3
    case Build(_, _) => 6
  }

  function QueueWeight(queue: seq<Work>): nat {
    if queue == [] then 0 else WorkWeight(queue[0]) + QueueWeight(queue[1..])
  }

  function RunningWeight(running: Running): nat {
    match running
    case Nothing => 0
    case Busy(work) => WorkWeight(work) - 1
    case Built(_, _) => 4
  }

  function ArrivedWeight(arrivals: seq<Arrival>): nat {
    if arrivals == [] then 0 else (if arrivals[0].BuildArrived? then 3 else 1) + ArrivedWeight(arrivals[1..])
  }

  function Measure(s: System): nat {
    QueueWeight(s.queue) + RunningWeight(s.running) + ArrivedWeight(s.arrivals)
  }

  lemma {:induction false} QueueWeightAppend(queue: seq<Work>, work: Work)
    ensures QueueWeight(queue + [work]) == QueueWeight(queue) + WorkWeight(work)
  {
    if queue == [] {
      assert queue + [work] == [work] && [work][1..] == [];
    } else {
      QueueWeightAppend(queue[1..], work);
      assert (queue + [work])[1..] == queue[1..] + [work];
    }
  }

  lemma {:induction false} ArrivedWeightAppend(arrivals: seq<Arrival>, arrival: Arrival)
    ensures ArrivedWeight(arrivals + [arrival]) == ArrivedWeight(arrivals) + if arrival.BuildArrived? then 3 else 1
  {
    if arrivals == [] {
      assert arrivals + [arrival] == [arrival] && [arrival][1..] == [];
    } else {
      ArrivedWeightAppend(arrivals[1..], arrival);
      assert (arrivals + [arrival])[1..] == arrivals[1..] + [arrival];
    }
  }

  /** Every internal step that has an effect brings the background nearer to rest. */
  lemma InternalStepSettles(s: System, e: Event)
    requires Inv(s) && Internal(e) && Step(s, e) != s
    ensures Measure(Step(s, e)) < Measure(s)
  {
    hide QueueWeight, ArrivedWeight, AnswersTo, Inv;
    match e {
      case Arriving => ArrivalSettles(s);
      case Taking => TakingSettles(s);
      case FactoryDone(_) => ArrivedWeightAppend(s.arrivals, BuildArrived(None, s.running.work));
      case SetUpDone(_) =>
        ArrivedWeightAppend(s.arrivals, BuildArrived(None, s.running.work));
        ArrivedWeightAppend(s.arrivals, BuildArrived(Some(s.running.runtime), s.running.work));
      case WorkDone(succeeded) =>
        if s.running.work.Sync? {
          ArrivedWeightAppend(s.arrivals, SyncArrived(s.running.work.runtime, succeeded));
        }
    }
  }

  lemma TakingSettles(s: System)
    requires s.running.Nothing? && s.queue != []
    ensures Measure(Take(s)) < Measure(s)
  {
    hide ArrivedWeight;
  }

  /** Handling a result hands at most one runtime over to be closed. */
  lemma ArrivalSubmits(s: System) returns (work: Option<Work>)
    requires s.arrivals != []
    ensures Submitted(s.(arrivals := s.arrivals[1..]), Arrive(s), work)
    ensures work.Some? ==> work.value.CloseRuntime? && s.arrivals[0].BuildArrived?
  {
    var rest, arrival := s.(arrivals := s.arrivals[1..]), s.arrivals[0];
    hide FinishPreparation, FinishSwitch, FinishSync, AnswersTo, OwnedTimes, Owned;
    work := None;
    if arrival.SyncArrived? {
      SyncedSubmits(rest, arrival.runtime, arrival.succeeded);
    } else if arrival.work.Build? {
      if arrival.work.purpose.ForPrepare? {
        work := PreparationSubmits(rest, arrival.outcome, 0);
      } else {
        work := SwitchedSubmits(rest, arrival.outcome, arrival.work.network, arrival.work.purpose, 0);
      }
    }
  }

  lemma ArrivalSettles(s: System)
    requires s.arrivals != []
    ensures Measure(Arrive(s)) < Measure(s)
  {
    var work := ArrivalSubmits(s);
    if work.Some? {
      QueueWeightAppend(s.queue, work.value);
    }
    hide QueueWeight, AnswersTo, Arrive;
  }

  lemma SomethingToDo(s: System)
    requires Inv(s) && Measure(s) > 0
    ensures exists e :: Internal(e) && Step(s, e) != s
  {
    hide Inv;
    if s.arrivals != [] {
      ArrivalSettles(s);
      assert Step(s, Arriving) != s;
    } else if s.running.Built? {
      assert Step(s, SetUpDone(true)) != s;
    } else if s.running.Busy? {
      if s.running.work.Build? {
        assert Step(s, FactoryDone(false)) != s;
      } else {
        assert Step(s, WorkDone(true)) != s;
      }
    } else if s.queue != [] {
      assert Step(s, Taking) != s;
    }
  }

  ghost predicate Working(s: System, events: seq<Event>)
    decreases |events|
  {
    events == [] || (Internal(events[0]) && Step(s, events[0]) != s && Working(Step(s, events[0]), events[1..]))
  }

  /** At rest nothing is being prepared or switched, no sync runs and none is waited for. */
  lemma RestIsSettled(s: System)
    requires Inv(s) && Measure(s) == 0
    ensures s.queue == [] && s.running.Nothing? && s.arrivals == []
    ensures !s.phase.Preparing? && !s.phase.Switching? && !s.switchInFlight && !s.syncInFlight && s.syncCallbacks == []
  {
    assert Jobs(s) == [];
    hide Jobs, OnePlaceEach, SyncsBeforeClose, Networks;
  }

  /**
   * After any history the background works for at most `Measure` steps, in whatever order, and
   * when no further one is possible everything asked for has come to an end.
   */
  lemma {:induction false} BackgroundSettles(s: System, events: seq<Event>)
    requires Inv(s) && Working(s, events)
    ensures |events| <= Measure(s)
    ensures var end := Run(s, events);
      (forall e | Internal(e) :: Step(end, e) == end) ==> Inv(end) && Measure(end) == 0
    decreases |events|
  {
    hide Inv, Step, Measure;
    if events == [] {
      if Measure(s) > 0 {
        SomethingToDo(s);
      }
    } else {
      InternalStepSettles(s, events[0]);
      StepKeepsInv(s, events[0]);
      BackgroundSettles(Step(s, events[0]), events[1..]);
    }
  }
}
