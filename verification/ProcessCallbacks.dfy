/** Where every callback given to the browser process is, in every interleaving. */
module ProcessCallbacks {
  import opened Prelude
  import opened ProcessModel
  import opened ProcessLedger

  function PendingPrepare(phase: Phase): seq<Callback> {
    if phase.Preparing? then phase.callbacks else []
  }

  function Completes(work: Work, c: Callback): nat {
    One(work.Build? && work.purpose.ForSwitch? && work.purpose.completion == c)
  }

  /** How often a callback is the completion of a switch whose result has not been handled. */
  function Completions(jobs: seq<Work>, c: Callback): nat {
    if jobs == [] then 0 else Completes(jobs[0], c) + Completions(jobs[1..], c)
  }

  function AnsweredTimes(answers: seq<Answer>, c: Callback): nat {
    if answers == [] then 0 else One(answers[0].callback == c) + AnsweredTimes(answers[1..], c)
  }

  /** How often a callback waits to be called. */
  function Waiting(s: System, c: Callback): nat {
    Times(PendingPrepare(s.phase), c) + Times(s.syncCallbacks, c) + Completions(Jobs(s), c)
  }

  /** In how many places a callback is: waiting, called, or dropped. */
  function Callbacks(s: System, c: Callback): nat {
    Waiting(s, c) + AnsweredTimes(s.answers, c) + Times(s.dropped, c)
  }

  lemma {:induction false} CompletionsConcat(a: seq<Work>, b: seq<Work>, c: Callback)
    ensures Completions(a + b, c) == Completions(a, c) + Completions(b, c)
  {
    hide Completes;
    if a == [] {
      assert a + b == b;
    } else {
      CompletionsConcat(a[1..], b, c);
      assert (a + b)[1..] == a[1..] + b;
    }
  }

  lemma {:induction false} AnsweredConcat(a: seq<Answer>, b: seq<Answer>, c: Callback)
    ensures AnsweredTimes(a + b, c) == AnsweredTimes(a, c) + AnsweredTimes(b, c)
  {
    hide One;
    if a == [] {
      assert a + b == b;
    } else {
      AnsweredConcat(a[1..], b, c);
      assert (a + b)[1..] == a[1..] + b;
    }
  }

  lemma {:induction false} AnswersToAll(callbacks: seq<Callback>, reply: Reply, c: Callback)
    ensures AnsweredTimes(AnswersTo(callbacks, reply), c) == Times(callbacks, c)
  {
    hide One;
    if callbacks != [] {
      AnswersToAll(callbacks[1..], reply, c);
      assert AnswersTo(callbacks, reply)[1..] == AnswersTo(callbacks[1..], reply);
    }
  }

  lemma CompletionsOne(work: Work, c: Callback)
    ensures Completions([work], c) == Completes(work, c)
  {
    assert [work][1..] == [];
  }

  lemma AnsweredOne(answer: Answer, c: Callback)
    ensures AnsweredTimes([answer], c) == One(answer.callback == c)
  {
    assert [answer][1..] == [];
  }

  /** Calling callbacks, for the counts. */
  lemma AnswerAll(answers: seq<Answer>, callbacks: seq<Callback>, reply: Reply, c: Callback)
    ensures AnsweredTimes(answers + AnswersTo(callbacks, reply), c) == AnsweredTimes(answers, c) + Times(callbacks, c)
  {
    AnsweredConcat(answers, AnswersTo(callbacks, reply), c);
    AnswersToAll(callbacks, reply, c);
  }

  lemma AnswerOne(answers: seq<Answer>, callback: Callback, reply: Reply, c: Callback)
    ensures AnsweredTimes(answers + [Answer(callback, reply)], c) == AnsweredTimes(answers, c) + One(callback == c)
  {
    AnsweredConcat(answers, [Answer(callback, reply)], c);
    AnsweredOne(Answer(callback, reply), c);
  }

  lemma AddOne(callbacks: seq<Callback>, callback: Callback, c: Callback)
    ensures Times(callbacks + [callback], c) == Times(callbacks, c) + One(callback == c)
  {
    TimesConcat(callbacks, [callback], c);
    TimesOne(callback, c);
  }

  /** What one step of the main actor does to the counts of a callback. */
  lemma SubmittedCompletions(s: System, next: System, work: Option<Work>, c: Callback)
    requires Submitted(s, next, work)
    ensures Completions(Jobs(next), c) == Completions(Jobs(s), c) + if work.Some? then Completes(work.value, c) else 0
  {
    hide Jobs;
    if work.Some? {
      OneMoreJob(s, next, work.value);
      if !work.value.CloseRuntime? {
        CompletionsConcat(Jobs(s), [work.value], c);
        CompletionsOne(work.value, c);
      } else {
        assert Jobs(s) + [] == Jobs(s);
      }
    } else {
      SameJobs(s, next);
    }
  }

  // ---------------------------------------------------------------- calls

  lemma PreparationCallbacks(s: System, outcome: Option<RuntimeId>, c: Callback)
    ensures Callbacks(FinishPreparation(s, outcome), c) == Callbacks(s, c)
    ensures FinishPreparation(s, outcome).calls == s.calls
  {
    var next := FinishPreparation(s, outcome);
    var work := PreparationSubmits(s, outcome, 0);
    SubmittedCompletions(s, next, work, c);
    if s.phase.Preparing? {
      AnswerAll(s.answers, s.phase.callbacks, if outcome.Some? then Environment(outcome.value) else Refused, c);
    }
    hide AnswersTo, Completions, AnsweredTimes, Jobs;
  }

  lemma AnsweredCallbacks(s: System, callback: Callback, reply: Reply, c: Callback)
    ensures Callbacks(Answered(s, callback, reply), c) == Callbacks(s, c) + One(callback == c)
  {
    SameJobs(s, Answered(s, callback, reply));
    AnswerOne(s.answers, callback, reply, c);
    hide Completions, AnsweredTimes, Jobs, Times, One;
  }

  lemma PendingCallbacks(s: System, callback: Callback, c: Callback)
    requires s.phase.Idle? || s.phase.Failed? || s.phase.Preparing?
    ensures Callbacks(s.(phase := Preparing(PendingPrepare(s.phase) + [callback])), c) == Callbacks(s, c) + One(callback == c)
  {
    SameJobs(s, s.(phase := Preparing(PendingPrepare(s.phase) + [callback])));
    AddOne(PendingPrepare(s.phase), callback, c);
    hide Completions, AnsweredTimes, Jobs, Times, One;
  }

  lemma PrepareCallbacks(s: System, callback: Callback, directory: bool, c: Callback)
    ensures Callbacks(PrepareWith(s, callback, directory), c) == Callbacks(s, c) + One(callback == c)
    ensures PrepareWith(s, callback, directory).calls == s.calls
  {
    if s.phase.Idle? || s.phase.Failed? {
      var preparing := s.(phase := Preparing([callback]));
      assert [] + [callback] == [callback];
      PendingCallbacks(s, callback, c);
      if directory {
        var build := Build(s.network, ForPrepare);
        var next := Submit(preparing, build);
        assert Completes(build, c) == 0;
        SubmittedCompletions(preparing, next, Some(build), c);
        hide Completions, AnsweredTimes, Jobs, Times, One;
      } else {
        PreparationCallbacks(preparing, None, c);
        hide Callbacks, FinishPreparation;
      }
    } else if s.phase.Preparing? {
      PendingCallbacks(s, callback, c);
      hide Callbacks;
    } else {
      AnsweredCallbacks(s, callback, if s.phase.Ready? then Environment(s.phase.runtime) else Refused, c);
      hide Callbacks;
    }
  }

  lemma NewCall(s: System, c: Callback)
    ensures Callbacks(s.(calls := s.calls + 1), c) == Callbacks(s, c)
  {
    SameJobs(s, s.(calls := s.calls + 1));
    hide Completions, AnsweredTimes, Jobs, Times;
  }

  lemma SwitchCallbacks(s: System, network: Network, directory: bool, c: Callback)
    ensures Callbacks(SwitchNetwork(s, network, directory), c) == Callbacks(s, c) + One(s.calls == c)
    ensures SwitchNetwork(s, network, directory).calls == s.calls + 1
  {
    hide PrepareWith, One, Callbacks, Submit, SuspendForegroundSync;
    var callback := s.calls;
    var called := s.(calls := s.calls + 1);
    NewCall(s, c);
    if s.switchInFlight || (network != s.network && (!s.phase.Ready? || !directory)) {
      AnsweredCallbacks(called, callback, Refused, c);
    } else if network != s.network {
      hide SwitchNetwork;
      SwitchBegins(s, network, c);
    } else if s.phase.Ready? {
      AnsweredCallbacks(called, callback, Environment(s.phase.runtime), c);
    } else {
      PrepareCallbacks(called, callback, directory, c);
    }
  }

  lemma SwitchBegins(s: System, network: Network, c: Callback)
    requires !s.switchInFlight && network != s.network && s.phase.Ready?
    ensures Callbacks(SwitchNetwork(s, network, true), c) == Callbacks(s.(calls := s.calls + 1), c) + One(s.calls == c)
    ensures SwitchNetwork(s, network, true).calls == s.calls + 1
  {
    hide Callbacks, PrepareWith;
    BeginSwitch(s.(calls := s.calls + 1), SwitchNetwork(s, network, true), network, s.calls, c);
  }

  lemma BeginSwitch(s: System, next: System, network: Network, callback: Callback, c: Callback)
    requires s.phase.Ready? && next.phase == Switching(s.phase.runtime)
    requires next.syncCallbacks == s.syncCallbacks && next.answers == s.answers && next.dropped == s.dropped
    requires Submitted(s, next, Some(Build(network, ForSwitch(s.phase.runtime, s.switchGeneration + 1, callback))))
    ensures Callbacks(next, c) == Callbacks(s, c) + One(callback == c)
  {
    SubmittedCompletions(s, next, Some(Build(network, ForSwitch(s.phase.runtime, s.switchGeneration + 1, callback))), c);
    hide Completions, AnsweredTimes, Jobs, Times, One;
  }

  lemma SyncCallbacks(s: System, c: Callback)
    ensures Callbacks(SyncNow(s), c) == Callbacks(s, c) + One(s.calls == c) && SyncNow(s).calls == s.calls + 1
  {
    NewCall(s, c);
    if s.phase.Ready? {
      var next := SyncNow(s);
      var work := if s.syncInFlight then None else Some(Sync(s.phase.runtime));
      AddOne(s.syncCallbacks, s.calls, c);
      SubmittedCompletions(s, next, work, c);
      hide Completions, AnsweredTimes, Jobs, Times, One;
    } else {
      AnsweredCallbacks(s.(calls := s.calls + 1), s.calls, Refused, c);
      hide Callbacks;
    }
  }

  lemma ScheduleCallbacks(s: System, e: Event, c: Callback)
    requires e.ForegroundResume? || e.ForegroundSuspend? || e.ScheduledSync?
    ensures Callbacks(Step(s, e), c) == Callbacks(s, c) && Step(s, e).calls == s.calls
  {
    var work := SyncSubmits(s, e);
    SubmittedCompletions(s, Step(s, e), work, c);
    hide Completions, AnsweredTimes, Jobs, Times, One;
  }

  lemma CloseEffect(s: System)
    ensures var next := Close(s);
      && next.answers == s.answers + AnswersTo(s.syncCallbacks, Refused) && next.syncCallbacks == []
      && next.dropped == s.dropped + PendingPrepare(s.phase) && PendingPrepare(next.phase) == [] && next.calls == s.calls
  {
    hide AnswersTo;
  }

  lemma CloseCallbacks(s: System, c: Callback)
    ensures Callbacks(Close(s), c) == Callbacks(s, c) && Close(s).calls == s.calls
  {
    CloseEffect(s);
    var work := CloseSubmits(s);
    assert Times([], c) == 0;
    hide AnswersTo, Completions, AnsweredTimes, Jobs, Times, One, Close, PendingPrepare, Completes;
    SubmittedCompletions(s, Close(s), work, c);
    NoCompletions(work, c);
    AnswerAll(s.answers, s.syncCallbacks, Refused, c);
    TimesConcat(s.dropped, PendingPrepare(s.phase), c);
  }

  lemma NoCompletions(work: Option<Work>, c: Callback)
    requires work.Some? ==> work.value.CloseRuntime?
    ensures work.Some? ==> Completes(work.value, c) == 0
  {
  }

  // ---------------------------------------------------------------- results

  lemma FinishSyncCallbacks(s: System, runtime: RuntimeId, succeeded: bool, c: Callback)
    ensures Callbacks(FinishSync(s, runtime, succeeded), c) == Callbacks(s, c) && FinishSync(s, runtime, succeeded).calls == s.calls
  {
    var next := FinishSync(s, runtime, succeeded);
    SameJobs(s, next);
    AnswerAll(s.answers, s.syncCallbacks, SyncResult(runtime, succeeded), c);
    assert Times([], c) == 0;
    hide AnswersTo, Completions, AnsweredTimes, Jobs, Times, One;
  }

  lemma FinishSwitchEffect(s: System, outcome: Option<RuntimeId>, network: Network, purpose: Purpose) returns (reply: Reply)
    requires purpose.ForSwitch?
    ensures var next := FinishSwitch(s, outcome, network, purpose);
      && next.answers == s.answers + [Answer(purpose.completion, reply)] && next.syncCallbacks == s.syncCallbacks
      && next.dropped == s.dropped && PendingPrepare(next.phase) == PendingPrepare(s.phase) && next.calls == s.calls
  {
    reply := FinishSwitch(s, outcome, network, purpose).answers[|s.answers|].reply;
  }

  lemma FinishSwitchCallbacks(s: System, outcome: Option<RuntimeId>, network: Network, purpose: Purpose, c: Callback)
    requires purpose.ForSwitch?
    ensures var next := FinishSwitch(s, outcome, network, purpose);
      Callbacks(next, c) == Callbacks(s, c) + One(purpose.completion == c) && next.calls == s.calls
  {
    var reply := FinishSwitchEffect(s, outcome, network, purpose);
    var work := SwitchedSubmits(s, outcome, network, purpose, 0);
    hide Completions, AnsweredTimes, Jobs, Times, One, FinishSwitch, PendingPrepare, Completes;
    SubmittedCompletions(s, FinishSwitch(s, outcome, network, purpose), work, c);
    NoCompletions(work, c);
    AnswerOne(s.answers, purpose.completion, reply, c);
  }

  lemma NextArrivalCallbacks(s: System, c: Callback)
    requires s.arrivals != []
    ensures var rest := s.(arrivals := s.arrivals[1..]); var arrival := s.arrivals[0];
      Callbacks(s, c) == Callbacks(rest, c) + if arrival.BuildArrived? then Completes(arrival.work, c) else 0
  {
    ArrivalIsFirstJob(s);
    hide AnsweredTimes, Jobs, Times, One;
  }

  lemma ArriveCallbacks(s: System, c: Callback)
    requires Networks(s) && s.arrivals != []
    ensures Callbacks(Arrive(s), c) == Callbacks(s, c) && Arrive(s).calls == s.calls
  {
    NextArrivalCallbacks(s, c);
    var arrival := s.arrivals[0];
    var rest := s.(arrivals := s.arrivals[1..]);
    hide Callbacks, FinishPreparation, FinishSwitch, FinishSync, One;
    if arrival.SyncArrived? {
      FinishSyncCallbacks(rest, arrival.runtime, arrival.succeeded, c);
    } else if arrival.work.purpose.ForPrepare? {
      PreparationCallbacks(rest, arrival.outcome, c);
      assert Completes(arrival.work, c) == 0 by { NoCompletion(arrival.work, c); }
    } else {
      FinishSwitchCallbacks(rest, arrival.outcome, arrival.work.network, arrival.work.purpose, c);
    }
  }

  lemma NoCompletion(work: Work, c: Callback)
    requires !(work.Build? && work.purpose.ForSwitch?)
    ensures Completes(work, c) == 0
  {
  }

  lemma BackgroundCallbacks(s: System, next: System, c: Callback)
    requires Jobs(next) == Jobs(s) && next.phase == s.phase && next.syncCallbacks == s.syncCallbacks
    requires next.answers == s.answers && next.dropped == s.dropped
    ensures Callbacks(next, c) == Callbacks(s, c)
  {
    hide Completions, AnsweredTimes, Jobs, Times, One;
  }

  lemma QueueCallbacks(s: System, e: Event, c: Callback)
    requires Networks(s) && (e.Taking? || e.FactoryDone? || e.SetUpDone? || e.WorkDone?)
    ensures Callbacks(Step(s, e), c) == Callbacks(s, c) && Step(s, e).calls == s.calls
  {
    hide Callbacks, Jobs;
    match e {
      case Taking => if s.running.Nothing? && s.queue != [] { TakeKeepsJobs(s); BackgroundCallbacks(s, Take(s), c); }
      case FactoryDone(succeeds) =>
        if s.running.Busy? && s.running.work.Build? { FactoryKeepsJobs(s, succeeds); BackgroundCallbacks(s, Factory(s, succeeds), c); }
      case SetUpDone(succeeds) =>
        if s.running.Built? { SetUpKeepsJobs(s, succeeds); BackgroundCallbacks(s, SetUp(s, succeeds), c); }
      case WorkDone(succeeded) =>
        if s.running.Busy? && !s.running.work.Build? { FinishKeepsJobs(s, succeeded); BackgroundCallbacks(s, Finish(s, succeeded), c); }
    }
  }

  /** A step adds at most the callback it was called with, and loses none. */
  lemma StepCallbacks(s: System, e: Event, c: Callback)
    requires Networks(s)
    ensures var next := Step(s, e);
      Callbacks(next, c) == Callbacks(s, c) + One(next.calls == s.calls + 1 && s.calls == c)
      && (next.calls == s.calls || next.calls == s.calls + 1)
  {
    hide Callbacks, Networks, PrepareWith, SwitchNetwork, SyncNow, Close, Arrive;
    match e {
      case Preparation(directory) =>
        NewCall(s, c);
        PrepareCallbacks(s.(calls := s.calls + 1), s.calls, directory, c);
      case NetworkChange(network, directory) => SwitchCallbacks(s, network, directory, c);
      case SyncRequest => SyncCallbacks(s, c);
      case Shutdown => CloseCallbacks(s, c);
      case Arriving => if s.arrivals != [] { ArriveCallbacks(s, c); }
      case ForegroundResume => ScheduleCallbacks(s, e, c);
      case ForegroundSuspend => ScheduleCallbacks(s, e, c);
      case ScheduledSync(_) => ScheduleCallbacks(s, e, c);
      case _ => hide Step; QueueCallbacks(s, e, c);
    }
  }

  // ---------------------------------------------------------------- every run

  ghost predicate Kept(s: System) {
    forall c: Callback :: Callbacks(s, c) == One(c < s.calls)
  }

  lemma {:induction false} RunKeepsCallbacks(s: System, events: seq<Event>)
    requires Inv(s) && Kept(s)
    ensures Kept(Run(s, events))
    decreases |events|
  {
    if events != [] {
      forall c: Callback
        ensures Callbacks(Step(s, events[0]), c) == One(c < Step(s, events[0]).calls)
      {
        StepCallbacks(s, events[0], c);
      }
      hide Step, Callbacks;
      assert Kept(Step(s, events[0]));
      hide Kept, Inv;
      StepKeepsInv(s, events[0]);
      RunKeepsCallbacks(Step(s, events[0]), events[1..]);
    }
  }

  lemma LaunchKeeps(network: Network)
    ensures Kept(Launch(network))
  {
    assert Jobs(Launch(network)) == [];
  }

  /**
   * In every interleaving each callback that was ever passed in is in exactly one place, once:
   * waiting, already called, or dropped. So none is called twice and none is lost by accident.
   */
  lemma CallbacksHaveOnePlace(network: Network, events: seq<Event>, c: Callback)
    ensures var s := Run(Launch(network), events);
      Waiting(s, c) + AnsweredTimes(s.answers, c) + Times(s.dropped, c) == One(c < s.calls)
  {
    hide Launch, Run, Waiting, AnsweredTimes, Times;
    LaunchIsValid(network);
    LaunchKeeps(network);
    RunKeepsCallbacks(Launch(network), events);
    assert Callbacks(Run(Launch(network), events), c) == One(c < Run(Launch(network), events).calls);
  }

  /** Only closing during a preparation drops callbacks: the ones waiting for that preparation. */
  lemma OnlyCloseDrops(s: System, e: Event)
    ensures Step(s, e).dropped == s.dropped + if e.Shutdown? && s.phase.Preparing? then s.phase.callbacks else []
  {
    assert s.dropped + [] == s.dropped;
    hide AnswersTo, PrepareWith, SwitchNetwork, FinishPreparation;
    match e {
      case Preparation(directory) => PrepareDropsNothing(s.(calls := s.calls + 1), s.calls, directory);
      case NetworkChange(network, directory) => SwitchDropsNothing(s, network, directory);
      case Arriving => if s.arrivals != [] { ArriveDropsNothing(s); hide Arrive; }
      case _ =>
    }
  }

  lemma PrepareDropsNothing(s: System, callback: Callback, directory: bool)
    ensures PrepareWith(s, callback, directory).dropped == s.dropped
  {
    hide AnswersTo;
  }

  lemma SwitchDropsNothing(s: System, network: Network, directory: bool)
    ensures SwitchNetwork(s, network, directory).dropped == s.dropped
  {
    PrepareDropsNothing(s.(calls := s.calls + 1), s.calls, directory);
    hide PrepareWith;
  }

  lemma ArriveDropsNothing(s: System)
    requires s.arrivals != []
    ensures Arrive(s).dropped == s.dropped
  {
    hide AnswersTo;
  }

  /** Nothing is left waiting once the background is at rest: called once, or dropped by a close. */
  lemma RestIsAnswered(network: Network, events: seq<Event>, c: Callback)
    requires var s := Run(Launch(network), events); s.queue == [] && s.running.Nothing? && s.arrivals == []
    ensures var s := Run(Launch(network), events); AnsweredTimes(s.answers, c) + Times(s.dropped, c) == One(c < s.calls)
  {
    CallbacksHaveOnePlace(network, events, c);
    hide Launch, Run, AnsweredTimes;
    LaunchIsValid(network);
    RunKeepsInv(Launch(network), events);
    var s := Run(Launch(network), events);
    assert Jobs(s) == [];
  }

  /**
   * A callback of `syncNow` waits only while a sync of the runtime that was ready when it was
   * accepted is in flight, ahead of everything else; closing answers it at once.
   */
  lemma SyncCallbacksWaitForTheirRuntime(network: Network, events: seq<Event>)
    ensures var s := Run(Launch(network), events);
      s.syncCallbacks != [] ==> Owned(s.phase).Some? && Jobs(s) != [] && Jobs(s)[0] == Sync(Owned(s.phase).value)
    ensures var s := Run(Launch(network), events); Close(s).syncCallbacks == []
  {
    hide Launch, Run, Jobs;
    LaunchIsValid(network);
    RunKeepsInv(Launch(network), events);
  }

  /** The sync result that arrives answers all of them, and none is left. */
  lemma SyncResultAnswersAll(network: Network, events: seq<Event>)
    requires var s := Run(Launch(network), events); s.arrivals != [] && s.arrivals[0].SyncArrived?
    ensures var s := Run(Launch(network), events); var next := Arrive(s);
      && next.syncCallbacks == [] && !next.syncInFlight
      && next.answers == s.answers + AnswersTo(s.syncCallbacks, SyncResult(s.arrivals[0].runtime, s.arrivals[0].succeeded))
      && (s.syncCallbacks != [] ==> Owned(s.phase) == Some(s.arrivals[0].runtime))
  {
    SyncCallbacksWaitForTheirRuntime(network, events);
    hide Launch, Run;
    ArrivalIsFirstJob(Run(Launch(network), events));
  }

  /** Unless the process was closed, the result of a network switch is never stale. */
  lemma SwitchResultIsCurrent(network: Network, events: seq<Event>)
    requires var s := Run(Launch(network), events); s.arrivals != [] && s.arrivals[0].BuildArrived?
    ensures var s := Run(Launch(network), events); var work := s.arrivals[0].work;
      work.Build? && (work.purpose.ForSwitch? && !s.phase.Closed? ==> s.switchInFlight && Current(s, work.purpose))
  {
    hide Launch, Run;
    LaunchIsValid(network);
    RunKeepsInv(Launch(network), events);
    ArrivalIsFirstJob(Run(Launch(network), events));
    hide Jobs, OnePlaceEach, SyncsBeforeClose;
  }
}
