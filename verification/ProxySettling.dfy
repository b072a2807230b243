/** Left alone, the proxy system settles: callbacks and queued tasks cannot chase each other for ever. */
module ProxySettling {
  import opened Prelude
  import opened ProxyMachine
  import opened ProxyLifecycle

  /** The steps that need no user and no operating system event. */
  predicate Internal(e: Event) {
    e.Taken? || e.NativeUp? || e.NativeDown? || e.JoinDone? || e.Succeeded? || e.FailedStart?
  }

  function TaskWeight(task: Task): nat {
    if task.StartTask? then 5 else 2
  }

  function QueueWeight(queue: seq<Task>): nat {
    if queue == [] then 0 else TaskWeight(queue[0]) + QueueWeight(queue[1..])
  }

  function WorkerWeight(worker: Worker): nat {
    match worker
    case Free => 0
    case StartingProxy(_, _) => 4
    case Offered(_, _, _) => 2
    case Joining(_) => 1
  }

  /** The current start will be superseded when its callback runs; the start after it will not be. */
  predicate Superseded(m: Machine) {
    m.phase.Starting? && m.pendingScope != Some(m.phase.scope)
  }

  function Measure(s: System): nat {
    QueueWeight(s.queue) + WorkerWeight(s.worker) + |s.failures| + if Superseded(s.machine) then 6 else 0
  }

  lemma {:induction false} QueueWeightAppend(queue: seq<Task>, task: Task)
    ensures QueueWeight(queue + [task]) == QueueWeight(queue) + TaskWeight(task)
  {
    if queue == [] {
      assert queue + [task] == [task];
    } else {
      QueueWeightAppend(queue[1..], task);
      assert (queue + [task])[1..] == queue[1..] + [task];
    }
  }

  lemma DecisionSettles(s: System, installs: bool)
    requires Inv(s) && s.worker.Offered?
    ensures Measure(StartSucceeded(s, installs)) < Measure(s)
  {
    Decision(s, installs);
    var m := s.machine;
    hide Inv, StartSucceeded, QueueWeight;
    if m.pendingScope.Some? {
      QueueWeightAppend(s.queue, StartTask(m.epoch + 1, m.pendingScope.value));
    }
  }

  lemma FailureSettles(s: System, i: nat)
    requires Inv(s) && i < |s.failures|
    ensures Measure(StartFailed(s, i)) < Measure(s)
  {
    FailureOutcome(s, i);
    var m := s.machine;
    hide Inv, StartFailed, QueueWeight;
    if m.pendingScope.Some? {
      QueueWeightAppend(s.queue, StartTask(m.epoch + 1, m.pendingScope.value));
    }
  }

  /** Every internal step brings the system nearer to rest. */
  lemma InternalStepSettles(s: System, e: Event)
    requires Inv(s) && Internal(e) && Step(s, e) != s
    ensures Measure(Step(s, e)) < Measure(s)
  {
    match e {
      case Succeeded(installs) => DecisionSettles(s, installs);
      case FailedStart(i) => FailureSettles(s, i);
      case _ => hide Inv;
    }
  }

  /** As long as it is not at rest, some internal step is possible: nothing waits for ever. */
  lemma SomethingToDo(s: System)
    requires Inv(s) && Measure(s) > 0
    ensures exists e :: Internal(e) && Step(s, e) != s
  {
    assert s.worker.Free? && s.queue == [] && s.failures == [] ==> Outstanding(s) == [];
    if s.worker.Offered? {
      DecisionSettles(s, true);
      assert Step(s, Succeeded(true)) != s;
    } else if s.worker.StartingProxy? {
      assert Step(s, NativeDown) != s;
    } else if s.worker.Joining? {
      assert Step(s, JoinDone) != s;
    } else if s.queue != [] {
      assert Step(s, Taken) != s;
    } else if s.failures != [] {
      FailureSettles(s, 0);
      assert Step(s, FailedStart(0)) != s;
    }
  }

  /** At rest no start is in flight and every proxy but the active one has been joined. */
  lemma RestIsClean(s: System)
    requires Inv(s) && Measure(s) == 0
    ensures !s.machine.phase.Starting? && s.queue == [] && s.worker.Free? && s.failures == []
    ensures s.created == |s.joined| + (if s.machine.phase.Active? then 1 else 0)
    ensures forall i | 0 <= i < |s.joined| :: s.joined[i] == i
  {
    assert Outstanding(s) == [];
  }

  /** Every event in the run is internal and has an effect. */
  ghost predicate Working(s: System, events: seq<Event>)
    decreases |events|
  {
    events == [] || (Internal(events[0]) && Step(s, events[0]) != s && Working(Step(s, events[0]), events[1..]))
  }

  /**
   * After any history, internal steps alone run for at most `Measure` steps, in whatever order; and
   * when no further one is possible the system is at rest.
   */
  lemma {:induction false} SystemSettles(s: System, events: seq<Event>)
    requires Inv(s) && Working(s, events)
    ensures |events| <= Measure(s)
    ensures var end := Run(s, events);
      (forall e | Internal(e) :: Step(end, e) == end) ==> Inv(end) && Measure(end) == 0
    decreases |events|
  {
    hide Inv, Step, Measure;
    if events == [] {
      if Measure(s) > 0 {
        SomethingToDo(s);
      }
    } else {
      InternalStepSettles(s, events[0]);
      StepKeepsInv(s, events[0]);
      SystemSettles(Step(s, events[0]), events[1..]);
    }
  }

  /** Destruction is final: whatever happens afterwards, no proxy is published and no page is shown. */
  lemma {:induction false} DestroyedStaysDown(s: System, events: seq<Event>)
    requires Inv(s) && s.destroyed
    ensures var end := Run(s, events);
      end.destroyed && end.activeProxy.None? && !end.webView && |Unjoined(end)| <= 1
    decreases |events|
  {
    if events == [] {
      OnePlaceEach(s);
    } else {
      StepStaysDestroyed(s, events[0]);
      StepKeepsInv(s, events[0]);
      hide Inv, Step;
      DestroyedStaysDown(Step(s, events[0]), events[1..]);
    }
  }

  lemma StepStaysDestroyed(s: System, e: Event)
    requires Inv(s) && s.destroyed
    ensures Step(s, e).destroyed
  {
    match e {
      case Succeeded(installs) => if s.worker.Offered? { Decision(s, installs); }
      case FailedStart(i) => if i < |s.failures| { FailureOutcome(s, i); }
      case _ =>
    }
  }
}
