/**
 * Whether the proxy serves what is asked of it: in the foreground nothing stays pending without a
 * start, and left alone every navigation is loaded unless its start fails.
 */
module ProxyService {
  import opened Prelude
  import opened ProxyMachine
  import opened ProxyLifecycle
  import opened ProxySettling

  // ---------------------------------------------------------------- idle means nothing to do

  /** An idle machine has nothing pending. */
  ghost predicate Attentive(s: System) {
    s.machine.phase.Idle? ==> s.machine.pendingScope.None?
  }

  lemma StepKeepsAttentive(s: System, e: Event)
    requires Inv(s) && Attentive(s)
    ensures Attentive(Step(s, e))
  {
    hide Conserved, Epochs, Shape;
    match e {
      case Navigated(navigation) => MainMove(s, e);
      case CameToForeground => MainMove(s, e);
      case WentToBackground => if !s.destroyed { SuspendIsStopped(s); }
      case RendererGone => if s.webView { RendererDiedIsStopped(s); }
      case TornDown => if !s.destroyed { DestroyIsStopped(s); }
      case FailedStart(i) => if i < |s.failures| { FailureOutcome(s, i); }
      case Succeeded(installs) => if s.worker.Offered? { Decision(s, installs); }
      case _ =>
    }
  }

  /** The two events that pursue a scope, in closed form. */
  lemma MainMove(s: System, e: Event)
    requires Inv(s) && (e.Navigated? || e.CameToForeground?)
    ensures e.Navigated? ==>
      var queued := s.(pending := Some(e.navigation),
                       machine := if s.destroyed then s.machine else s.machine.(pendingScope := Some(e.navigation.scope)));
      Step(s, e) == if s.machine.foreground then Pursued(queued, e.navigation.scope) else queued
    ensures e.CameToForeground? && !s.destroyed ==>
      var m := s.machine;
      var woken := s.(pending := Replay(s.pending, s.last),
                      machine := m.(foreground := true, phase := if m.phase.Suspended? then Idle else m.phase));
      Step(s, e) == if m.pendingScope.Some? then Pursued(woken, m.pendingScope.value) else woken
  {
    hide Conserved, Epochs, Shape;
    var m := s.machine;
    if e.Navigated? {
      PursueIsPursued(s.(pending := Some(e.navigation), machine := m.(pendingScope := Some(e.navigation.scope))), e.navigation.scope);
    } else if !s.destroyed && m.pendingScope.Some? {
      PursueIsPursued(s.(pending := Replay(s.pending, s.last),
                         machine := m.(foreground := true, phase := if m.phase.Suspended? then Idle else m.phase)),
                      m.pendingScope.value);
    }
    hide Pursued;
  }

  lemma {:induction false} RunKeepsAttentive(s: System, events: seq<Event>)
    requires Inv(s) && Attentive(s)
    ensures Inv(Run(s, events)) && Attentive(Run(s, events))
    decreases |events|
  {
    hide Inv, Step, Attentive;
    if events != [] {
      StepKeepsInv(s, events[0]);
      StepKeepsAttentive(s, events[0]);
      RunKeepsAttentive(Step(s, events[0]), events[1..]);
    }
  }

  /** In every reachable state, in the foreground: an idle machine has no scope pending; at rest only a failed one has. */
  lemma IdleHasNothingPending(events: seq<Event>)
    ensures var s := Run(Launch, events);
      && (s.machine.foreground && s.machine.phase.Idle? ==> s.machine.pendingScope.None?)
      && (s.machine.foreground && Measure(s) == 0 && s.machine.pendingScope.Some? ==> s.machine.phase.Failed?)
  {
    LaunchIsValid();
    RunKeepsAttentive(Launch, events);
    var s := Run(Launch, events);
    if Measure(s) == 0 {
      RestIsClean(s);
    }
    hide Run;
  }

  // ---------------------------------------------------------------- what is being served

  /**
   * The navigation is loaded through the active proxy of its scope, or it is the pending one and a
   * start is outstanding, or the last start has failed.
   */
  ghost predicate Serving(s: System, n: Navigation) {
    if s.machine.phase.Active? then
      s.pending.None? && s.last == Some(n) && s.webView && s.activeScope == Some(n.scope)
    else
      && (s.machine.phase.Starting? || s.machine.phase.Failed?)
      && s.pending == Some(n) && s.machine.pendingScope == Some(n.scope)
  }

  /** The newest outstanding start is the current one and is for this scope. */
  ghost predicate StartingFor(s: System, scope: Scope) {
    && s.machine.phase == Starting(s.machine.epoch, scope)
    && Outstanding(s) != [] && Outstanding(s)[|Outstanding(s)| - 1] == StartTask(s.machine.epoch, scope)
  }

  lemma StartIsOutstanding(s: System, scope: Scope)
    requires Inv(s) && s.machine.phase.Starting? && s.machine.phase.scope == scope
    ensures StartingFor(s, scope)
  {
    hide Outstanding;
  }

  /**
   * A navigation in the foreground: it is loaded at once through the active proxy of its scope;
   * otherwise it waits for a start, a new one for its scope unless one is already running.
   */
  lemma NavigationIsTakenUp(s: System, n: Navigation)
    requires Inv(s) && s.machine.foreground
    ensures var next := Step(s, Navigated(n));
      && Serving(next, n) && !next.machine.phase.Failed?
      && (s.machine.phase.Active? && s.machine.phase.scope == n.scope ==> next.machine.phase == s.machine.phase)
      && (s.machine.phase.Starting? ==> next.machine.phase == s.machine.phase)
      && (!s.machine.phase.Starting? && !(s.machine.phase.Active? && s.machine.phase.scope == n.scope) ==> StartingFor(next, n.scope))
  {
    MainMove(s, Navigated(n));
    StepKeepsInv(s, Navigated(n));
    hide Step, Conserved, Epochs, Shape;
    var next := Step(s, Navigated(n));
    if next.machine.phase.Starting? {
      StartIsOutstanding(next, next.machine.phase.scope);
    }
    hide StartingFor;
  }

  /**
   * Coming to the foreground with a scope pending: the pending navigation is served. A machine that
   * was suspended, or had failed, has a new start for exactly that scope.
   */
  lemma ResumeTakesUp(s: System)
    requires Inv(s) && Attentive(s) && s.machine.pendingScope.Some?
    ensures var next := Step(s, CameToForeground);
      && s.pending.Some? && ScopeOf(s.pending) == s.machine.pendingScope && next.machine.foreground
      && Serving(next, s.pending.value) && !next.machine.phase.Failed?
      && (s.machine.phase.Starting? ==> next.machine.phase == s.machine.phase)
      && (!s.machine.phase.Starting? ==> StartingFor(next, s.machine.pendingScope.value))
  {
    MainMove(s, CameToForeground);
    StepKeepsInv(s, CameToForeground);
    hide Step, Conserved, Epochs, Shape;
    var next := Step(s, CameToForeground);
    if next.machine.phase.Starting? {
      StartIsOutstanding(next, next.machine.phase.scope);
    }
    hide StartingFor;
  }

  /** The pending navigation, or else the last one, if it can be loaded again. */
  function LoadedAgain(s: System): Option<Navigation> {
    if s.pending.Some? && s.pending.value.replayable then s.pending
    else if s.last.Some? && s.last.value.replayable then s.last
    else None
  }

  /** Going to the background: nothing is shown, and the page that is safe to load again is what will be pending. */
  lemma SuspensionRetains(s: System)
    requires Inv(s) && !s.destroyed
    ensures var next := Step(s, WentToBackground);
      && next.machine.phase.Suspended? && !next.machine.foreground && !next.webView && next.activeProxy.None?
      && next.machine.pendingScope == ScopeOf(next.pending)
      && next.pending == LoadedAgain(s)
      && (s.activeProxy.Some? ==> next.queue == [JoinTask(s.activeProxy.value)])
  {
    SuspendIsStopped(s);
    hide SuspendAll, Conserved, Epochs;
  }

  /** The renderer dies under a page: its proxy is stopped, and the page that is safe to load again is started anew. */
  lemma RendererDeathRestarts(s: System)
    requires Inv(s) && s.webView
    ensures var next := Step(s, RendererGone);
      var again := LoadedAgain(s);
      && !next.webView && next.activeProxy.None? && s.activeProxy.Some?
      && next.queue != [] && next.queue[0] == JoinTask(s.activeProxy.value)
      && if again.Some? then Serving(next, again.value) && StartingFor(next, again.value.scope)
         else next.machine.phase.Idle? && next.pending.None?
  {
    RendererDiedIsStopped(s);
    StepKeepsInv(s, RendererGone);
    hide RendererDied, Conserved, Epochs;
    var next := Step(s, RendererGone);
    if next.machine.phase.Starting? {
      StartIsOutstanding(next, next.machine.phase.scope);
    }
    hide StartingFor;
  }

  /** A navigation that the page itself makes in the active scope is the one that is loaded from then on. */
  lemma FollowedIsServed(s: System, n: Navigation)
    requires Inv(s) && s.machine.phase == Active(s.machine.epoch, n.scope) && s.pending.None?
    ensures Serving(Step(s, Followed(n)), n) && Step(s, Followed(n)) == s.(last := Some(n))
  {
    hide Conserved, Epochs, Shape;
  }

  // ---------------------------------------------------------------- left alone, it is served

  predicate Failing(e: Event) { e.FailedStart? || e == Succeeded(false) }

  /** Steps that nobody asks for keep serving the navigation; the start fails only where one says so. */
  lemma InternalStepServes(s: System, e: Event, n: Navigation)
    requires Inv(s) && Serving(s, n) && Internal(e)
    ensures Serving(Step(s, e), n)
    ensures Step(s, e).machine.phase.Failed? ==> s.machine.phase.Failed? || Failing(e)
  {
    hide Conserved, Epochs, Shape;
    match e {
      case FailedStart(i) => if i < |s.failures| { FailureOutcome(s, i); }
      case Succeeded(installs) => if s.worker.Offered? { Decision(s, installs); }
      case _ =>
    }
  }

  ghost predicate AllInternal(events: seq<Event>) {
    forall i | 0 <= i < |events| :: Internal(events[i])
  }

  /**
   * A navigation that is being served, and then any internal steps until nothing moves: it has been
   * loaded through a proxy of its scope, or its last start has failed and it is still pending.
   */
  lemma {:induction false} ServedInTheEnd(s: System, events: seq<Event>, n: Navigation)
    requires Inv(s) && Serving(s, n) && AllInternal(events)
    ensures var end := Run(s, events);
      && Inv(end) && Serving(end, n)
      && (end.machine.phase.Failed? ==> s.machine.phase.Failed? || exists i :: 0 <= i < |events| && Failing(events[i]))
      && (Measure(end) == 0 && !end.machine.phase.Failed? ==>
            end.machine.phase.Active? && end.webView && end.last == Some(n) && end.activeScope == Some(n.scope))
    decreases |events|
  {
    if events == [] {
      if Measure(s) == 0 {
        RestIsClean(s);
      }
    } else {
      InternalStepServes(s, events[0], n);
      StepKeepsInv(s, events[0]);
      hide Inv, Serving, Step, Measure;
      ServedInTheEnd(Step(s, events[0]), events[1..], n);
      if exists i :: 0 <= i < |events| - 1 && Failing(events[1..][i]) {
        var i :| 0 <= i < |events| - 1 && Failing(events[1..][i]);
        assert Failing(events[i + 1]);
      }
    }
  }

  // ---------------------------------------------------------------- in the background nothing runs

  lemma StepStaysInBackground(s: System, e: Event)
    requires Inv(s) && !s.machine.foreground && !e.CameToForeground?
    ensures !Step(s, e).machine.foreground
  {
    hide Conserved, Epochs, Shape;
    match e {
      case Navigated(navigation) => MainMove(s, e);
      case WentToBackground => if !s.destroyed { SuspendIsStopped(s); }
      case TornDown => if !s.destroyed { DestroyIsStopped(s); }
      case FailedStart(i) => if i < |s.failures| { FailureOutcome(s, i); }
      case Succeeded(installs) => if s.worker.Offered? { Decision(s, installs); }
      case _ =>
    }
  }

  /** Until the browser comes back to the foreground no proxy is published and no page is shown. */
  lemma {:induction false} BackgroundStaysDark(s: System, events: seq<Event>)
    requires Inv(s) && !s.machine.foreground && CameToForeground !in events
    ensures var end := Run(s, events); !end.machine.foreground && end.activeProxy.None? && !end.webView
    decreases |events|
  {
    if events != [] {
      StepStaysInBackground(s, events[0]);
      StepKeepsInv(s, events[0]);
      hide Inv, Step;
      BackgroundStaysDark(Step(s, events[0]), events[1..]);
    }
  }
}
