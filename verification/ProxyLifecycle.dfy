/**
 * The coordinator around the proxy machine (BrowserProxyCoordinator.swift): main-actor events race
 * a serial lifecycle queue that starts and joins native proxies. A state is everything both sides
 * can see; a run is any interleaving of their steps.
 */
module ProxyLifecycle {
  import opened Prelude
  import opened ProxyMachine

  /** Native proxies are numbered in the order in which they are started. */
  type ProxyId = nat

  datatype Navigation = Navigation(scope: Scope, replayable: bool, request: nat)

  datatype Task = StartTask(epoch: Epoch, scope: Scope) | JoinTask(id: ProxyId)

  /** What the serial queue is doing; `Offered` waits for the main actor's decision. */
  datatype Worker =
    | Free
    | StartingProxy(epoch: Epoch, scope: Scope)
    | Offered(epoch: Epoch, scope: Scope, id: ProxyId)
    | Joining(id: ProxyId)

  datatype System = System(
    machine: Machine,
    activeProxy: Option<ProxyId>,
    activeScope: Option<Scope>,
    webView: bool,
    pending: Option<Navigation>,
    last: Option<Navigation>,
    destroyed: bool,
    queue: seq<Task>,
    worker: Worker,
    failures: seq<Task>,     // callbacks of failed starts that the main actor has not run yet
    retained: bool,          // the disposition of the candidate that is being offered
    created: nat,
    joined: seq<ProxyId>)

  const Launch := System(Initial, None, None, false, None, None, false, [], Free, [], false, 0, [])

  // ---------------------------------------------------------------- the main actor

  function ScopeOf(navigation: Option<Navigation>): Option<Scope> {
    if navigation.Some? then Some(navigation.value.scope) else None
  }

  function RetireActiveProxy(s: System): System {
    if s.activeProxy.None? then s
    else s.(activeProxy := None, activeScope := None, queue := s.queue + [JoinTask(s.activeProxy.value)])
  }

  function StartNative(s: System, epoch: Epoch, scope: Scope): System {
    s.(queue := s.queue + [StartTask(epoch, scope)])
  }

  function AdmitPendingNavigation(s: System, epoch: Epoch, scope: Scope): System {
    if s.activeProxy.None? || s.activeScope != Some(scope) || ScopeOf(s.pending) != Some(scope) then s
    else s.(webView := true, last := s.pending, pending := None, machine := NavigationAdmitted(s.machine, epoch, scope))
  }

  /** The admission of a candidate or of a navigation went wrong; its actions revoke the web view. */
  function RejectAdmission(s: System, epoch: Epoch, scope: Scope): System {
    var outcome := AdmissionFailed(s.machine, epoch, scope);
    s.(machine := outcome.machine, webView := s.webView && outcome.actions == [])
  }

  function Perform(s: System, action: Action, candidate: Option<ProxyId>, installs: bool): System {
    match action
    case RevokeWebView => s.(webView := false)
    case RequestStopActiveProxy => RetireActiveProxy(s)
    case StartProxy(epoch, scope) => StartNative(s, epoch, scope)
    case DisposeStaleProxy => s.(retained := false)
    case DisposeStaleProxyThenStart(epoch, scope) => StartNative(s.(retained := false), epoch, scope)
    case PublishCandidateAndAdmitWebView(epoch, scope) =>
      if candidate.None? then RejectAdmission(s, epoch, scope)
      else if !installs then RejectAdmission(s.(retained := false), epoch, scope)
      else AdmitPendingNavigation(s.(activeProxy := candidate, activeScope := Some(scope), retained := true), epoch, scope)
    case AdmitThroughActiveProxy(epoch, scope) =>
      if s.activeProxy.None? || s.activeScope != Some(scope) then RetireActiveProxy(RejectAdmission(s, epoch, scope))
      else AdmitPendingNavigation(s, epoch, scope)
    case ShowFailure(_) => s
  }

  function Execute(s: System, actions: seq<Action>, candidate: Option<ProxyId>, installs: bool): System
    decreases |actions|
  {
    if actions == [] then s else Execute(Perform(s, actions[0], candidate, installs), actions[1..], candidate, installs)
  }

  function Apply(s: System, outcome: Outcome): System {
    Execute(s.(machine := outcome.machine), outcome.actions, None, false)
  }

  function Enqueue(s: System, navigation: Navigation): System {
    Apply(s.(pending := Some(navigation)), QueueNavigation(s.machine, navigation.scope))
  }

  /** The navigation to replay: the pending one, or else the last one if that is safe. */
  function Replay(pending: Option<Navigation>, last: Option<Navigation>): Option<Navigation> {
    if pending.None? && last.Some? && last.value.replayable then last else pending
  }

  function DiscardUnsafe(pending: Option<Navigation>): Option<Navigation> {
    if pending.Some? && !pending.value.replayable then None else pending
  }

  function ResumeAll(s: System): System {
    if s.destroyed then s
    else Apply(s.(pending := Replay(s.pending, s.last)), ProxyMachine.Resume(s.machine))
  }

  function SuspendAll(s: System): System {
    if s.destroyed then s
    else
      var pending := Replay(DiscardUnsafe(s.pending), s.last);
      Apply(s.(pending := pending), ProxyMachine.Suspend(s.machine, ScopeOf(pending)))
  }

  function RendererDied(s: System): System {
    if !s.webView then s
    else
      var pending := Replay(DiscardUnsafe(s.pending), s.last);
      Apply(s.(pending := pending), ProxyMachine.RendererTerminated(s.machine, ScopeOf(pending)))
  }

  function DestroyAll(s: System): System {
    if s.destroyed then s
    else Apply(s.(destroyed := true, pending := None, last := None), ProxyMachine.Destroy(s.machine))
  }

  /** A main-frame navigation that the web view starts itself; one that is not admitted is enqueued instead. */
  function Follow(s: System, navigation: Navigation): System {
    if s.webView && s.activeProxy.Some? && s.activeScope == Some(navigation.scope)
       && s.machine.phase.Active? && s.machine.phase.scope == navigation.scope
    then s.(last := Some(navigation))
    else s
  }

  function StartFailed(s: System, i: nat): System
    requires i < |s.failures|
  {
    var callback := s.failures[i];
    var rest := s.(failures := s.failures[..i] + s.failures[i + 1..]);
    if callback.StartTask? then Apply(rest, ProxyStarted(s.machine, callback.epoch, callback.scope, false)) else rest
  }

  /** The main actor decides about the offered candidate; the queue then goes on, or joins it. */
  function StartSucceeded(s: System, installs: bool): System
    requires s.worker.Offered?
  {
    var outcome := ProxyStarted(s.machine, s.worker.epoch, s.worker.scope, true);
    var decided := Execute(s.(machine := outcome.machine, retained := false), outcome.actions, Some(s.worker.id), installs);
    decided.(worker := if decided.retained then Free else Joining(s.worker.id))
  }

  // ---------------------------------------------------------------- the serial queue

  function TakeTask(s: System): System
    requires s.worker.Free? && s.queue != []
  {
    var task := s.queue[0];
    s.(queue := s.queue[1..],
       worker := if task.StartTask? then StartingProxy(task.epoch, task.scope) else Joining(task.id))
  }

  function NativeStarted(s: System): System
    requires s.worker.StartingProxy?
  {
    s.(worker := Offered(s.worker.epoch, s.worker.scope, s.created), created := s.created + 1)
  }

  function NativeFailed(s: System): System
    requires s.worker.StartingProxy?
  {
    s.(worker := Free, failures := s.failures + [StartTask(s.worker.epoch, s.worker.scope)])
  }

  function Joined(s: System): System
    requires s.worker.Joining?
  {
    s.(worker := Free, joined := s.joined + [s.worker.id])
  }

  // ---------------------------------------------------------------- steps

  datatype Event =
    | Navigated(navigation: Navigation)
    | Followed(navigation: Navigation)
    | CameToForeground
    | WentToBackground
    | RendererGone
    | TornDown
    | Taken
    | NativeUp
    | NativeDown
    | JoinDone
    | Succeeded(installs: bool)
    | FailedStart(i: nat)

  /** An event that is not possible in a state leaves it alone. */
  function Step(s: System, e: Event): System {
    match e
    case Navigated(navigation) => Enqueue(s, navigation)
    case Followed(navigation) => Follow(s, navigation)
    case CameToForeground => ResumeAll(s)
    case WentToBackground => SuspendAll(s)
    case RendererGone => RendererDied(s)
    case TornDown => DestroyAll(s)
    case Taken => if s.worker.Free? && s.queue != [] then TakeTask(s) else s
    case NativeUp => if s.worker.StartingProxy? then NativeStarted(s) else s
    case NativeDown => if s.worker.StartingProxy? then NativeFailed(s) else s
    case JoinDone => if s.worker.Joining? then Joined(s) else s
    case Succeeded(installs) => if s.worker.Offered? then StartSucceeded(s, installs) else s
    case FailedStart(i) => if i < |s.failures| then StartFailed(s, i) else s
  }

  function Run(s: System, events: seq<Event>): System
    decreases |events|
  {
    if events == [] then s else Run(Step(s, events[0]), events[1..])
  }

  // ---------------------------------------------------------------- the invariant

  ghost predicate Coherent(s: System) {
    var phase := s.machine.phase;
    && (s.destroyed <==> phase.Destroyed?)
    && (s.machine.foreground <==> !phase.Suspended? && !phase.Destroyed?)
    && (phase.Starting? || phase.Active? || phase.Failed? ==> phase.epoch == s.machine.epoch)
    && (phase.Starting? ==> s.machine.pendingScope.Some?)
    && (phase.Active? || phase.Destroyed? ==> s.machine.pendingScope.None?)
    && (s.machine.pendingScope.Some? ==> ScopeOf(s.pending) == s.machine.pendingScope)
    && (s.activeProxy.Some? <==> phase.Active?)
    && s.activeScope == (if phase.Active? then Some(phase.scope) else None)
    && (s.webView <==> phase.Active?)
    && (s.webView ==> ScopeOf(s.last) == s.activeScope)
  }

  /** A join is only ever queued in front, and behind an active proxy the queue is idle. */
  ghost predicate Shape(s: System) {
    && (s.activeProxy.Some? ==> s.queue == [] && s.worker.Free?)
    && (forall i | 1 <= i < |s.queue| :: s.queue[i].StartTask?)
    && (s.queue != [] && s.queue[0].JoinTask? ==> s.worker.Free?)
    && (forall i | 0 <= i < |s.failures| :: s.failures[i].StartTask?)
  }

  /** The one native proxy that has been started and not joined yet. */
  function Held(s: System): Option<ProxyId> {
    if s.activeProxy.Some? then s.activeProxy
    else if s.worker.Offered? || s.worker.Joining? then Some(s.worker.id)
    else if s.queue != [] && s.queue[0].JoinTask? then Some(s.queue[0].id)
    else None
  }

  /** Proxies are joined once each, in the order in which they were started. */
  ghost predicate Conserved(s: System) {
    && (forall i | 0 <= i < |s.joined| :: s.joined[i] == i)
    && (if Held(s).Some? then Held(s).value == |s.joined| && s.created == |s.joined| + 1 else s.created == |s.joined|)
  }

  function WorkerStart(worker: Worker): seq<Task> {
    if worker.StartingProxy? || worker.Offered? then [StartTask(worker.epoch, worker.scope)] else []
  }

  function QueuedStarts(queue: seq<Task>): seq<Task> {
    if queue != [] && queue[0].JoinTask? then queue[1..] else queue
  }

  /** The starts whose callback has not run yet, in the order in which they were scheduled. */
  function Outstanding(s: System): seq<Task> {
    s.failures + WorkerStart(s.worker) + QueuedStarts(s.queue)
  }

  ghost predicate Rising(starts: seq<Task>, epoch: Epoch) {
    && (forall i | 0 <= i < |starts| :: starts[i].StartTask? && starts[i].epoch <= epoch)
    && (forall i, j | 0 <= i < j < |starts| && starts[i].StartTask? && starts[j].StartTask? :: starts[i].epoch < starts[j].epoch)
  }

  /** The machine is starting exactly when the newest outstanding start is of the current epoch. */
  ghost predicate Matches(starts: seq<Task>, m: Machine) {
    if m.phase.Starting? then starts != [] && starts[|starts| - 1] == StartTask(m.epoch, m.phase.scope)
    else forall i | 0 <= i < |starts| && starts[i].StartTask? :: starts[i].epoch < m.epoch
  }

  ghost predicate Epochs(s: System) {
    Rising(Outstanding(s), s.machine.epoch) && Matches(Outstanding(s), s.machine)
  }

  ghost predicate Inv(s: System) {
    Coherent(s) && Shape(s) && Conserved(s) && Epochs(s)
  }

  // ---------------------------------------------------------------- main-actor steps in closed form

  /** The web view goes and the active proxy, if any, is stopped; the machine becomes `m`. */
  function Stopped(s: System, m: Machine): System {
    RetireActiveProxy(s).(machine := m, webView := false)
  }

  function Begun(s: System, scope: Scope): System {
    StartNative(s.(machine := BeginStart(s.machine, scope).machine), s.machine.epoch + 1, scope)
  }

  /** What `Pursue` leads to once its actions are carried out. */
  function Pursued(s: System, scope: Scope): System {
    match s.machine.phase
    case Idle => Begun(s, scope)
    case Failed(_, _) => Begun(s, scope)
    case Active(epoch, activeScope) =>
      if activeScope == scope then Perform(s, AdmitThroughActiveProxy(epoch, scope), None, false)
      else Begun(Stopped(s, s.machine.(phase := Idle)), scope)
    case _ => s
  }

  lemma ExecuteOne(s: System, a: Action, candidate: Option<ProxyId>, installs: bool)
    ensures Execute(s, [a], candidate, installs) == Perform(s, a, candidate, installs)
  {
    assert [a][1..] == [];
    hide Perform;
  }

  lemma ExecuteTwo(s: System, a: Action, b: Action)
    ensures Execute(s, [a, b], None, false) == Perform(Perform(s, a, None, false), b, None, false)
  {
    assert [a, b][1..] == [b];
    ExecuteOne(Perform(s, a, None, false), b, None, false);
    hide Perform;
  }

  lemma ExecuteThree(s: System, a: Action, b: Action, c: Action)
    ensures Execute(s, [a, b, c], None, false) == Perform(Perform(Perform(s, a, None, false), b, None, false), c, None, false)
  {
    assert [a, b, c][1..] == [b, c];
    ExecuteTwo(Perform(s, a, None, false), b, c);
    hide Perform;
  }

  lemma PursueIsPursued(s: System, scope: Scope)
    ensures Apply(s, Pursue(s.machine, scope)) == Pursued(s, scope)
  {
    var outcome := Pursue(s.machine, scope);
    var moved := s.(machine := outcome.machine);
    match s.machine.phase {
      case Active(epoch, activeScope) =>
        if activeScope == scope {
          ExecuteOne(moved, AdmitThroughActiveProxy(epoch, activeScope), None, false);
        } else {
          assert outcome.actions == [RevokeWebView, RequestStopActiveProxy, StartProxy(s.machine.epoch + 1, scope)];
          ExecuteThree(moved, RevokeWebView, RequestStopActiveProxy, StartProxy(s.machine.epoch + 1, scope));
        }
      case Idle => ExecuteOne(moved, StartProxy(s.machine.epoch + 1, scope), None, false);
      case Failed(_, _) => ExecuteOne(moved, StartProxy(s.machine.epoch + 1, scope), None, false);
      case _ =>
    }
  }

  lemma RetiringStops(s: System, m: Machine, phase: Phase)
    requires s.activeProxy.Some? ==> phase.Active?
    ensures Execute(s.(machine := m), Retiring(phase), None, false) == Stopped(s, m)
  {
    var moved := s.(machine := m);
    if phase.Active? {
      assert Retiring(phase) == [RevokeWebView, RequestStopActiveProxy];
      ExecuteTwo(moved, RevokeWebView, RequestStopActiveProxy);
    } else {
      assert Retiring(phase) == [RevokeWebView];
      ExecuteOne(moved, RevokeWebView, None, false);
    }
  }

  /** What suspension and the death of the renderer retain. */
  function Retained(s: System): Option<Navigation> {
    Replay(DiscardUnsafe(s.pending), s.last)
  }

  lemma SuspendIsStopped(s: System)
    requires Coherent(s) && !s.destroyed
    ensures SuspendAll(s)
      == Stopped(s.(pending := Retained(s)), Machine(Suspended, s.machine.epoch + 1, ScopeOf(Retained(s)), false))
  {
    RetiringStops(s.(pending := Retained(s)), ProxyMachine.Suspend(s.machine, ScopeOf(Retained(s))).machine, s.machine.phase);
  }

  lemma DestroyIsStopped(s: System)
    requires Coherent(s) && !s.destroyed
    ensures DestroyAll(s)
      == Stopped(s.(destroyed := true, pending := None, last := None), Machine(Destroyed, s.machine.epoch + 1, None, false))
  {
    RetiringStops(s.(destroyed := true, pending := None, last := None), ProxyMachine.Destroy(s.machine).machine, s.machine.phase);
  }

  /** A web view is only there in the active phase. */
  lemma RendererDiedIsStopped(s: System)
    requires Coherent(s) && s.webView
    ensures var scope := ScopeOf(Retained(s));
      var stopped := Stopped(s.(pending := Retained(s)), Machine(Idle, s.machine.epoch + 1, scope, true));
      RendererDied(s) == if scope.Some? then Begun(stopped, scope.value) else stopped
  {
    var kept := s.(pending := Retained(s));
    var outcome := ProxyMachine.RendererTerminated(s.machine, ScopeOf(Retained(s)));
    assert Retiring(s.machine.phase) == [RevokeWebView, RequestStopActiveProxy];
    if ScopeOf(Retained(s)).Some? {
      var start := StartProxy(s.machine.epoch + 2, ScopeOf(Retained(s)).value);
      assert outcome.actions == [RevokeWebView, RequestStopActiveProxy, start];
      ExecuteThree(kept.(machine := outcome.machine), RevokeWebView, RequestStopActiveProxy, start);
    } else {
      RetiringStops(kept, outcome.machine, s.machine.phase);
    }
  }

  // ---------------------------------------------------------------- every step keeps the invariant

  lemma StoppedKeepsInv(s: System, m: Machine, pending: Option<Navigation>, last: Option<Navigation>)
    requires Inv(s) && (m.phase.Idle? || m.phase.Suspended? || m.phase.Destroyed?) && (m.foreground <==> m.phase.Idle?)
    requires m.epoch > s.machine.epoch || (m.epoch == s.machine.epoch && !s.machine.phase.Starting?)
    requires m.pendingScope.Some? ==> ScopeOf(pending) == m.pendingScope && !m.phase.Destroyed?
    ensures Inv(Stopped(s.(pending := pending, last := last, destroyed := m.phase.Destroyed?), m))
  {
    var next := Stopped(s.(pending := pending, last := last, destroyed := m.phase.Destroyed?), m);
    assert Outstanding(next) == Outstanding(s);
    assert Epochs(next) by {
      hide Outstanding, Stopped;
      LaterEpoch(Outstanding(s), s.machine, m);
    }
    hide Epochs, Outstanding;
  }

  /** Leaving a phase does not disturb the outstanding starts. */
  lemma LaterEpoch(starts: seq<Task>, before: Machine, after: Machine)
    requires Rising(starts, before.epoch) && Matches(starts, before) && !after.phase.Starting?
    requires after.epoch > before.epoch || (after.epoch == before.epoch && !before.phase.Starting?)
    ensures Rising(starts, after.epoch) && Matches(starts, after)
  {
  }

  lemma BegunKeepsInv(s: System, scope: Scope)
    requires Inv(s) && (s.machine.phase.Idle? || s.machine.phase.Failed?) && s.machine.pendingScope.Some?
    ensures Inv(Begun(s, scope))
  {
    var next := Begun(s, scope);
    var start := StartTask(s.machine.epoch + 1, scope);
    assert Outstanding(next) == Outstanding(s) + [start];
    assert Epochs(next) by {
      hide Outstanding;
      OneMoreStart(Outstanding(s), s.machine.epoch, start);
    }
    hide Epochs, Outstanding;
  }

  lemma OneMoreStart(starts: seq<Task>, epoch: Epoch, start: Task)
    requires Rising(starts, epoch) && start.StartTask? && start.epoch == epoch + 1
    ensures Rising(starts + [start], epoch + 1)
  {
  }

  /** The pending navigation of the active scope is loaded and nothing stays pending. */
  lemma AdmissionKeepsInv(s: System, pending: Option<Navigation>)
    requires Inv(s) && s.machine.phase.Active?
    requires ScopeOf(pending) == Some(s.machine.phase.scope)
    ensures var queued := s.(pending := pending, machine := s.machine.(pendingScope := ScopeOf(pending)));
      var next := Perform(queued, AdmitThroughActiveProxy(s.machine.epoch, s.machine.phase.scope), None, false);
      Inv(next) && next.last == pending && next.webView && next.pending == None
  {
    var queued := s.(pending := pending, machine := s.machine.(pendingScope := ScopeOf(pending)));
    var next := Perform(queued, AdmitThroughActiveProxy(s.machine.epoch, s.machine.phase.scope), None, false);
    assert Outstanding(next) == Outstanding(s);
    hide Outstanding;
  }

  lemma EnqueueKeepsInv(s: System, navigation: Navigation)
    requires Inv(s)
    ensures Inv(Enqueue(s, navigation))
  {
    var m := s.machine;
    var queued := s.(pending := Some(navigation), machine := m.(pendingScope := Some(navigation.scope)));
    if m.foreground {
      assert Enqueue(s, navigation) == Apply(queued, Pursue(queued.machine, navigation.scope));
      PursueIsPursued(queued, navigation.scope);
      PursuedKeepsInv(s, Some(navigation));
    } else {
      PendingKeepsInv(s, Some(navigation), if m.phase.Destroyed? then None else Some(navigation.scope));
    }
  }

  /** Outside the active phase any scope can be pending, if the pending navigation has it. */
  lemma PendingKeepsInv(s: System, pending: Option<Navigation>, scope: Option<Scope>)
    requires Inv(s) && (scope.Some? ==> ScopeOf(pending) == scope)
    requires (s.machine.phase.Active? || s.machine.phase.Destroyed? ==> scope.None?) && (s.machine.phase.Starting? ==> scope.Some?)
    ensures Inv(s.(pending := pending, machine := s.machine.(pendingScope := scope)))
  {
    assert Outstanding(s.(pending := pending, machine := s.machine.(pendingScope := scope))) == Outstanding(s);
    hide Outstanding;
  }

  lemma PursuedKeepsInv(s: System, pending: Option<Navigation>)
    requires Inv(s) && s.machine.foreground && pending.Some?
    ensures var scope := pending.value.scope;
      Inv(Pursued(s.(pending := pending, machine := s.machine.(pendingScope := Some(scope))), scope))
  {
    var scope := pending.value.scope;
    var queued := s.(pending := pending, machine := s.machine.(pendingScope := Some(scope)));
    if s.machine.phase.Active? {
      assert s.machine.phase.epoch == s.machine.epoch && !s.destroyed;
      if s.machine.phase.scope == scope {
        AdmissionKeepsInv(s, pending);
      } else {
        var idle := queued.machine.(phase := Idle);
        StoppedKeepsInv(s, idle, pending, s.last);
        assert Stopped(queued, idle) == Stopped(s.(pending := pending, last := s.last, destroyed := false), idle);
        hide Inv;
        BegunKeepsInv(Stopped(queued, idle), scope);
      }
    } else {
      PendingKeepsInv(s, pending, Some(scope));
      if s.machine.phase.Idle? || s.machine.phase.Failed? {
        hide Inv;
        BegunKeepsInv(queued, scope);
      }
    }
  }

  lemma ResumeKeepsInv(s: System)
    requires Inv(s)
    ensures Inv(ResumeAll(s))
  {
    if !s.destroyed {
      var pending := Replay(s.pending, s.last);
      var m := s.machine;
      var woken := m.(foreground := true, phase := if m.phase.Suspended? then Idle else m.phase);
      var resumed := s.(pending := pending, machine := woken);
      WakingKeepsInv(s, pending);
      if m.pendingScope.Some? {
        assert ResumeAll(s) == Apply(resumed, Pursue(woken, m.pendingScope.value));
        PursueIsPursued(resumed, m.pendingScope.value);
        PursuedKeepsInv(resumed, pending);
      } else {
        assert ResumeAll(s) == resumed;
      }
    }
  }

  lemma WakingKeepsInv(s: System, pending: Option<Navigation>)
    requires Inv(s) && !s.destroyed && (s.machine.pendingScope.Some? ==> ScopeOf(pending) == s.machine.pendingScope)
    ensures var m := s.machine;
      Inv(s.(pending := pending, machine := m.(foreground := true, phase := if m.phase.Suspended? then Idle else m.phase)))
  {
    var m := s.machine;
    var resumed := s.(pending := pending, machine := m.(foreground := true, phase := if m.phase.Suspended? then Idle else m.phase));
    assert Outstanding(resumed) == Outstanding(s);
    hide Outstanding;
  }

  lemma SuspendKeepsInv(s: System)
    requires Inv(s)
    ensures Inv(SuspendAll(s))
  {
    if !s.destroyed {
      SuspendIsStopped(s);
      StoppedKeepsInv(s, Machine(Suspended, s.machine.epoch + 1, ScopeOf(Retained(s)), false), Retained(s), s.last);
    }
  }

  lemma DestroyKeepsInv(s: System)
    requires Inv(s)
    ensures Inv(DestroyAll(s))
  {
    if !s.destroyed {
      DestroyIsStopped(s);
      StoppedKeepsInv(s, Machine(Destroyed, s.machine.epoch + 1, None, false), None, None);
    }
  }

  lemma RendererDiedKeepsInv(s: System)
    requires Inv(s)
    ensures Inv(RendererDied(s))
  {
    if s.webView {
      RendererDiedIsStopped(s);
      var scope := ScopeOf(Retained(s));
      var idle := Machine(Idle, s.machine.epoch + 1, scope, true);
      StoppedKeepsInv(s, idle, Retained(s), s.last);
      assert !s.destroyed;
      assert s.(pending := Retained(s), last := s.last, destroyed := false) == s.(pending := Retained(s));
      hide Inv;
      if scope.Some? {
        BegunKeepsInv(Stopped(s.(pending := Retained(s)), idle), scope.value);
      }
    }
  }

  lemma FollowKeepsInv(s: System, navigation: Navigation)
    requires Inv(s)
    ensures Inv(Follow(s, navigation))
  {
    assert Outstanding(Follow(s, navigation)) == Outstanding(s);
    hide Outstanding;
  }

  // ---------------------------------------------------------------- callbacks and the queue

  function Without(starts: seq<Task>, i: nat): seq<Task>
    requires i < |starts|
  {
    starts[..i] + starts[i + 1..]
  }

  /** A start whose callback has run is no longer outstanding. */
  lemma OneFewerStart(starts: seq<Task>, i: nat, before: Machine, after: Machine)
    requires i < |starts| && Rising(starts, before.epoch) && Matches(starts, before) && after.epoch == before.epoch
    requires if before.phase.Starting? && starts[i] == StartTask(before.epoch, before.phase.scope)
             then !after.phase.Starting? else after.phase == before.phase
    ensures Rising(Without(starts, i), after.epoch) && Matches(Without(starts, i), after)
  {
    var rest := Without(starts, i);
    assert forall j | 0 <= j < |rest| :: rest[j] == starts[if j < i then j else j + 1];
  }

  /** A callback of the current start finds no newer start behind it. */
  lemma CurrentIsLast(starts: seq<Task>, i: nat, m: Machine)
    requires i < |starts| && Rising(starts, m.epoch) && Matches(starts, m) && m.phase.Starting?
    requires starts[i] == StartTask(m.epoch, m.phase.scope)
    ensures i == |starts| - 1
  {
  }

  function Dropped(s: System, i: nat): System
    requires i < |s.failures|
  {
    s.(failures := Without(s.failures, i))
  }

  lemma DroppedKeepsInv(s: System, i: nat, phase: Phase)
    requires Inv(s) && i < |s.failures|
    requires if s.machine.phase.Starting? && s.failures[i] == StartTask(s.machine.epoch, s.machine.phase.scope)
             then phase == Failed(s.machine.epoch, s.machine.phase.scope) else phase == s.machine.phase
    ensures Inv(Dropped(s, i).(machine := s.machine.(phase := phase)))
  {
    var next := Dropped(s, i).(machine := s.machine.(phase := phase));
    assert Outstanding(s)[i] == s.failures[i];
    assert Outstanding(next) == Without(Outstanding(s), i);
    assert Epochs(next) by {
      hide Outstanding;
      OneFewerStart(Outstanding(s), i, s.machine, next.machine);
    }
    hide Epochs, Outstanding;
  }

  /** What the callback of a failed start does, case by case. */
  lemma FailureOutcome(s: System, i: nat)
    requires Inv(s) && i < |s.failures|
    ensures var m := s.machine; var callback := s.failures[i]; var next := StartFailed(s, i);
      callback.StartTask? &&
      if m.phase != Starting(callback.epoch, callback.scope) then next == Dropped(s, i)
      else
        var failed := Dropped(s, i).(machine := m.(phase := Failed(callback.epoch, callback.scope)));
        if m.pendingScope.Some? && m.pendingScope.value != callback.scope then next == Begun(failed, m.pendingScope.value)
        else next == failed
  {
    var callback := s.failures[i];
    var outcome := ProxyStarted(s.machine, callback.epoch, callback.scope, false);
    if outcome.actions != [] {
      assert outcome.actions == [outcome.actions[0]];
      ExecuteOne(Dropped(s, i).(machine := outcome.machine), outcome.actions[0], None, false);
    }
  }

  lemma StartFailedKeepsInv(s: System, i: nat)
    requires Inv(s) && i < |s.failures|
    ensures Inv(StartFailed(s, i))
  {
    FailureOutcome(s, i);
    var callback := s.failures[i];
    var m := s.machine;
    hide StartFailed;
    if m.phase == Starting(callback.epoch, callback.scope) {
      var failed := Failed(callback.epoch, callback.scope);
      DroppedKeepsInv(s, i, failed);
      hide Inv;
      if m.pendingScope.Some? && m.pendingScope.value != callback.scope {
        BegunKeepsInv(Dropped(s, i).(machine := m.(phase := failed)), m.pendingScope.value);
      }
    } else {
      DroppedKeepsInv(s, i, m.phase);
    }
  }

  /** The offered candidate is to be joined; the machine is left in `phase`. */
  function Disposed(s: System, phase: Phase): System
    requires s.worker.Offered?
  {
    s.(worker := Joining(s.worker.id), retained := false, machine := s.machine.(phase := phase))
  }

  lemma DisposedKeepsInv(s: System, phase: Phase)
    requires Inv(s) && s.worker.Offered?
    requires if s.machine.phase == Starting(s.worker.epoch, s.worker.scope)
             then phase.Idle? || phase == Failed(s.worker.epoch, s.worker.scope) else phase == s.machine.phase
    ensures Inv(Disposed(s, phase))
  {
    var next := Disposed(s, phase);
    var i := |s.failures|;
    assert Outstanding(s)[i] == StartTask(s.worker.epoch, s.worker.scope);
    assert Outstanding(next) == Without(Outstanding(s), i);
    assert Epochs(next) by {
      hide Outstanding;
      OneFewerStart(Outstanding(s), i, s.machine, next.machine);
    }
    hide Epochs, Outstanding;
  }

  /** The candidate becomes the active proxy and the pending navigation is loaded through it. */
  function Published(s: System): System
    requires s.worker.Offered?
  {
    s.(worker := Free, retained := true, activeProxy := Some(s.worker.id), activeScope := Some(s.worker.scope),
       webView := true, last := s.pending, pending := None,
       machine := s.machine.(phase := Active(s.worker.epoch, s.worker.scope), pendingScope := None))
  }

  lemma PublishedKeepsInv(s: System)
    requires Inv(s) && s.worker.Offered? && s.machine.phase == Starting(s.worker.epoch, s.worker.scope)
    requires s.machine.pendingScope == Some(s.worker.scope)
    ensures Inv(Published(s))
  {
    var next := Published(s);
    var i := |s.failures|;
    assert Outstanding(s)[i] == StartTask(s.worker.epoch, s.worker.scope);
    CurrentIsLast(Outstanding(s), i, s.machine);
    assert s.queue == [];
    assert Outstanding(next) == Without(Outstanding(s), i);
    assert Epochs(next) by {
      hide Outstanding;
      OneFewerStart(Outstanding(s), i, s.machine, next.machine);
    }
    hide Epochs, Outstanding;
  }

  /** What the main actor decides about an offered candidate, case by case. */
  lemma Decision(s: System, installs: bool)
    requires Inv(s) && s.worker.Offered?
    ensures var m := s.machine; var next := StartSucceeded(s, installs);
      if m.phase != Starting(s.worker.epoch, s.worker.scope) then next == Disposed(s, m.phase)
      else if m.pendingScope != Some(s.worker.scope) then
        m.pendingScope.Some? && next == Begun(Disposed(s, Idle), m.pendingScope.value)
      else if installs then next == Published(s)
      else next == Disposed(s, Failed(s.worker.epoch, s.worker.scope))
  {
    var m := s.machine;
    var outcome := ProxyStarted(m, s.worker.epoch, s.worker.scope, true);
    var moved := s.(machine := outcome.machine, retained := false);
    assert |outcome.actions| == 1 && outcome.actions == [outcome.actions[0]];
    ExecuteOne(moved, outcome.actions[0], Some(s.worker.id), installs);
  }

  lemma StartSucceededKeepsInv(s: System, installs: bool)
    requires Inv(s) && s.worker.Offered?
    ensures Inv(StartSucceeded(s, installs))
  {
    Decision(s, installs);
    var m := s.machine;
    if m.phase != Starting(s.worker.epoch, s.worker.scope) {
      DisposedKeepsInv(s, m.phase);
    } else if m.pendingScope != Some(s.worker.scope) {
      DisposedKeepsInv(s, Idle);
      hide Inv, StartSucceeded;
      BegunKeepsInv(Disposed(s, Idle), m.pendingScope.value);
    } else if installs {
      PublishedKeepsInv(s);
    } else {
      DisposedKeepsInv(s, Failed(s.worker.epoch, s.worker.scope));
    }
  }

  lemma TakeKeepsInv(s: System)
    requires Inv(s) && s.worker.Free? && s.queue != []
    ensures Inv(TakeTask(s))
  {
    hide Rising, Matches;
    assert Outstanding(TakeTask(s)) == Outstanding(s);
    hide Outstanding;
  }

  lemma NativeStartKeepsInv(s: System)
    requires Inv(s) && s.worker.StartingProxy?
    ensures Inv(NativeStarted(s)) && Inv(NativeFailed(s))
  {
    hide Rising, Matches;
    assert Outstanding(NativeStarted(s)) == Outstanding(s);
    assert Outstanding(NativeFailed(s)) == Outstanding(s);
    hide Outstanding;
  }

  lemma JoinKeepsInv(s: System)
    requires Inv(s) && s.worker.Joining?
    ensures Inv(Joined(s))
  {
    hide Rising, Matches;
    assert Outstanding(Joined(s)) == Outstanding(s);
    hide Outstanding;
  }

  lemma StepKeepsInv(s: System, e: Event)
    requires Inv(s)
    ensures Inv(Step(s, e))
  {
    hide Inv;
    match e {
      case Navigated(navigation) => EnqueueKeepsInv(s, navigation);
      case Followed(navigation) => FollowKeepsInv(s, navigation);
      case CameToForeground => ResumeKeepsInv(s);
      case WentToBackground => SuspendKeepsInv(s);
      case RendererGone => RendererDiedKeepsInv(s);
      case TornDown => DestroyKeepsInv(s);
      case Succeeded(installs) => if s.worker.Offered? { StartSucceededKeepsInv(s, installs); }
      case FailedStart(i) => if i < |s.failures| { StartFailedKeepsInv(s, i); }
      case Taken => if s.worker.Free? && s.queue != [] { TakeKeepsInv(s); }
      case NativeUp => if s.worker.StartingProxy? { NativeStartKeepsInv(s); }
      case NativeDown => if s.worker.StartingProxy? { NativeStartKeepsInv(s); }
      case JoinDone => if s.worker.Joining? { JoinKeepsInv(s); }
    }
  }

  /** Every state of every interleaving satisfies the invariant. */
  lemma {:induction false} RunKeepsInv(s: System, events: seq<Event>)
    requires Inv(s)
    ensures Inv(Run(s, events))
    decreases |events|
  {
    hide Inv, Step;
    if events != [] {
      StepKeepsInv(s, events[0]);
      RunKeepsInv(Step(s, events[0]), events[1..]);
    }
  }

  lemma LaunchIsValid()
    ensures Inv(Launch)
  {
  }

  // ---------------------------------------------------------------- what holds in every run

  function JoinIds(queue: seq<Task>): seq<ProxyId> {
    if queue == [] then []
    else (if queue[0].JoinTask? then [queue[0].id] else []) + JoinIds(queue[1..])
  }

  /** Every place where a proxy can be that has been started and not joined. */
  function Unjoined(s: System): seq<ProxyId> {
    (if s.activeProxy.Some? then [s.activeProxy.value] else [])
    + (if s.worker.Offered? || s.worker.Joining? then [s.worker.id] else [])
    + JoinIds(s.queue)
  }

  lemma {:induction false} NoJoinIds(queue: seq<Task>)
    requires forall i | 0 <= i < |queue| :: queue[i].StartTask?
    ensures JoinIds(queue) == []
  {
    if queue != [] {
      NoJoinIds(queue[1..]);
    }
  }

  lemma UnjoinedIsHeld(s: System)
    requires Shape(s)
    ensures Unjoined(s) == if Held(s).Some? then [Held(s).value] else []
  {
    if s.queue != [] {
      NoJoinIds(s.queue[1..]);
      if s.queue[0].StartTask? {
        NoJoinIds(s.queue);
      }
    }
  }

  lemma {:induction false} Enumeration(ids: seq<ProxyId>, id: ProxyId)
    requires forall i | 0 <= i < |ids| :: ids[i] == i
    ensures multiset(ids)[id] == if id < |ids| then 1 else 0
  {
    if ids != [] {
      var front := ids[..|ids| - 1];
      Enumeration(front, id);
      assert ids == front + [ids[|ids| - 1]];
    }
  }

  /**
   * In every interleaving at most one native proxy is un-joined, and every proxy ever started is in
   * exactly one place: active, offered, waiting for its join, or joined once.
   */
  lemma AtMostOneUnjoined(events: seq<Event>)
    ensures var s := Run(Launch, events);
      |Unjoined(s)| <= 1 && forall id: ProxyId :: multiset(Unjoined(s) + s.joined)[id] == if id < s.created then 1 else 0
  {
    hide Launch, Run, Unjoined;
    LaunchIsValid();
    RunKeepsInv(Launch, events);
    OnePlaceEach(Run(Launch, events));
  }

  lemma OnePlaceEach(s: System)
    requires Shape(s) && Conserved(s)
    ensures |Unjoined(s)| <= 1
    ensures forall id: ProxyId :: multiset(Unjoined(s) + s.joined)[id] == if id < s.created then 1 else 0
  {
    UnjoinedIsHeld(s);
    hide Unjoined, Shape;
    forall id: ProxyId
      ensures multiset(Unjoined(s) + s.joined)[id] == if id < s.created then 1 else 0
    {
      OnePlace(Unjoined(s), s.joined, s.created, id);
    }
  }

  lemma OnePlace(unjoined: seq<ProxyId>, joined: seq<ProxyId>, created: nat, id: ProxyId)
    requires forall i | 0 <= i < |joined| :: joined[i] == i
    requires if unjoined == [] then created == |joined| else unjoined == [|joined|] && created == |joined| + 1
    ensures multiset(unjoined + joined)[id] == if id < created then 1 else 0
  {
    Enumeration(joined, id);
    assert multiset(unjoined + joined) == multiset(unjoined) + multiset(joined);
  }

  /** A proxy is active exactly in the active phase, with its scope, and the page shown is of that scope. */
  lemma ActiveMeansPublished(events: seq<Event>)
    ensures var s := Run(Launch, events);
      && (s.activeProxy.Some? <==> s.machine.phase.Active?) && (s.webView <==> s.machine.phase.Active?)
      && (s.machine.phase.Active? ==>
            Some(s.machine.phase.scope) == s.activeScope == ScopeOf(s.last) && s.machine.phase.epoch == s.machine.epoch)
  {
    LaunchIsValid();
    RunKeepsInv(Launch, events);
  }

  /** The starting phase has exactly one outstanding start, the newest; no other phase has one of its epoch. */
  lemma StartingHasOneStart(events: seq<Event>)
    ensures var s := Run(Launch, events); var starts := Outstanding(s);
      && (forall i | 0 <= i < |starts| :: starts[i].StartTask?)
      && (forall i, j | 0 <= i < j < |starts| :: starts[i].epoch < starts[j].epoch)
      && (forall i | 0 <= i < |starts| ::
            (starts[i].epoch == s.machine.epoch <==> i == |starts| - 1 && s.machine.phase == Starting(starts[i].epoch, starts[i].scope)))
      && (s.machine.phase.Starting? ==> starts != [])
  {
    LaunchIsValid();
    RunKeepsInv(Launch, events);
    hide Outstanding;
    var s := Run(Launch, events);
    OutstandingFacts(Outstanding(s), s.machine);
  }

  lemma OutstandingFacts(starts: seq<Task>, m: Machine)
    requires Rising(starts, m.epoch) && Matches(starts, m) && (m.phase.Starting? ==> m.phase.epoch == m.epoch)
    ensures forall i | 0 <= i < |starts| :: starts[i].StartTask?
    ensures forall i, j | 0 <= i < j < |starts| :: starts[i].epoch < starts[j].epoch
    ensures forall i | 0 <= i < |starts| ::
      (starts[i].epoch == m.epoch <==> i == |starts| - 1 && m.phase == Starting(starts[i].epoch, starts[i].scope))
  {
  }

  /**
   * A step publishes a proxy only by accepting the offered candidate of the current epoch, for the
   * newest queued scope, and it loads exactly the newest queued navigation through it.
   */
  lemma PublishesTheNewest(events: seq<Event>, e: Event)
    requires var s := Run(Launch, events); var next := Step(s, e);
      next.activeProxy.Some? && next.activeProxy != s.activeProxy
    ensures var s := Run(Launch, events); var next := Step(s, e);
      && e == Succeeded(true) && s.worker.Offered? && s.worker.epoch == s.machine.epoch
      && s.activeProxy.None? && next.activeProxy == Some(s.worker.id) && next.activeScope == Some(s.worker.scope)
      && s.machine.pendingScope == ScopeOf(s.pending) == Some(s.worker.scope)
      && next.last == s.pending && next.pending.None? && next.webView
  {
    hide Launch, Run;
    LaunchIsValid();
    RunKeepsInv(Launch, events);
    var s := Run(Launch, events);
    OnlySuccessPublishes(s, e);
    Decision(s, e.installs);
    hide StartSucceeded;
  }

  lemma OnlySuccessPublishes(s: System, e: Event)
    requires Inv(s) && Step(s, e).activeProxy.Some? && Step(s, e).activeProxy != s.activeProxy
    ensures e.Succeeded? && s.worker.Offered?
  {
    hide Conserved, Epochs;
    match e {
      case Navigated(navigation) =>
        var queued := s.(pending := Some(navigation), machine := s.machine.(pendingScope := Some(navigation.scope)));
        PursueIsPursued(queued, navigation.scope);
      case CameToForeground =>
        var pending := Replay(s.pending, s.last);
        var m := s.machine;
        var resumed := s.(pending := pending, machine := m.(foreground := true, phase := if m.phase.Suspended? then Idle else m.phase));
        if m.pendingScope.Some? {
          PursueIsPursued(resumed, m.pendingScope.value);
        }
      case WentToBackground => if !s.destroyed { SuspendIsStopped(s); }
      case RendererGone => if s.webView { RendererDiedIsStopped(s); }
      case TornDown => if !s.destroyed { DestroyIsStopped(s); }
      case FailedStart(i) => if i < |s.failures| { FailureOutcome(s, i); }
      case _ =>
    }
  }

  ghost predicate Unsafe(navigation: Option<Navigation>) {
    navigation.Some? && !navigation.value.replayable
  }

  /** An unsafe pending navigation is an old one or the one just queued, and a load uses it up. */
  ghost predicate HandlesUnsafe(s: System, next: System, queued: Option<Navigation>) {
    && (Unsafe(next.pending) ==> next.pending == s.pending || next.pending == queued)
    && (next.last.Some? && next.last != s.last ==> next.pending.None?)
  }

  /** A pursuit either loads the pending navigation or leaves the navigations alone. */
  predicate LoadsOrKeeps(s: System, next: System) {
    (next.pending == s.pending && next.last == s.last) || (next.pending.None? && next.last == s.pending)
  }

  lemma AdmissionLoadsOrKeeps(s: System, epoch: Epoch, scope: Scope)
    ensures LoadsOrKeeps(s, Perform(s, AdmitThroughActiveProxy(epoch, scope), None, false))
  {
    hide NavigationAdmitted, AdmissionFailed;
  }

  lemma PursuitLoadsOrKeeps(s: System, scope: Scope)
    ensures LoadsOrKeeps(s, Pursued(s, scope))
  {
    hide Perform, BeginStart;
    if s.machine.phase.Active? {
      AdmissionLoadsOrKeeps(s, s.machine.phase.epoch, scope);
    }
  }

  lemma MovesHandleUnsafe(s: System, e: Event)
    requires Inv(s) && (e.Navigated? || e.CameToForeground?)
    ensures HandlesUnsafe(s, Step(s, e), if e.Navigated? then Some(e.navigation) else None)
  {
    hide Inv, Pursued;
    var m := s.machine;
    if e.Navigated? {
      var machine := m.(pendingScope := Some(e.navigation.scope));
      PursueIsPursued(s.(pending := Some(e.navigation), machine := machine), e.navigation.scope);
      PursuitLoadsOrKeeps(s.(pending := Some(e.navigation), machine := machine), e.navigation.scope);
    } else if m.pendingScope.Some? {
      var pending := Replay(s.pending, s.last);
      var machine := m.(foreground := true, phase := if m.phase.Suspended? then Idle else m.phase);
      PursueIsPursued(s.(pending := pending, machine := machine), m.pendingScope.value);
      PursuitLoadsOrKeeps(s.(pending := pending, machine := machine), m.pendingScope.value);
    }
  }

  /**
   * A navigation that cannot be replayed becomes pending only by being queued, stops being pending
   * when the browser is suspended or the renderer dies, and is used up by being loaded.
   */
  lemma UnsafeIsNeverReplayed(s: System, e: Event)
    requires Inv(s)
    ensures var next := Step(s, e);
      && (e.Followed? || HandlesUnsafe(s, next, if e.Navigated? then Some(e.navigation) else None))
      && (e.Followed? ==> next.pending == s.pending)
      && ((e.WentToBackground? && !s.destroyed) || (e.RendererGone? && s.webView) ==> !Unsafe(next.pending))
  {
    hide Conserved, Epochs, Shape;
    match e {
      case Navigated(navigation) => MovesHandleUnsafe(s, e); hide Step;
      case CameToForeground => MovesHandleUnsafe(s, e); hide Step;
      case WentToBackground => if !s.destroyed { SuspendIsStopped(s); }
      case RendererGone => if s.webView { RendererDiedIsStopped(s); }
      case TornDown => if !s.destroyed { DestroyIsStopped(s); }
      case FailedStart(i) => if i < |s.failures| { FailureOutcome(s, i); }
      case Succeeded(installs) => if s.worker.Offered? { Decision(s, installs); }
      case _ =>
    }
  }
}
