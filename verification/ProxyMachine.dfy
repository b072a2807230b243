/** The scope-bound admission model of the iOS browser proxy (BrowserProxyStateMachine.swift). */
module ProxyMachine {
  import opened Prelude

  datatype Scope = Icann | HandshakeRoot(root: string)

  /** Epochs are unbounded. */
  type Epoch = nat

  datatype Phase =
    | Suspended
    | Idle
    | Starting(epoch: Epoch, scope: Scope)
    | Active(epoch: Epoch, scope: Scope)
    | Failed(epoch: Epoch, scope: Scope)
    | Destroyed

  datatype Action =
    | RevokeWebView
    | RequestStopActiveProxy
    | StartProxy(epoch: Epoch, scope: Scope)
    | DisposeStaleProxy
    | DisposeStaleProxyThenStart(epoch: Epoch, scope: Scope)
    | PublishCandidateAndAdmitWebView(epoch: Epoch, scope: Scope)
    | AdmitThroughActiveProxy(epoch: Epoch, scope: Scope)
    | ShowFailure(epoch: Epoch)

  datatype Machine = Machine(phase: Phase, epoch: Epoch, pendingScope: Option<Scope>, foreground: bool)

  datatype Outcome = Outcome(machine: Machine, actions: seq<Action>)

  const Initial := Machine(Suspended, 0, None, false)

  function BeginStart(m: Machine, scope: Scope): Outcome {
    Outcome(m.(epoch := m.epoch + 1, phase := Starting(m.epoch + 1, scope)), [StartProxy(m.epoch + 1, scope)])
  }

  /** What a queued or resumed scope leads to in the foreground. */
  function Pursue(m: Machine, scope: Scope): Outcome {
    match m.phase
    case Idle => BeginStart(m, scope)
    case Failed(_, _) => BeginStart(m, scope)
    case Active(generation, activeScope) =>
      if activeScope == scope then Outcome(m, [AdmitThroughActiveProxy(generation, activeScope)])
      else
        var start := BeginStart(m, scope);
        start.(actions := [RevokeWebView, RequestStopActiveProxy] + start.actions)
    case _ => Outcome(m, [])
  }

  function QueueNavigation(m: Machine, scope: Scope): Outcome {
    if m.phase.Destroyed? then Outcome(m, [])
    else
      var queued := m.(pendingScope := Some(scope));
      if !m.foreground then Outcome(queued, []) else Pursue(queued, scope)
  }

  function Resume(m: Machine): Outcome {
    if m.phase.Destroyed? then Outcome(m, [])
    else
      var resumed := m.(foreground := true, phase := if m.phase.Suspended? then Idle else m.phase);
      if m.pendingScope.None? then Outcome(resumed, []) else Pursue(resumed, m.pendingScope.value)
  }

  function RestartAfterStaleProxy(m: Machine): Outcome {
    var settled := m.(phase := if m.foreground then Idle else Suspended);
    if !m.foreground || m.pendingScope.None? then Outcome(settled, [DisposeStaleProxy])
    else
      var start := BeginStart(settled, m.pendingScope.value);
      start.(actions := [DisposeStaleProxyThenStart(m.epoch + 1, m.pendingScope.value)])
  }

  function ProxyStarted(m: Machine, epoch: Epoch, scope: Scope, succeeded: bool): Outcome {
    if m.phase != Starting(epoch, scope) || !m.foreground then
      Outcome(m, if succeeded then [DisposeStaleProxy] else [])
    else if !succeeded then
      var failed := m.(phase := Failed(epoch, scope));
      if m.pendingScope.Some? && m.pendingScope.value != scope then BeginStart(failed, m.pendingScope.value)
      else Outcome(failed, [ShowFailure(epoch)])
    else if m.pendingScope != Some(scope) then RestartAfterStaleProxy(m.(phase := Idle))
    else Outcome(m.(phase := Active(epoch, scope)), [PublishCandidateAndAdmitWebView(epoch, scope)])
  }

  function NavigationAdmitted(m: Machine, epoch: Epoch, scope: Scope): Machine {
    if m.phase == Active(epoch, scope) then m.(pendingScope := None) else m
  }

  function AdmissionFailed(m: Machine, epoch: Epoch, scope: Scope): Outcome {
    if m.phase == Active(epoch, scope) then Outcome(m.(phase := Failed(epoch, scope)), [RevokeWebView, ShowFailure(epoch)])
    else Outcome(m, [])
  }

  /** Leaving a phase for good: the web view goes, and a live proxy is stopped. */
  function Retiring(phase: Phase): seq<Action> {
    [RevokeWebView] + if phase.Active? then [RequestStopActiveProxy] else []
  }

  function Suspend(m: Machine, retaining: Option<Scope>): Outcome {
    if m.phase.Destroyed? then Outcome(m, [])
    else Outcome(Machine(Suspended, m.epoch + 1, retaining, false), Retiring(m.phase))
  }

  function RendererTerminated(m: Machine, retaining: Option<Scope>): Outcome {
    if m.phase.Destroyed? then Outcome(m, [])
    else
      var stopped := Machine(if m.foreground then Idle else Suspended, m.epoch + 1, retaining, m.foreground);
      if m.foreground && retaining.Some? then
        var start := BeginStart(stopped, retaining.value);
        start.(actions := Retiring(m.phase) + start.actions)
      else Outcome(stopped, Retiring(m.phase))
  }

  function Destroy(m: Machine): Outcome {
    if m.phase.Destroyed? then Outcome(m, [])
    else Outcome(Machine(Destroyed, m.epoch + 1, None, false), Retiring(m.phase))
  }

  /** The machine as it is written: mutating methods over four fields. */
  class BrowserProxyStateMachine {
    var phase: Phase
    var epoch: Epoch
    var pendingScope: Option<Scope>
    var foreground: bool

    ghost function View(): Machine
      reads this
    {
      Machine(phase, epoch, pendingScope, foreground)
    }

    constructor ()
      ensures View() == Initial
    {
      phase, epoch, pendingScope, foreground := Suspended, 0, None, false;
    }

    method BeginStarting(scope: Scope) returns (actions: seq<Action>)
      modifies this
      ensures Outcome(View(), actions) == BeginStart(old(View()), scope)
    {
      epoch := epoch + 1;
      phase := Starting(epoch, scope);
      actions := [StartProxy(epoch, scope)];
    }

    method QueueScope(scope: Scope) returns (actions: seq<Action>)
      modifies this
      ensures Outcome(View(), actions) == QueueNavigation(old(View()), scope)
    {
      if phase.Destroyed? {
        return [];
      }
      pendingScope := Some(scope);
      if !foreground {
        return [];
      }
      actions := PursueScope(scope);
    }

    method PursueScope(scope: Scope) returns (actions: seq<Action>)
      modifies this
      ensures Outcome(View(), actions) == Pursue(old(View()), scope)
    {
      match phase {
        case Idle =>
          actions := BeginStarting(scope);
        case Failed(_, _) =>
          actions := BeginStarting(scope);
        case Active(generation, activeScope) =>
          if activeScope == scope {
            return [AdmitThroughActiveProxy(generation, activeScope)];
          }
          var start := BeginStarting(scope);
          actions := [RevokeWebView, RequestStopActiveProxy] + start;
        case _ =>
          actions := [];
      }
    }

    method ResumeProxy() returns (actions: seq<Action>)
      modifies this
      ensures Outcome(View(), actions) == Resume(old(View()))
    {
      if phase.Destroyed? {
        return [];
      }
      foreground := true;
      if phase.Suspended? {
        phase := Idle;
      }
      if pendingScope.None? {
        return [];
      }
      actions := PursueScope(pendingScope.value);
    }

    method Started(callbackEpoch: Epoch, callbackScope: Scope, succeeded: bool) returns (actions: seq<Action>)
      modifies this
      ensures Outcome(View(), actions) == ProxyStarted(old(View()), callbackEpoch, callbackScope, succeeded)
    {
      if phase != Starting(callbackEpoch, callbackScope) || !foreground {
        return if succeeded then [DisposeStaleProxy] else [];
      }
      if !succeeded {
        phase := Failed(callbackEpoch, callbackScope);
        if pendingScope.Some? && pendingScope.value != callbackScope {
          actions := BeginStarting(pendingScope.value);
          return;
        }
        return [ShowFailure(callbackEpoch)];
      }
      if pendingScope != Some(callbackScope) {
        phase := if foreground then Idle else Suspended;
        if !foreground || pendingScope.None? {
          return [DisposeStaleProxy];
        }
        epoch := epoch + 1;
        phase := Starting(epoch, pendingScope.value);
        return [DisposeStaleProxyThenStart(epoch, pendingScope.value)];
      }
      phase := Active(callbackEpoch, callbackScope);
      actions := [PublishCandidateAndAdmitWebView(callbackEpoch, callbackScope)];
    }

    method Admitted(callbackEpoch: Epoch, scope: Scope)
      modifies this
      ensures View() == NavigationAdmitted(old(View()), callbackEpoch, scope)
    {
      if phase == Active(callbackEpoch, scope) {
        pendingScope := None;
      }
    }

    method NotAdmitted(callbackEpoch: Epoch, scope: Scope) returns (actions: seq<Action>)
      modifies this
      ensures Outcome(View(), actions) == AdmissionFailed(old(View()), callbackEpoch, scope)
    {
      if phase != Active(callbackEpoch, scope) {
        return [];
      }
      phase := Failed(callbackEpoch, scope);
      actions := [RevokeWebView, ShowFailure(callbackEpoch)];
    }

    method SuspendProxy(retaining: Option<Scope>) returns (actions: seq<Action>)
      modifies this
      ensures Outcome(View(), actions) == Suspend(old(View()), retaining)
    {
      if phase.Destroyed? {
        return [];
      }
      pendingScope := retaining;
      foreground := false;
      epoch := epoch + 1;
      var hadLiveProxy := phase.Active?;
      phase := Suspended;
      actions := [RevokeWebView];
      if hadLiveProxy {
        actions := actions + [RequestStopActiveProxy];
      }
    }

    method RendererGone(retaining: Option<Scope>) returns (actions: seq<Action>)
      modifies this
      ensures Outcome(View(), actions) == RendererTerminated(old(View()), retaining)
    {
      if phase.Destroyed? {
        return [];
      }
      var hadLiveProxy := phase.Active?;
      pendingScope := retaining;
      epoch := epoch + 1;
      phase := if foreground then Idle else Suspended;
      actions := [RevokeWebView];
      if hadLiveProxy {
        actions := actions + [RequestStopActiveProxy];
      }
      if foreground && pendingScope.Some? {
        var start := BeginStarting(pendingScope.value);
        actions := actions + start;
      }
    }

    method DestroyProxy() returns (actions: seq<Action>)
      modifies this
      ensures Outcome(View(), actions) == Destroy(old(View()))
    {
      if phase.Destroyed? {
        return [];
      }
      var hadLiveProxy := phase.Active?;
      epoch := epoch + 1;
      pendingScope := None;
      foreground := false;
      phase := Destroyed;
      actions := [RevokeWebView];
      if hadLiveProxy {
        actions := actions + [RequestStopActiveProxy];
      }
    }
  }
}
