/** The coordinator as it is written: a mutable object around the mutable machine (BrowserProxyCoordinator.swift). */
module ProxyCoordinator {
  import opened Prelude
  import opened ProxyMachine
  import opened ProxyLifecycle

  /** The actions that nothing but the views can see. */
  predicate Quiet(actions: seq<Action>) {
    forall i | 0 <= i < |actions| :: actions[i].RevokeWebView? || actions[i].ShowFailure?
  }

  class BrowserProxyCoordinator {
    const machine: BrowserProxyStateMachine
    var activeProxy: Option<ProxyId>
    var activeScope: Option<Scope>
    var webView: bool
    var pendingNavigation: Option<Navigation>
    var lastNavigation: Option<Navigation>
    var destroyed: bool

    // The serial dispatch queue, its running block, the callbacks it has sent, and the candidate's disposition.
    var queue: seq<Task>
    var worker: Worker
    var failures: seq<Task>
    var retained: bool
    var created: nat
    var joined: seq<ProxyId>

    ghost function View(): System
      reads this, machine
    {
      System(machine.View(), activeProxy, activeScope, webView, pendingNavigation, lastNavigation, destroyed,
             queue, worker, failures, retained, created, joined)
    }

    constructor ()
      ensures View() == Launch && fresh(machine)
    {
      machine := new BrowserProxyStateMachine();
      activeProxy, activeScope, webView, pendingNavigation, lastNavigation, destroyed := None, None, false, None, None, false;
      queue, worker, failures, retained, created, joined := [], Free, [], false, 0, [];
    }

    method RetireActive()
      modifies this
      ensures View() == RetireActiveProxy(old(View()))
    {
      if activeProxy.None? {
        return;
      }
      var retired := activeProxy.value;
      activeProxy := None;
      activeScope := None;
      queue := queue + [JoinTask(retired)];
    }

    method AdmitPending(epoch: Epoch, scope: Scope)
      modifies this, machine
      ensures View() == AdmitPendingNavigation(old(View()), epoch, scope)
    {
      if activeProxy.None? || activeScope != Some(scope) || pendingNavigation.None? || pendingNavigation.value.scope != scope {
        return;
      }
      webView := true;
      lastNavigation := pendingNavigation;
      pendingNavigation := None;
      machine.Admitted(epoch, scope);
    }

    method Reject(epoch: Epoch, scope: Scope)
      modifies this, machine
      ensures View() == RejectAdmission(old(View()), epoch, scope)
      decreases 1
    {
      var actions := machine.NotAdmitted(epoch, scope);
      ghost var before := View();
      ExecuteActions(actions, None, false);
      QuietEffect(before, actions);
    }

    /** Carries the actions out one after the other; a failed admission carries out its own in turn. */
    method ExecuteActions(actions: seq<Action>, candidate: Option<ProxyId>, installs: bool)
      modifies this, machine
      ensures View() == Execute(old(View()), actions, candidate, installs)
      decreases if Quiet(actions) then 0 else 2
    {
      hide Execute;
      for i := 0 to |actions|
        invariant Execute(View(), actions[i..], candidate, installs) == Execute(old(View()), actions, candidate, installs)
      {
        ghost var before := View();
        ExecuteHead(before, actions[i..], candidate, installs);
        assert actions[i..][0] == actions[i] && actions[i..][1..] == actions[i + 1..];
        match actions[i] {
          case RevokeWebView =>
            webView := false;
          case RequestStopActiveProxy =>
            RetireActive();
          case StartProxy(epoch, scope) =>
            queue := queue + [StartTask(epoch, scope)];
          case DisposeStaleProxy =>
            retained := false;
          case DisposeStaleProxyThenStart(epoch, scope) =>
            retained := false;
            queue := queue + [StartTask(epoch, scope)];
          case PublishCandidateAndAdmitWebView(epoch, scope) =>
            if candidate.None? {
              Reject(epoch, scope);
            } else if installs {
              activeProxy := candidate;
              activeScope := Some(scope);
              retained := true;
              AdmitPending(epoch, scope);
            } else {
              retained := false;
              Reject(epoch, scope);
            }
          case AdmitThroughActiveProxy(epoch, scope) =>
            if activeProxy.None? || activeScope != Some(scope) {
              Reject(epoch, scope);
              RetireActive();
            } else {
              AdmitPending(epoch, scope);
            }
          case ShowFailure(_) =>
        }
        assert View() == Perform(before, actions[i], candidate, installs);
      }
      ExecuteHead(View(), actions[|actions|..], candidate, installs);
    }

    method ExecuteAll(actions: seq<Action>)
      modifies this, machine
      ensures View() == Execute(old(View()), actions, None, false)
    {
      ExecuteActions(actions, None, false);
    }

    method EnqueueNavigation(navigation: Navigation)
      modifies this, machine
      ensures View() == Enqueue(old(View()), navigation)
    {
      pendingNavigation := Some(navigation);
      var actions := machine.QueueScope(navigation.scope);
      ExecuteAll(actions);
    }

    method ResumeBrowsing()
      modifies this, machine
      ensures View() == ResumeAll(old(View()))
    {
      if destroyed {
        return;
      }
      if pendingNavigation.None? && lastNavigation.Some? && lastNavigation.value.replayable {
        pendingNavigation := lastNavigation;
      }
      var actions := machine.ResumeProxy();
      ExecuteAll(actions);
    }

    method RetainReplayable()
      modifies this
      ensures View() == old(View()).(pending := Retained(old(View())))
    {
      if pendingNavigation.Some? && !pendingNavigation.value.replayable {
        pendingNavigation := None;
      }
      if pendingNavigation.None? && lastNavigation.Some? && lastNavigation.value.replayable {
        pendingNavigation := lastNavigation;
      }
    }

    method SuspendBrowsing()
      modifies this, machine
      ensures View() == SuspendAll(old(View()))
    {
      if destroyed {
        return;
      }
      RetainReplayable();
      var actions := machine.SuspendProxy(ScopeOf(pendingNavigation));
      ExecuteAll(actions);
    }

    method ContentProcessDidTerminate()
      modifies this, machine
      ensures View() == RendererDied(old(View()))
    {
      if !webView {
        return;
      }
      RetainReplayable();
      var actions := machine.RendererGone(ScopeOf(pendingNavigation));
      ExecuteAll(actions);
    }

    method DestroyCoordinator()
      modifies this, machine
      ensures View() == DestroyAll(old(View()))
    {
      if destroyed {
        return;
      }
      destroyed := true;
      pendingNavigation := None;
      lastNavigation := None;
      var actions := machine.DestroyProxy();
      ExecuteAll(actions);
    }

    method FollowNavigation(navigation: Navigation)
      modifies this
      ensures View() == Follow(old(View()), navigation)
    {
      if webView && activeProxy.Some? && activeScope == Some(navigation.scope)
         && machine.phase.Active? && machine.phase.scope == navigation.scope {
        lastNavigation := Some(navigation);
      }
    }

    /** The main-actor callback of a failed native start. */
    method OnStartFailed(i: nat)
      requires i < |failures| && failures[i].StartTask?
      modifies this, machine
      ensures View() == StartFailed(old(View()), i)
    {
      var callback := failures[i];
      failures := failures[..i] + failures[i + 1..];
      var actions := machine.Started(callback.epoch, callback.scope, false);
      ExecuteAll(actions);
    }

    /** The main-actor callback of a successful native start, and what the waiting queue does next. */
    method OnStartSucceeded(installs: bool)
      requires worker.Offered?
      modifies this, machine
      ensures View() == StartSucceeded(old(View()), installs)
    {
      var epoch, scope, candidate := worker.epoch, worker.scope, worker.id;
      retained := false;
      var actions := machine.Started(epoch, scope, true);
      ExecuteActions(actions, Some(candidate), installs);
      worker := if retained then Free else Joining(candidate);
    }

    method TakeNextTask()
      requires worker.Free? && queue != []
      modifies this
      ensures View() == TakeTask(old(View()))
    {
      var task := queue[0];
      queue := queue[1..];
      worker := if task.StartTask? then StartingProxy(task.epoch, task.scope) else Joining(task.id);
    }

    method FinishNativeStart(succeeded: bool)
      requires worker.StartingProxy?
      modifies this
      ensures View() == if succeeded then NativeStarted(old(View())) else NativeFailed(old(View()))
    {
      if succeeded {
        worker := Offered(worker.epoch, worker.scope, created);
        created := created + 1;
      } else {
        failures := failures + [StartTask(worker.epoch, worker.scope)];
        worker := Free;
      }
    }

    method JoinAndDestroy()
      requires worker.Joining?
      modifies this
      ensures View() == Joined(old(View()))
    {
      joined := joined + [worker.id];
      worker := Free;
    }
  }

  lemma ExecuteHead(s: System, actions: seq<Action>, candidate: Option<ProxyId>, installs: bool)
    ensures Execute(s, actions, candidate, installs)
      == if actions == [] then s else Execute(Perform(s, actions[0], candidate, installs), actions[1..], candidate, installs)
  {
    hide Perform;
  }

  lemma {:induction false} QuietEffect(s: System, actions: seq<Action>)
    requires actions == [] || (|actions| == 2 && actions[0].RevokeWebView? && actions[1].ShowFailure?)
    ensures Execute(s, actions, None, false) == s.(webView := s.webView && actions == [])
    ensures Quiet(actions)
  {
    if actions != [] {
      ExecuteTwo(s, actions[0], actions[1]);
      assert actions == [actions[0], actions[1]];
    }
  }
}
