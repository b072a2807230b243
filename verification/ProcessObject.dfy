/** The browser process as it is written: a mutable object (BrowserProcess.swift). */
module ProcessObject {
  import opened Prelude
  import M = ProcessModel

  class BrowserProcess {
    var state: M.Phase
    var currentNetwork: M.Network
    var networkSwitchInFlight: bool
    var networkSwitchGeneration: nat
    var isForegroundSyncEnabled: bool
    var syncScheduleGeneration: nat
    var syncInFlight: bool
    var syncCompletions: seq<M.Callback>

    // The preparation queue, what it runs, its results for the main actor, and what has happened so far.
    var preparationQueue: seq<M.Work>
    var running: M.Running
    var arrivals: seq<M.Arrival>
    var runtimes: seq<M.Network>
    var closed: seq<M.RuntimeId>
    var calls: nat
    var answers: seq<M.Answer>
    var dropped: seq<M.Callback>

    ghost function View(): M.System
      reads this
    {
      M.System(state, currentNetwork, networkSwitchInFlight, networkSwitchGeneration, isForegroundSyncEnabled,
               syncScheduleGeneration, syncInFlight, syncCompletions, preparationQueue, running, arrivals, runtimes,
               closed, calls, answers, dropped)
    }

    constructor (initialNetwork: M.Network)
      ensures View() == M.Launch(initialNetwork)
    {
      state, currentNetwork := M.Idle, initialNetwork;
      networkSwitchInFlight, networkSwitchGeneration := false, 0;
      isForegroundSyncEnabled, syncScheduleGeneration, syncInFlight, syncCompletions := false, 0, false, [];
      preparationQueue, running, arrivals, runtimes, closed := [], M.Nothing, [], [], [];
      calls, answers, dropped := 0, [], [];
    }

    method Complete(completion: M.Callback, reply: M.Reply)
      modifies this`answers
      ensures View() == M.Answered(old(View()), completion, reply)
    {
      answers := answers + [M.Answer(completion, reply)];
    }

    method CompleteAll(callbacks: seq<M.Callback>, reply: M.Reply)
      modifies this`answers
      ensures View() == old(View()).(answers := old(answers) + M.AnswersTo(callbacks, reply))
    {
      for i := 0 to |callbacks|
        invariant answers == old(answers) + M.AnswersTo(callbacks[..i], reply)
      {
        assert M.AnswersTo(callbacks[..i + 1], reply) == M.AnswersTo(callbacks[..i], reply) + [M.Answer(callbacks[i], reply)];
        answers := answers + [M.Answer(callbacks[i], reply)];
      }
      assert callbacks[..|callbacks|] == callbacks;
    }

    method Enqueue(work: M.Work)
      modifies this`preparationQueue
      ensures View() == M.Submit(old(View()), work)
    {
      preparationQueue := preparationQueue + [work];
    }

    /** A fresh callback, as every call from outside brings one. */
    method TakeCall() returns (completion: M.Callback)
      modifies this`calls
      ensures completion == old(calls) && View() == old(View()).(calls := old(calls) + 1)
    {
      completion := calls;
      calls := calls + 1;
    }

    method Prepare(completion: M.Callback, directory: bool)
      modifies this
      ensures View() == M.PrepareWith(old(View()), completion, directory)
    {
      match state {
        case Ready(runtime) =>
          Complete(completion, M.Environment(runtime));
          return;
        case Closed =>
          Complete(completion, M.Refused);
          return;
        case Preparing(callbacks) =>
          state := M.Preparing(callbacks + [completion]);
          return;
        case Switching(_) =>
          Complete(completion, M.Refused);
          return;
        case _ =>
          state := M.Preparing([completion]);
      }
      if directory {
        Enqueue(M.Build(currentNetwork, M.ForPrepare));
      } else {
        FinishPreparation(None);
      }
    }

    method PrepareCall(directory: bool)
      modifies this
      ensures View() == M.Prepare(old(View()), directory)
    {
      var completion := TakeCall();
      Prepare(completion, directory);
    }

    method FinishPreparation(outcome: Option<M.RuntimeId>)
      modifies this
      ensures View() == M.FinishPreparation(old(View()), outcome)
    {
      if !state.Preparing? {
        if outcome.Some? {
          Enqueue(M.CloseRuntime(outcome.value));
        }
        return;
      }
      var callbacks := state.callbacks;
      if outcome.Some? {
        state := M.Ready(outcome.value);
        CompleteAll(callbacks, M.Environment(outcome.value));
        if isForegroundSyncEnabled {
          syncScheduleGeneration := syncScheduleGeneration + 1;
        }
      } else {
        state := M.Failed;
        CompleteAll(callbacks, M.Refused);
      }
    }

    method SuspendForegroundSync()
      modifies this
      ensures View() == M.SuspendForegroundSync(old(View()))
    {
      isForegroundSyncEnabled := false;
      syncScheduleGeneration := syncScheduleGeneration + 1;
    }

    method ResumeForegroundSync()
      modifies this
      ensures View() == M.ResumeForegroundSync(old(View()))
    {
      isForegroundSyncEnabled := true;
      syncScheduleGeneration := syncScheduleGeneration + 1;
    }

    method SwitchNetwork(network: M.Network, directory: bool)
      modifies this
      ensures View() == M.SwitchNetwork(old(View()), network, directory)
    {
      hide M.PrepareWith;
      var completion := TakeCall();
      if networkSwitchInFlight {
        Complete(completion, M.Refused);
        return;
      }
      if network == currentNetwork {
        if state.Ready? {
          Complete(completion, M.Environment(state.runtime));
        } else {
          Prepare(completion, directory);
        }
        return;
      }
      if !state.Ready? || !directory {
        Complete(completion, M.Refused);
        return;
      }
      var runtime := state.runtime;
      SuspendForegroundSync();
      state := M.Switching(runtime);
      networkSwitchInFlight := true;
      networkSwitchGeneration := networkSwitchGeneration + 1;
      Enqueue(M.Build(network, M.ForSwitch(runtime, networkSwitchGeneration, completion)));
    }

    method FinishNetworkSwitch(outcome: Option<M.RuntimeId>, network: M.Network, purpose: M.Purpose)
      requires purpose.ForSwitch?
      modifies this
      ensures View() == M.FinishSwitch(old(View()), outcome, network, purpose)
    {
      if !networkSwitchInFlight || purpose.generation != networkSwitchGeneration || state != M.Switching(purpose.from) {
        if outcome.Some? {
          Enqueue(M.CloseRuntime(outcome.value));
        }
        Complete(purpose.completion, M.Refused);
        return;
      }
      networkSwitchInFlight := false;
      if isForegroundSyncEnabled {
        syncScheduleGeneration := syncScheduleGeneration + 1;
      }
      if outcome.Some? {
        state := M.Ready(outcome.value);
        currentNetwork := network;
        Enqueue(M.CloseRuntime(purpose.from));
        Complete(purpose.completion, M.Environment(outcome.value));
      } else {
        state := M.Ready(purpose.from);
        Complete(purpose.completion, M.Refused);
      }
    }

    method StartSyncIfNeeded(runtime: M.RuntimeId)
      modifies this
      ensures View() == M.StartSyncIfNeeded(old(View()), runtime)
    {
      if syncInFlight {
        return;
      }
      syncInFlight := true;
      Enqueue(M.Sync(runtime));
    }

    method SyncNow()
      modifies this
      ensures View() == M.SyncNow(old(View()))
    {
      var completion := TakeCall();
      if !state.Ready? {
        Complete(completion, M.Refused);
        return;
      }
      syncScheduleGeneration := syncScheduleGeneration + 1;
      syncCompletions := syncCompletions + [completion];
      StartSyncIfNeeded(state.runtime);
    }

    method RunScheduledForegroundSync(generation: nat)
      modifies this
      ensures View() == M.RunScheduledSync(old(View()), generation)
    {
      if generation != syncScheduleGeneration || !isForegroundSyncEnabled || !state.Ready? {
        return;
      }
      StartSyncIfNeeded(state.runtime);
    }

    method FinishSync(runtime: M.RuntimeId, succeeded: bool)
      modifies this
      ensures View() == M.FinishSync(old(View()), runtime, succeeded)
    {
      syncInFlight := false;
      var callbacks := syncCompletions;
      syncCompletions := [];
      if isForegroundSyncEnabled {
        syncScheduleGeneration := syncScheduleGeneration + 1;
      }
      CompleteAll(callbacks, M.SyncResult(runtime, succeeded));
    }

    method Close()
      modifies this
      ensures View() == M.Close(old(View()))
    {
      SuspendForegroundSync();
      networkSwitchInFlight := false;
      networkSwitchGeneration := networkSwitchGeneration + 1;
      var pendingSyncCompletions := syncCompletions;
      syncCompletions := [];
      CompleteAll(pendingSyncCompletions, M.Refused);
      var before := state;
      state := M.Closed;
      dropped := dropped + if before.Preparing? then before.callbacks else [];
      if before.Ready? || before.Switching? {
        Enqueue(M.CloseRuntime(before.runtime));
      }
    }

    /** The main actor handles the next result of the queue. */
    method HandleArrival()
      requires arrivals != [] && (arrivals[0].BuildArrived? ==> arrivals[0].work.Build?)
      modifies this
      ensures View() == M.Arrive(old(View()))
    {
      var arrival := arrivals[0];
      arrivals := arrivals[1..];
      match arrival {
        case SyncArrived(runtime, succeeded) =>
          FinishSync(runtime, succeeded);
        case BuildArrived(outcome, work) =>
          if work.purpose.ForPrepare? {
            FinishPreparation(outcome);
          } else {
            FinishNetworkSwitch(outcome, work.network, work.purpose);
          }
      }
    }
  }
}
