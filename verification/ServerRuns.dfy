/** Which runs the server has. A thread of a reachable state is held up only by the mutex, by the
    condition wait or by a join; and the states that the safety theorems are about do occur. */
module ServerRuns {
  import opened Basics
  import opened Fifo
  import opened RequestServer
  import opened ServerSafety

  // ---------- who can move ----------

  /** A worker that has been created can move unless it is blocked in the wait, has exited, or needs a
      mutex that somebody else owns. It needs none while it executes a request. */
  lemma WorkerCanMove(cfg: Config, actions: seq<Action>, i: nat)
    requires Exec(cfg, actions).Some?
    ensures var s := Exec(cfg, actions).value;
      Enabled(cfg, s, WorkerStep(i)) <==>
        && i < s.created <= |s.workers| && !s.workers[i].pc.Waiting? && !s.workers[i].pc.Exited?
        && (s.owner == None || s.owner == Some(Worker(i)) || s.workers[i].pc.Working?)
  {
    ExecInv(cfg, actions);
  }

  /** Every worker that is blocked in the wait can wake up spuriously, and no other. */
  lemma WaiterCanWake(cfg: Config, actions: seq<Action>, i: nat)
    requires Exec(cfg, actions).Some?
    ensures var s := Exec(cfg, actions).value;
      Enabled(cfg, s, SpuriousWakeup(i)) <==> i < |s.workers| && s.workers[i].pc.Waiting?
  {
  }

  /** Main can move unless it needs a mutex that a worker owns, joins a worker that has not exited, or
      is done. */
  lemma MainCanMove(cfg: Config, actions: seq<Action>)
    requires Exec(cfg, actions).Some?
    ensures var s := Exec(cfg, actions).value;
      Enabled(cfg, s, MainStep) <==>
        && s.main != Finished
        && (s.main in {EnqLock, CloseLock} ==> s.owner == None)
        && (s.main == Joining && s.joined < |s.workers| ==> s.workers[s.joined].pc.Exited?)
  {
    ExecInv(cfg, actions);
  }

  /** A broadcast of main, or of a worker on its way out, leaves nobody blocked in the wait. */
  lemma BroadcastWakesAll(cfg: Config, s: Server, a: Action)
    requires Enabled(cfg, s, a)
    requires match a
             case MainStep => s.main.EnqBroadcast? || s.main.CloseBroadcast?
             case WorkerStep(i) => s.workers[i].pc.Announcing?
             case SpuriousWakeup(_) => false
    ensures var s' := Step(cfg, s, a);
      |s'.workers| == |s.workers| && forall i :: 0 <= i < |s.workers| ==>
        && !s'.workers[i].pc.Waiting?
        && (s.workers[i].pc.Waiting? ==> s'.workers[i] == WorkerState(Waking, s.workers[i].reqCount))
  {
  }

  // ---------- such states occur ----------

  lemma OneMore(cfg: Config, actions: seq<Action>, a: Action) returns (more: seq<Action>)
    requires Exec(cfg, actions).Some? && Enabled(cfg, Exec(cfg, actions).value, a)
    ensures more == actions + [a] && Exec(cfg, more) == Some(Step(cfg, Exec(cfg, actions).value, a))
  {
    more := actions + [a];
    assert more[..|actions|] == actions;
  }

  /** Main has created k workers and nothing else has happened. */
  function Created(cfg: Config, k: nat): Server {
    Server(Fifo.Empty(), None,
           seq(cfg.numThreads, i => WorkerState(if i < k then Locking else NotCreated, 0)),
           Creating, k, 0, 0, [], false)
  }

  lemma {:induction false} CreateWorkers(cfg: Config, k: nat) returns (actions: seq<Action>)
    requires k <= cfg.numThreads
    ensures Exec(cfg, actions) == Some(Created(cfg, k))
  {
    if k == 0 {
      actions := [];
      assert Init(cfg).workers == Created(cfg, 0).workers;
    } else {
      var before := CreateWorkers(cfg, k - 1);
      actions := OneMore(cfg, before, MainStep);
      assert Step(cfg, Created(cfg, k - 1), MainStep).workers == Created(cfg, k).workers;
    }
  }

  /** All workers are created and main is about to send. */
  lemma Started(cfg: Config) returns (actions: seq<Action>)
    ensures Exec(cfg, actions) == Some(Created(cfg, cfg.numThreads).(main := Sending))
  {
    actions := CreateWorkers(cfg, cfg.numThreads);
    actions := OneMore(cfg, actions, MainStep);
  }

  /** With at least one worker, there is a run in which worker 0 finds the queue empty and open, and
      is blocked in the wait before main has sent anything. */
  lemma WorkerWaits(cfg: Config) returns (actions: seq<Action>)
    requires cfg.numThreads > 0
    ensures Exec(cfg, actions).Some?
    ensures var s := Exec(cfg, actions).value;
      && s.main == Sending && s.sent == 0 && s.owner == None && s.queue == Fifo.Empty()
      && |s.workers| == cfg.numThreads && s.workers[0].pc.Waiting?
  {
    actions := Started(cfg);
    actions := OneMore(cfg, actions, WorkerStep(0));
    actions := OneMore(cfg, actions, WorkerStep(0));
  }

  /** The state that lost-wakeup safety is about does occur: worker 0 is blocked in the wait while the
      queue holds a request, or while it is closed if there are no requests, and main has changed it
      and has yet to broadcast. */
  lemma WaiterToBeWoken(cfg: Config) returns (actions: seq<Action>)
    requires cfg.numThreads > 0
    ensures Exec(cfg, actions).Some?
    ensures var s := Exec(cfg, actions).value;
      && |s.workers| == cfg.numThreads && s.workers[0].pc.Waiting?
      && (if cfg.isNull == [] then s.queue.closed && s.main == CloseUnlock
          else s.queue.items != [] && s.main == EnqUnlock)
  {
    actions := WorkerWaits(cfg);
    actions := OneMore(cfg, actions, MainStep);
    actions := OneMore(cfg, actions, MainStep);
    actions := OneMore(cfg, actions, MainStep);
  }

  /** A spurious wakeup does occur, with the queue empty and open, and the worker goes back to wait. */
  lemma SpuriousWakeupHappens(cfg: Config) returns (before: seq<Action>, woken: seq<Action>, after: seq<Action>)
    requires cfg.numThreads > 0
    ensures woken == before + [SpuriousWakeup(0)] && woken <= after
    ensures Exec(cfg, before).Some? && Exec(cfg, woken).Some? && Exec(cfg, after).Some?
    ensures |Exec(cfg, woken).value.workers| == cfg.numThreads && Exec(cfg, woken).value.workers[0].pc == Waking
    ensures Exec(cfg, woken).value.queue == Fifo.Empty() && Exec(cfg, after) == Exec(cfg, before)
  {
    before := WorkerWaits(cfg);
    woken := OneMore(cfg, before, SpuriousWakeup(0));
    after := OneMore(cfg, woken, WorkerStep(0));
    after := OneMore(cfg, after, WorkerStep(0));
    var s, s' := Exec(cfg, before).value, Exec(cfg, after).value;
    assert s'.workers == s.workers;
  }

  /** The first k workers execute the first k requests; the others have yet to lock the mutex. */
  ghost predicate Busy(cfg: Config, s: Server, k: nat) {
    && s.owner == None && s.main == Sending && s.sent == k && s.queue.items == [] && !s.queue.closed
    && |s.workers| == cfg.numThreads && s.created == cfg.numThreads
    && forall i :: 0 <= i < cfg.numThreads ==> s.workers[i].pc == if i < k then Working(i) else Locking
  }

  /** Any number of workers can execute requests at the same time, while main is still sending. */
  lemma {:induction false} WorkersAtWork(cfg: Config, k: nat) returns (actions: seq<Action>)
    requires k <= cfg.numThreads && k <= |cfg.isNull| && forall i :: 0 <= i < k ==> !cfg.isNull[i]
    ensures Exec(cfg, actions).Some? && Busy(cfg, Exec(cfg, actions).value, k)
  {
    if k == 0 {
      actions := Started(cfg);
    } else {
      actions := WorkersAtWork(cfg, k - 1);
      actions := SendOne(cfg, actions, k - 1);
      actions := TakeOne(cfg, actions, k - 1);
    }
  }

  /** Request k is in the queue, and main is about to send the next one. */
  ghost predicate Sent(cfg: Config, s: Server, k: nat) {
    && s.owner == None && s.main == Sending && s.sent == k + 1 && s.queue.items == [Request(k)] && !s.queue.closed
    && |s.workers| == cfg.numThreads && s.created == cfg.numThreads
    && forall i :: 0 <= i < cfg.numThreads ==> s.workers[i].pc == if i < k then Working(i) else Locking
  }

  lemma SendOne(cfg: Config, actions: seq<Action>, k: nat) returns (more: seq<Action>)
    requires Exec(cfg, actions).Some? && Busy(cfg, Exec(cfg, actions).value, k)
    requires k < |cfg.isNull| && !cfg.isNull[k]
    ensures Exec(cfg, more).Some? && Sent(cfg, Exec(cfg, more).value, k)
  {
    more := OneMore(cfg, actions, MainStep);
    more := OneMore(cfg, more, MainStep);
    more := OneMore(cfg, more, MainStep);
    more := OneMore(cfg, more, MainStep);
    more := OneMore(cfg, more, MainStep);
  }

  lemma TakeOne(cfg: Config, actions: seq<Action>, k: nat) returns (more: seq<Action>)
    requires Exec(cfg, actions).Some? && Sent(cfg, Exec(cfg, actions).value, k) && k < cfg.numThreads
    ensures Exec(cfg, more).Some? && Busy(cfg, Exec(cfg, more).value, k + 1)
  {
    more := OneMore(cfg, actions, WorkerStep(k));
    more := OneMore(cfg, more, WorkerStep(k));
    more := OneMore(cfg, more, WorkerStep(k));
  }
}
