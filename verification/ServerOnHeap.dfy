/** The linked queue under the server: along every run, in whatever order the threads get the mutex,
    the list does what the transition system says, and touches no freed node on the way. */
module ServerOnHeap {
  import opened Basics
  import opened Fifo
  import opened LinkedQueue
  import opened RequestServer
  import opened ServerSafety

  /** The queue operation whose locked part an action executes, if any. */
  function CallOf(cfg: Config, s: Server, a: Action): seq<Op<Pointer>>
    requires Enabled(cfg, s, a)
  {
    match a
    case MainStep =>
      if s.main.EnqUpdate? then [Put(cfg.Created(s.sent))] else if s.main.CloseUpdate? then [Shut] else []
    case WorkerStep(i) => if s.workers[i].pc.Checking? then [Take] else []
    case SpuriousWakeup(_) => []
  }

  /** The queue operations of a run, in the order in which the threads execute them. */
  function Calls(cfg: Config, actions: seq<Action>): seq<Op<Pointer>>
    requires Exec(cfg, actions).Some?
  {
    if actions == [] then []
    else
      var n := |actions| - 1;
      Calls(cfg, actions[..n]) + CallOf(cfg, Exec(cfg, actions[..n]).value, actions[n])
  }

  /** What a worker does after its dequeue. */
  function PcAfter(outcome: Outcome<Pointer>): WorkerPc {
    match outcome
    case Item(p) => Returning(p)
    case Closed => Announcing
    case MustWait => Waiting
  }

  /** Each step of the server does to the queue what its operation does, and a worker that dequeues
      goes on with the outcome. */
  lemma StepCalls(cfg: Config, s: Server, a: Action)
    requires Enabled(cfg, s, a)
    ensures Step(cfg, s, a).queue == Run(s.queue, CallOf(cfg, s, a))
    ensures CallOf(cfg, s, a) == [Take] ==>
              && a.WorkerStep? && a.i < |s.workers| == |Step(cfg, s, a).workers|
              && Step(cfg, s, a).workers[a.i].pc == PcAfter(Fifo.Dequeue(s.queue).1)
  {
    var call := CallOf(cfg, s, a);
    if call != [] {
      assert call[1..] == [];
      assert Run(s.queue, call) == Run(Apply(s.queue, call[0]), call[1..]);
    }
  }

  /** The queue of the server is what its operations make of an empty queue. */
  lemma {:induction false} QueueOfRun(cfg: Config, actions: seq<Action>)
    requires Exec(cfg, actions).Some?
    ensures Run(Fifo.Empty(), Calls(cfg, actions)) == Exec(cfg, actions).value.queue
  {
    if actions != [] {
      var before, a := actions[..|actions| - 1], actions[|actions| - 1];
      var s := Exec(cfg, before).value;
      QueueOfRun(cfg, before);
      StepCalls(cfg, s, a);
      if CallOf(cfg, s, a) == [] {
        assert Calls(cfg, actions) == Calls(cfg, before);
      } else {
        RunOneMore(Fifo.Empty(), Calls(cfg, before), CallOf(cfg, s, a)[0]);
      }
    }
  }

  /** If the k-th action of a run is a dequeue, the worker goes on with the outcome that belongs to it. */
  ghost predicate GoesOnWith(cfg: Config, actions: seq<Action>, k: nat, outcomes: seq<Option<Outcome<Pointer>>>)
    requires k < |actions|
  {
    var before, after := Exec(cfg, actions[..k]), Exec(cfg, actions[..k + 1]);
    && before.Some? && after.Some? && Enabled(cfg, before.value, actions[k])
    && (CallOf(cfg, before.value, actions[k]) == [Take] ==>
          var i, call := actions[k].i, |Calls(cfg, actions[..k])|;
          && i < |after.value.workers| && call < |outcomes| && outcomes[call].Some?
          && after.value.workers[i].pc == PcAfter(outcomes[call].value))
  }

  lemma {:induction false} OutcomesReceived(cfg: Config, actions: seq<Action>, k: nat)
    requires Exec(cfg, actions).Some? && k < |actions|
    ensures GoesOnWith(cfg, actions, k, Outcomes(Fifo.Empty(), Calls(cfg, actions)))
  {
    var before := actions[..|actions| - 1];
    if k < |before| {
      OutcomesReceived(cfg, before, k);
      assert before[..k] == actions[..k] && before[..k + 1] == actions[..k + 1];
      EarlierOutcomes(cfg, actions);
    } else {
      LastOutcome(cfg, actions);
      assert actions[..k + 1] == actions;
    }
  }

  lemma EarlierOutcomes(cfg: Config, actions: seq<Action>)
    requires Exec(cfg, actions).Some? && actions != []
    ensures var before := actions[..|actions| - 1];
      Outcomes(Fifo.Empty(), Calls(cfg, before)) <= Outcomes(Fifo.Empty(), Calls(cfg, actions))
  {
    var before, a := actions[..|actions| - 1], actions[|actions| - 1];
    var calls, call := Calls(cfg, before), CallOf(cfg, Exec(cfg, before).value, a);
    if call == [] {
      assert calls + call == calls;
    } else {
      RunOneMore(Fifo.Empty(), calls, call[0]);
      assert calls + call == calls + [call[0]];
    }
  }

  lemma LastOutcome(cfg: Config, actions: seq<Action>)
    requires Exec(cfg, actions).Some? && actions != []
    ensures var n := |actions| - 1;
      var s := Exec(cfg, actions[..n]).value;
      var outcomes := Outcomes(Fifo.Empty(), Calls(cfg, actions));
      CallOf(cfg, s, actions[n]) == [Take] ==>
        var i, call := actions[n].i, |Calls(cfg, actions[..n])|;
        && i < |Exec(cfg, actions).value.workers| && call < |outcomes| && outcomes[call].Some?
        && Exec(cfg, actions).value.workers[i].pc == PcAfter(outcomes[call].value)
  {
    var before, a := actions[..|actions| - 1], actions[|actions| - 1];
    var s, calls := Exec(cfg, before).value, Calls(cfg, before);
    StepCalls(cfg, s, a);
    if CallOf(cfg, s, a) == [Take] {
      QueueOfRun(cfg, before);
      RunOneMore(Fifo.Empty(), calls, Take);
      OutcomeCount(Fifo.Empty(), calls);
    }
  }

  /** Makes the queue calls of a run on a new linked queue. The list then stands for the queue of the
      server, and every dequeue has returned what the worker of that step goes on with. */
  method Replay(cfg: Config, actions: seq<Action>)
    returns (que: Queue, outcomes: seq<Option<Outcome<Pointer>>>)
    requires Exec(cfg, actions).Some?
    ensures fresh(que) && fresh(que.header) && fresh(que.nodes)
    ensures que.Valid() && que.Model() == Exec(cfg, actions).value.queue
    ensures forall k :: 0 <= k < |actions| ==> GoesOnWith(cfg, actions, k, outcomes)
  {
    que, outcomes := RunCalls(Calls(cfg, actions));
    QueueOfRun(cfg, actions);
    forall k | 0 <= k < |actions| ensures GoesOnWith(cfg, actions, k, outcomes) {
      OutcomesReceived(cfg, actions, k);
    }
  }

  /** The same for any sequence of operations. */
  method RunCalls(calls: seq<Op<Pointer>>) returns (que: Queue, outcomes: seq<Option<Outcome<Pointer>>>)
    ensures fresh(que) && fresh(que.header) && fresh(que.nodes)
    ensures que.Valid() && que.Model() == Run(Fifo.Empty(), calls) && outcomes == Outcomes(Fifo.Empty(), calls)
  {
    que := new Queue();
    outcomes := que.PerformAll(calls);
  }

  /** A whole run, up to and including queue_destroy: one node was allocated per request sent, and
      every node has been freed exactly when at least one worker outlived the NULL requests before the
      last one. */
  method RunToEnd(cfg: Config, actions: seq<Action>) returns (que: Queue)
    requires Exec(cfg, actions).Some? && Exec(cfg, actions).value.main.Finished?
    ensures !que.alive && !que.header.live && |que.nodes| == |cfg.isNull|
    ensures (forall n :: n in que.nodes ==> !n.live)
            <==> cfg.isNull == [] || Nulls(cfg.isNull[..|cfg.isNull| - 1]) < cfg.numThreads
  {
    var outcomes;
    que, outcomes := Replay(cfg, actions);
    ghost var s := Exec(cfg, actions).value;
    FinalState(cfg, actions);
    DrainedIff(cfg, actions);
    assert |s.queue.taken + s.queue.items| == |cfg.isNull|;
    que.Destroy();
  }
}
