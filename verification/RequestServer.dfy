/** The request server: main creates the workers, sends the requests, closes the queue, joins the
    workers and destroys the queue, while the workers dequeue and execute.

    The server is a transition system. Every thread has a program counter, and an action names the
    thread that moves next, so a run is a sequence of actions and every interleaving is a run. The
    body of a critical section is one step of the thread that owns the mutex; its effect on the queue
    is the operation of module Fifo that the linked list refines. A spurious wakeup is an action of
    its own.
  */
module RequestServer {
  import opened Basics
  import opened Fifo

  /** `isNull[k]` says that the k-th call of create_request returns NULL. */
  datatype Config = Config(numThreads: nat, isNull: seq<bool>) {
    function Created(k: nat): Pointer
      requires k < |isNull|
    {
      if isNull[k] then Null else Request(k)
    }

    /** The first k pointers that main sends. */
    function Stream(k: nat): seq<Pointer>
      requires k <= |isNull|
    {
      seq(k, i requires 0 <= i < k => Created(i))
    }
  }

  datatype ThreadId = Main | Worker(index: nat)

  datatype Cause = QueueClosed | NullRequest

  datatype WorkerPc =
    | NotCreated
    | Locking                     // about to lock the mutex in queue_dequeue
    | Checking                    // owns the mutex, at the test of the wait loop
    | Waiting                     // blocked in pthread_cond_wait
    | Waking                      // woken, must get the mutex back
    | Announcing                  // owns the mutex, queue empty and closed, about to broadcast
    | Leaving                     // owns the mutex, about to unlock and return NULL
    | Returning(item: Pointer)    // owns the mutex, about to unlock and return the item
    | Working(id: nat)            // executing a request, no lock held
    | Exited(cause: Cause)

  datatype WorkerState = WorkerState(pc: WorkerPc, reqCount: nat)

  datatype MainPc =
    | Creating                                        // loop of thread_pool_init
    | Sending                                         // test of the loop in main
    | EnqLock | EnqUpdate | EnqUnlock | EnqBroadcast  // queue_enqueue
    | CloseLock | CloseUpdate | CloseUnlock | CloseBroadcast
    | Joining                                         // loop of thread_pool_destroy
    | Destroying
    | Finished

  datatype Completion = Completion(worker: nat, id: nat)

  datatype Server = Server(
    queue: Fifo.State<Pointer>,
    owner: Option<ThreadId>,
    workers: seq<WorkerState>,
    main: MainPc,
    created: nat,                                     // workers created
    sent: nat,                                        // requests enqueued
    joined: nat,                                      // workers joined
    executed: seq<Completion>,                        // in order of completion
    destroyed: bool
  )

  datatype Action = MainStep | WorkerStep(i: nat) | SpuriousWakeup(i: nat)

  function Init(cfg: Config): Server {
    Server(Fifo.Empty(), None, seq(cfg.numThreads, _ => WorkerState(NotCreated, 0)), Creating, 0, 0, 0, [], false)
  }

  function WithPc(ws: seq<WorkerState>, i: nat, pc: WorkerPc): seq<WorkerState>
    requires i < |ws|
  {
    ws[i := ws[i].(pc := pc)]
  }

  function Woken(w: WorkerState): WorkerState {
    if w.pc.Waiting? then w.(pc := Waking) else w
  }

  /** pthread_cond_broadcast: every waiting worker wakes up. */
  function Broadcast(ws: seq<WorkerState>): seq<WorkerState> {
    seq(|ws|, i requires 0 <= i < |ws| => Woken(ws[i]))
  }

  predicate Enabled(cfg: Config, s: Server, a: Action) {
    match a
    case MainStep =>
      (match s.main
       case EnqLock | CloseLock => s.owner.None?
       case Joining => s.joined < |s.workers| ==> s.workers[s.joined].pc.Exited?
       case EnqUpdate => s.sent < |cfg.isNull|
       case Finished => false
       case _ => true)
    case WorkerStep(i) =>
      i < |s.workers| &&
      (match s.workers[i].pc
       case NotCreated | Waiting | Exited(_) => false
       case Locking | Waking => s.owner.None?
       case _ => true)
    case SpuriousWakeup(i) =>
      i < |s.workers| && s.workers[i].pc.Waiting?
  }

  function Step(cfg: Config, s: Server, a: Action): Server
    requires Enabled(cfg, s, a)
  {
    match a
    case MainStep => StepMain(cfg, s)
    case WorkerStep(i) => StepWorker(s, i)
    case SpuriousWakeup(i) => s.(workers := WithPc(s.workers, i, Waking))
  }

  function StepMain(cfg: Config, s: Server): Server
    requires Enabled(cfg, s, MainStep)
  {
    match s.main
    case Creating =>
      if s.created < |s.workers| then
        s.(workers := WithPc(s.workers, s.created, Locking), created := s.created + 1)
      else
        s.(main := Sending)
    case Sending => s.(main := if s.sent < |cfg.isNull| then EnqLock else CloseLock)
    case EnqLock => s.(owner := Some(Main), main := EnqUpdate)
    case EnqUpdate =>
      s.(queue := Fifo.Enqueue(s.queue, cfg.Created(s.sent)), sent := s.sent + 1, main := EnqUnlock)
    case EnqUnlock => s.(owner := None, main := EnqBroadcast)
    case EnqBroadcast => s.(workers := Broadcast(s.workers), main := Sending)
    case CloseLock => s.(owner := Some(Main), main := CloseUpdate)
    case CloseUpdate => s.(queue := Fifo.Close(s.queue), main := CloseUnlock)
    case CloseUnlock => s.(owner := None, main := CloseBroadcast)
    case CloseBroadcast => s.(workers := Broadcast(s.workers), main := Joining)
    case Joining => if s.joined < |s.workers| then s.(joined := s.joined + 1) else s.(main := Destroying)
    case Destroying => s.(destroyed := true, main := Finished)
  }

  function StepWorker(s: Server, i: nat): Server
    requires i < |s.workers| && s.workers[i].pc !in {NotCreated, Waiting} && !s.workers[i].pc.Exited?
  {
    var w := s.workers[i];
    match w.pc
    case Locking => s.(owner := Some(Worker(i)), workers := WithPc(s.workers, i, Checking))
    case Waking => s.(owner := Some(Worker(i)), workers := WithPc(s.workers, i, Checking))
    case Checking =>
      (match Fifo.Dequeue(s.queue)
       case (q, Item(p)) => s.(queue := q, workers := WithPc(s.workers, i, Returning(p)))
       case (_, Closed) => s.(workers := WithPc(s.workers, i, Announcing))
       case (_, MustWait) => s.(owner := None, workers := WithPc(s.workers, i, Waiting)))
    case Announcing => s.(workers := WithPc(Broadcast(s.workers), i, Leaving))
    case Leaving => s.(owner := None, workers := WithPc(s.workers, i, Exited(QueueClosed)))
    case Returning(p) =>
      s.(owner := None,
         workers := WithPc(s.workers, i, if p.Null? then Exited(NullRequest) else Working(p.id)))
    case Working(id) =>
      s.(workers := s.workers[i := WorkerState(Locking, w.reqCount + 1)],
         executed := s.executed + [Completion(i, id)])
  }

  /** The state after a sequence of actions, None if one of them is not enabled when its turn comes. */
  function Exec(cfg: Config, actions: seq<Action>): Option<Server> {
    if actions == [] then
      Some(Init(cfg))
    else
      var before := Exec(cfg, actions[..|actions| - 1]);
      var a := actions[|actions| - 1];
      if before.Some? && Enabled(cfg, before.value, a) then Some(Step(cfg, before.value, a)) else None
  }
}
