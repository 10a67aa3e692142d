/** What every reachable state of the server satisfies, spurious wakeups included. */
module ServerSafety {
  import opened Basics
  import opened Fifo
  import opened RequestServer

  // ---------- the invariant ----------

  predicate MainOwns(pc: MainPc) {
    pc.EnqUpdate? || pc.EnqUnlock? || pc.CloseUpdate? || pc.CloseUnlock?
  }

  predicate WorkerOwns(pc: WorkerPc) {
    pc.Checking? || pc.Announcing? || pc.Leaving? || pc.Returning?
  }

  /** Main has changed the queue under the mutex and has not yet broadcast that change. */
  predicate BroadcastPending(pc: MainPc) {
    pc.EnqUnlock? || pc.EnqBroadcast? || pc.CloseUnlock? || pc.CloseBroadcast?
  }

  predicate AfterClose(pc: MainPc) {
    pc.CloseUnlock? || pc.CloseBroadcast? || pc.Joining? || pc.Destroying? || pc.Finished?
  }

  ghost predicate ProgramOrder(cfg: Config, s: Server) {
    && |s.workers| == cfg.numThreads && s.created <= |s.workers| && s.joined <= |s.workers|
    && (forall i :: 0 <= i < |s.workers| ==> (s.workers[i].pc.NotCreated? <==> s.created <= i))
    && (!s.main.Creating? ==> s.created == |s.workers|)
    && s.sent <= |cfg.isNull|
    && (s.main.EnqLock? || s.main.EnqUpdate? ==> s.sent < |cfg.isNull|)
    && (s.main.CloseLock? || s.main.CloseUpdate? || AfterClose(s.main) ==> s.sent == |cfg.isNull|)
    && (s.queue.closed <==> AfterClose(s.main))
    && (forall i :: 0 <= i < s.joined ==> s.workers[i].pc.Exited?)
    && (s.main.Destroying? || s.main.Finished? ==> s.joined == |s.workers|)
    && (s.destroyed <==> s.main.Finished?)
  }

  ghost predicate MutualExclusion(s: Server) {
    && (s.owner == Some(Main) <==> MainOwns(s.main))
    && (forall i :: 0 <= i < |s.workers| ==> (s.owner == Some(Worker(i)) <==> WorkerOwns(s.workers[i].pc)))
    && (s.owner.Some? && s.owner.value.Worker? ==> s.owner.value.index < |s.workers|)
  }

  ghost predicate SentInOrder(cfg: Config, s: Server) {
    s.sent <= |cfg.isNull| && s.queue.taken + s.queue.items == cfg.Stream(s.sent)
  }

  /** No lost wakeup. */
  ghost predicate WaitersCovered(s: Server) {
    forall i :: 0 <= i < |s.workers| && s.workers[i].pc.Waiting? ==>
      (s.queue.items == [] && !s.queue.closed) || BroadcastPending(s.main)
  }

  /** The request that a worker has dequeued and not yet executed. */
  function HeldBy(w: WorkerState): Option<nat> {
    match w.pc
    case Returning(Request(k)) => Some(k)
    case Working(k) => Some(k)
    case _ => None
  }

  ghost predicate Held(s: Server, k: nat) {
    exists i :: 0 <= i < |s.workers| && HeldBy(s.workers[i]) == Some(k)
  }

  ghost predicate Executed(s: Server, k: nat) {
    exists e :: 0 <= e < |s.executed| && s.executed[e].id == k
  }

  /** Of the requests dequeued so far, each is held by one worker or executed once, never both. */
  ghost predicate OnePlace(cfg: Config, s: Server) {
    && |s.queue.taken| <= |cfg.isNull|
    && (forall i :: 0 <= i < |s.workers| && HeldBy(s.workers[i]).Some? ==>
          HeldBy(s.workers[i]).value < |s.queue.taken| && !cfg.isNull[HeldBy(s.workers[i]).value])
    && (forall i, j :: 0 <= i < j < |s.workers| && HeldBy(s.workers[i]).Some? ==>
          HeldBy(s.workers[i]) != HeldBy(s.workers[j]))
    && (forall e :: 0 <= e < |s.executed| ==>
          s.executed[e].id < |s.queue.taken| && !cfg.isNull[s.executed[e].id])
    && (forall e, f :: 0 <= e < f < |s.executed| ==> s.executed[e].id != s.executed[f].id)
    && (forall e, i :: 0 <= e < |s.executed| && 0 <= i < |s.workers| ==>
          HeldBy(s.workers[i]) != Some(s.executed[e].id))
    && (forall k :: 0 <= k < |s.queue.taken| && !cfg.isNull[k] ==> Held(s, k) || Executed(s, k))
  }

  // ---------- sums over the workers ----------

  function Sum(ws: seq<WorkerState>, f: WorkerState -> nat): nat {
    if ws == [] then 0 else f(ws[0]) + Sum(ws[1..], f)
  }

  function ReqCount(w: WorkerState): nat { w.reqCount }
  function Holds(w: WorkerState): nat { if HeldBy(w).Some? then 1 else 0 }
  function GotNull(w: WorkerState): nat {
    if w.pc == Returning(Null) || w.pc == Exited(NullRequest) then 1 else 0
  }

  predicate SawClosed(w: WorkerState) {
    w.pc.Announcing? || w.pc.Leaving? || w.pc == Exited(QueueClosed)
  }

  function Nulls(isNull: seq<bool>): nat {
    if isNull == [] then 0 else Nulls(isNull[..|isNull| - 1]) + if isNull[|isNull| - 1] then 1 else 0
  }

  function One(b: bool): nat { if b then 1 else 0 }

  /** How many of the completed requests worker i executed. */
  function DoneBy(executed: seq<Completion>, i: nat): nat {
    if executed == [] then 0
    else
      var last := executed[|executed| - 1];
      DoneBy(executed[..|executed| - 1], i) + One(last.worker == i)
  }

  ghost predicate Accounts(cfg: Config, s: Server) {
    && |s.queue.taken| <= |cfg.isNull|
    && Sum(s.workers, ReqCount) == |s.executed|
    && (forall i :: 0 <= i < |s.workers| ==> s.workers[i].reqCount == DoneBy(s.executed, i))
    && |s.executed| + Sum(s.workers, Holds) + Nulls(cfg.isNull[..|s.queue.taken|]) == |s.queue.taken|
    && Sum(s.workers, GotNull) == Nulls(cfg.isNull[..|s.queue.taken|])
  }

  /** A worker quits for one of two reasons: it saw the queue closed and empty, and then the queue
      stays so; or it got a NULL request. The NULL that makes the last worker quit is the last item
      ever taken. */
  ghost predicate QuitReasons(cfg: Config, s: Server) {
    && |s.queue.taken| <= |cfg.isNull|
    && (forall i :: 0 <= i < |s.workers| && SawClosed(s.workers[i]) ==> s.queue.closed && s.queue.items == [])
    && (|s.queue.taken| > 0 ==> cfg.numThreads > 0)
    && (|s.queue.taken| > 0 && Nulls(cfg.isNull[..|s.queue.taken|]) >= cfg.numThreads ==>
          cfg.isNull[|s.queue.taken| - 1])
  }

  ghost predicate Inv(cfg: Config, s: Server) {
    && ProgramOrder(cfg, s) && MutualExclusion(s) && SentInOrder(cfg, s) && WaitersCovered(s)
    && OnePlace(cfg, s) && Accounts(cfg, s) && QuitReasons(cfg, s)
  }

  // ---------- lemmas about sums and streams ----------

  lemma {:induction false} SumUpdate(ws: seq<WorkerState>, i: nat, w: WorkerState, f: WorkerState -> nat)
    requires i < |ws|
    ensures Sum(ws[i := w], f) + f(ws[i]) == Sum(ws, f) + f(w)
  {
    if i == 0 {
      assert ws[0 := w][1..] == ws[1..];
    } else {
      SumUpdate(ws[1..], i - 1, w, f);
      assert ws[i := w][1..] == ws[1..][i - 1 := w];
    }
  }

  lemma {:induction false} SumSame(ws: seq<WorkerState>, ws': seq<WorkerState>, f: WorkerState -> nat)
    requires |ws'| == |ws| && forall i :: 0 <= i < |ws| ==> f(ws'[i]) == f(ws[i])
    ensures Sum(ws', f) == Sum(ws, f)
  {
    if ws != [] { SumSame(ws[1..], ws'[1..], f); }
  }

  lemma {:induction false} SumBounded(ws: seq<WorkerState>, f: WorkerState -> nat, i: nat)
    requires i < |ws| && (forall w :: f(w) <= 1) && f(ws[i]) == 0
    ensures Sum(ws, f) < |ws|
  {
    if i > 0 {
      SumBounded(ws[1..], f, i - 1);
    } else {
      SumAtMost(ws[1..], f);
    }
  }

  lemma {:induction false} SumAtMost(ws: seq<WorkerState>, f: WorkerState -> nat)
    requires forall w :: f(w) <= 1
    ensures Sum(ws, f) <= |ws|
  {
    if ws != [] { SumAtMost(ws[1..], f); }
  }

  lemma {:induction false} SumAll(ws: seq<WorkerState>, f: WorkerState -> nat, c: nat)
    requires forall i :: 0 <= i < |ws| ==> f(ws[i]) == c
    ensures Sum(ws, f) == c * |ws|
  {
    if ws != [] {
      SumAll(ws[1..], f, c);
    }
  }

  lemma NullsNext(isNull: seq<bool>, k: nat)
    requires k < |isNull|
    ensures Nulls(isNull[..k + 1]) == Nulls(isNull[..k]) + if isNull[k] then 1 else 0
  {
    assert isNull[..k + 1][..k] == isNull[..k];
  }

  lemma HeadOfQueue(cfg: Config, s: Server)
    requires SentInOrder(cfg, s) && s.queue.items != []
    ensures |s.queue.taken| < |cfg.isNull| && s.queue.items[0] == cfg.Created(|s.queue.taken|)
  {
    var all := s.queue.taken + s.queue.items;
    assert all[|s.queue.taken|] == s.queue.items[0];
    assert |all| == s.sent;
  }

  // ---------- the invariant holds in every reachable state ----------

  lemma InitInv(cfg: Config)
    ensures Inv(cfg, Init(cfg))
  {
    var ws := Init(cfg).workers;
    SumAll(ws, ReqCount, 0);
    SumAll(ws, Holds, 0);
    SumAll(ws, GotNull, 0);
  }

  predicate Takes(s: Server, a: Action) {
    a.WorkerStep? && a.i < |s.workers| && s.workers[a.i].pc.Checking? && s.queue.items != []
  }

  predicate Executes(s: Server, a: Action) {
    a.WorkerStep? && a.i < |s.workers| && s.workers[a.i].pc.Working?
  }

  /** Any step but taking an item or executing a request leaves all the accounts alone. */
  lemma QuietStep(cfg: Config, s: Server, a: Action)
    requires ProgramOrder(cfg, s) && Enabled(cfg, s, a) && !Takes(s, a) && !Executes(s, a)
    ensures var s' := Step(cfg, s, a);
      && s'.queue.taken == s.queue.taken && s'.executed == s.executed && |s'.workers| == |s.workers|
      && forall i :: 0 <= i < |s.workers| ==>
           && HeldBy(s'.workers[i]) == HeldBy(s.workers[i])
           && ReqCount(s'.workers[i]) == ReqCount(s.workers[i])
           && GotNull(s'.workers[i]) == GotNull(s.workers[i])
  {
  }

  lemma ProgramOrderStep(cfg: Config, s: Server, a: Action)
    requires ProgramOrder(cfg, s) && Enabled(cfg, s, a)
    ensures ProgramOrder(cfg, Step(cfg, s, a))
  {
  }

  lemma MutualExclusionStep(cfg: Config, s: Server, a: Action)
    requires MutualExclusion(s) && ProgramOrder(cfg, s) && Enabled(cfg, s, a)
    ensures MutualExclusion(Step(cfg, s, a))
  {
    if a.MainStep? { MutualExclusionMain(cfg, s); } else { MutualExclusionWorker(cfg, s, a); }
  }

  lemma MutualExclusionMain(cfg: Config, s: Server)
    requires MutualExclusion(s) && ProgramOrder(cfg, s) && Enabled(cfg, s, MainStep)
    ensures MutualExclusion(Step(cfg, s, MainStep))
  {
  }

  lemma MutualExclusionWorker(cfg: Config, s: Server, a: Action)
    requires MutualExclusion(s) && Enabled(cfg, s, a) && !a.MainStep?
    ensures MutualExclusion(Step(cfg, s, a))
  {
  }

  lemma SentInOrderStep(cfg: Config, s: Server, a: Action)
    requires SentInOrder(cfg, s) && Enabled(cfg, s, a)
    ensures SentInOrder(cfg, Step(cfg, s, a))
  {
    var s' := Step(cfg, s, a);
    if a.MainStep? && s.main.EnqUpdate? {
      assert s'.queue.taken + s'.queue.items == (s.queue.taken + s.queue.items) + [cfg.Created(s.sent)];
      assert cfg.Stream(s.sent + 1) == cfg.Stream(s.sent) + [cfg.Created(s.sent)];
    } else if Takes(s, a) {
      assert s'.queue.taken + s'.queue.items == s.queue.taken + s.queue.items;
    }
  }

  lemma WaitersCoveredStep(cfg: Config, s: Server, a: Action)
    requires WaitersCovered(s) && ProgramOrder(cfg, s) && Enabled(cfg, s, a)
    ensures WaitersCovered(Step(cfg, s, a))
  {
  }

  lemma QuitReasonsStep(cfg: Config, s: Server, a: Action)
    requires ProgramOrder(cfg, s) && SentInOrder(cfg, s) && Accounts(cfg, s) && QuitReasons(cfg, s)
    requires Enabled(cfg, s, a)
    ensures QuitReasons(cfg, Step(cfg, s, a))
  {
    SawClosedStep(cfg, s, a);
    if Takes(s, a) {
      LastNull(cfg, s, a.i);
    } else {
      TakesOnly(cfg, s, a);
    }
  }

  lemma TakesOnly(cfg: Config, s: Server, a: Action)
    requires Enabled(cfg, s, a) && !Takes(s, a)
    ensures Step(cfg, s, a).queue.taken == s.queue.taken
  {
  }

  lemma LastNull(cfg: Config, s: Server, w: nat)
    requires ProgramOrder(cfg, s) && SentInOrder(cfg, s) && Accounts(cfg, s) && Takes(s, WorkerStep(w))
    ensures |s.queue.taken| < |cfg.isNull| && cfg.numThreads > 0
    ensures Nulls(cfg.isNull[..|s.queue.taken| + 1]) >= cfg.numThreads ==> cfg.isNull[|s.queue.taken|]
  {
    HeadOfQueue(cfg, s);
    NullsNext(cfg.isNull, |s.queue.taken|);
    SumBounded(s.workers, GotNull, w);
  }

  lemma SawClosedStep(cfg: Config, s: Server, a: Action)
    requires ProgramOrder(cfg, s) && QuitReasons(cfg, s) && Enabled(cfg, s, a)
    ensures var s' := Step(cfg, s, a);
      forall i :: 0 <= i < |s'.workers| && SawClosed(s'.workers[i]) ==> s'.queue.closed && s'.queue.items == []
  {
  }

  lemma AccountsStep(cfg: Config, s: Server, a: Action)
    requires Accounts(cfg, s) && SentInOrder(cfg, s) && ProgramOrder(cfg, s) && Enabled(cfg, s, a)
    ensures Accounts(cfg, Step(cfg, s, a))
  {
    if Takes(s, a) {
      AccountsTake(cfg, s, a.i);
    } else if Executes(s, a) {
      AccountsExecute(cfg, s, a.i);
    } else {
      var s' := Step(cfg, s, a);
      QuietStep(cfg, s, a);
      SumSame(s.workers, s'.workers, ReqCount);
      SumSame(s.workers, s'.workers, Holds);
      SumSame(s.workers, s'.workers, GotNull);
    }
  }

  lemma AccountsTake(cfg: Config, s: Server, w: nat)
    requires Accounts(cfg, s) && SentInOrder(cfg, s) && Enabled(cfg, s, WorkerStep(w)) && Takes(s, WorkerStep(w))
    ensures Accounts(cfg, Step(cfg, s, WorkerStep(w)))
  {
    HeadOfQueue(cfg, s);
    NullsNext(cfg.isNull, |s.queue.taken|);
    SumsUpdate(s.workers, w, Step(cfg, s, WorkerStep(w)).workers[w]);
  }

  lemma AccountsExecute(cfg: Config, s: Server, w: nat)
    requires Accounts(cfg, s) && Enabled(cfg, s, WorkerStep(w)) && Executes(s, WorkerStep(w))
    ensures Accounts(cfg, Step(cfg, s, WorkerStep(w)))
  {
    var s' := Step(cfg, s, WorkerStep(w));
    SumsUpdate(s.workers, w, s'.workers[w]);
    forall i: nat ensures DoneBy(s'.executed, i) == DoneBy(s.executed, i) + One(i == w) {
      OneMoreDone(s.executed, s'.executed[|s.executed|], i);
    }
  }

  lemma OneMoreDone(executed: seq<Completion>, c: Completion, i: nat)
    ensures DoneBy(executed + [c], i) == DoneBy(executed, i) + One(c.worker == i)
  {
    assert (executed + [c])[..|executed|] == executed;
  }

  lemma SumsUpdate(ws: seq<WorkerState>, i: nat, w: WorkerState)
    requires i < |ws|
    ensures Sum(ws[i := w], ReqCount) + ReqCount(ws[i]) == Sum(ws, ReqCount) + ReqCount(w)
    ensures Sum(ws[i := w], Holds) + Holds(ws[i]) == Sum(ws, Holds) + Holds(w)
    ensures Sum(ws[i := w], GotNull) + GotNull(ws[i]) == Sum(ws, GotNull) + GotNull(w)
  {
    SumUpdate(ws, i, w, ReqCount);
    SumUpdate(ws, i, w, Holds);
    SumUpdate(ws, i, w, GotNull);
  }

  lemma OnePlaceStep(cfg: Config, s: Server, a: Action)
    requires OnePlace(cfg, s) && SentInOrder(cfg, s) && ProgramOrder(cfg, s) && Enabled(cfg, s, a)
    ensures OnePlace(cfg, Step(cfg, s, a))
  {
    if Takes(s, a) {
      OnePlaceTake(cfg, s, a.i);
    } else if Executes(s, a) {
      OnePlaceExecute(cfg, s, a.i);
    } else {
      QuietStep(cfg, s, a);
      OnePlaceQuiet(cfg, s, Step(cfg, s, a));
    }
  }

  lemma OnePlaceQuiet(cfg: Config, s: Server, s': Server)
    requires OnePlace(cfg, s)
    requires s'.queue.taken == s.queue.taken && s'.executed == s.executed && |s'.workers| == |s.workers|
    requires forall i :: 0 <= i < |s.workers| ==> HeldBy(s'.workers[i]) == HeldBy(s.workers[i])
    ensures OnePlace(cfg, s')
  {
    forall k | 0 <= k < |s.queue.taken| && !cfg.isNull[k] ensures Held(s', k) || Executed(s', k) {
      if Held(s, k) {
        var i :| 0 <= i < |s.workers| && HeldBy(s.workers[i]) == Some(k);
        assert HeldBy(s'.workers[i]) == Some(k);
      }
    }
  }

  lemma OnePlaceTake(cfg: Config, s: Server, w: nat)
    requires OnePlace(cfg, s) && SentInOrder(cfg, s) && Enabled(cfg, s, WorkerStep(w))
    requires s.workers[w].pc.Checking? && s.queue.items != []
    ensures OnePlace(cfg, Step(cfg, s, WorkerStep(w)))
  {
    HeadOfQueue(cfg, s);
    var s' := Step(cfg, s, WorkerStep(w));
    var n := |s.queue.taken|;
    assert HeldBy(s'.workers[w]) == if cfg.isNull[n] then None else Some(n);
    assert forall i :: 0 <= i < |s.workers| && i != w ==> s'.workers[i] == s.workers[i];
    forall k | 0 <= k < |s'.queue.taken| && !cfg.isNull[k] ensures Held(s', k) || Executed(s', k) {
      if k < n && Held(s, k) {
        var i :| 0 <= i < |s.workers| && HeldBy(s.workers[i]) == Some(k);
        assert HeldBy(s'.workers[i]) == Some(k);
      } else if k < n {
        assert Executed(s, k);
      }
    }
  }

  lemma OnePlaceExecute(cfg: Config, s: Server, w: nat)
    requires OnePlace(cfg, s) && Enabled(cfg, s, WorkerStep(w)) && s.workers[w].pc.Working?
    ensures OnePlace(cfg, Step(cfg, s, WorkerStep(w)))
  {
    OnePlaceMoved(cfg, s, Step(cfg, s, WorkerStep(w)), w, s.workers[w].pc.id);
  }

  /** The request that worker w held is now among the executed ones. */
  lemma OnePlaceMoved(cfg: Config, s: Server, s': Server, w: nat, id: nat)
    requires OnePlace(cfg, s) && s'.queue == s.queue && |s'.workers| == |s.workers| && w < |s.workers|
    requires HeldBy(s.workers[w]) == Some(id) && HeldBy(s'.workers[w]) == None
    requires forall i :: 0 <= i < |s.workers| && i != w ==> s'.workers[i] == s.workers[i]
    requires s'.executed == s.executed + [Completion(w, id)]
    ensures OnePlace(cfg, s')
  {
    assert s'.executed[|s.executed|].id == id;
    assert forall e :: 0 <= e < |s.executed| ==> s'.executed[e] == s.executed[e];
    forall k | 0 <= k < |s.queue.taken| && !cfg.isNull[k] ensures Held(s', k) || Executed(s', k) {
      if Executed(s, k) {
        var e :| 0 <= e < |s.executed| && s.executed[e].id == k;
        assert s'.executed[e].id == k;
      } else if k != id {
        var i :| 0 <= i < |s.workers| && HeldBy(s.workers[i]) == Some(k);
        assert HeldBy(s'.workers[i]) == Some(k);
      }
    }
  }

  lemma StepInv(cfg: Config, s: Server, a: Action)
    requires Inv(cfg, s) && Enabled(cfg, s, a)
    ensures Inv(cfg, Step(cfg, s, a))
  {
    ProgramOrderStep(cfg, s, a);
    MutualExclusionStep(cfg, s, a);
    SentInOrderStep(cfg, s, a);
    WaitersCoveredStep(cfg, s, a);
    OnePlaceStep(cfg, s, a);
    AccountsStep(cfg, s, a);
    QuitReasonsStep(cfg, s, a);
  }

  lemma {:induction false} ExecInv(cfg: Config, actions: seq<Action>)
    requires Exec(cfg, actions).Some?
    ensures Inv(cfg, Exec(cfg, actions).value)
  {
    if actions == [] {
      InitInv(cfg);
    } else {
      var before := actions[..|actions| - 1];
      ExecInv(cfg, before);
      StepInv(cfg, Exec(cfg, before).value, actions[|actions| - 1]);
    }
  }

  // ---------- what it means ----------

  ghost predicate Queued(s: Server, k: nat) {
    exists p :: 0 <= p < |s.queue.items| && s.queue.items[p] == Request(k)
  }

  /** In every reachable state a request that was sent is in exactly one place: in the queue, held by
      a worker, or executed; and there only once. One not yet sent is nowhere. */
  lemma EveryRequestInOnePlace(cfg: Config, actions: seq<Action>, k: nat)
    requires Exec(cfg, actions).Some? && k < |cfg.isNull| && !cfg.isNull[k]
    ensures var s := Exec(cfg, actions).value;
      && One(Queued(s, k)) + One(Held(s, k)) + One(Executed(s, k)) == One(k < s.sent)
      && (forall p, q :: 0 <= p < q < |s.queue.items| && s.queue.items[p] == Request(k) ==>
            s.queue.items[q] != Request(k))
      && (forall i, j :: 0 <= i < j < |s.workers| && HeldBy(s.workers[i]) == Some(k) ==>
            HeldBy(s.workers[j]) != Some(k))
      && (forall e, f :: 0 <= e < f < |s.executed| && s.executed[e].id == k ==> s.executed[f].id != k)
  {
    ExecInv(cfg, actions);
    QueuedIff(cfg, Exec(cfg, actions).value, k);
  }

  lemma QueuedIff(cfg: Config, s: Server, k: nat)
    requires SentInOrder(cfg, s) && k < |cfg.isNull| && !cfg.isNull[k]
    ensures Queued(s, k) <==> |s.queue.taken| <= k < s.sent
    ensures forall p, q :: 0 <= p < q < |s.queue.items| && s.queue.items[p] == Request(k) ==>
              s.queue.items[q] != Request(k)
    ensures |s.queue.taken| <= s.sent
  {
    var t := |s.queue.taken|;
    var all := s.queue.taken + s.queue.items;
    assert |all| == s.sent;
    forall p | 0 <= p < |s.queue.items| ensures s.queue.items[p] == cfg.Created(t + p) {
      assert all[t + p] == s.queue.items[p];
    }
    if t <= k < s.sent {
      assert s.queue.items[k - t] == Request(k);
    }
  }

  /** In every reachable state, a worker that is blocked in the wait while the queue is non-empty or
      closed is covered by main, which made that change under the mutex and has yet to broadcast. */
  lemma {:induction false} NoLostWakeup(cfg: Config, actions: seq<Action>, i: nat)
    requires Exec(cfg, actions).Some?
    requires i < |Exec(cfg, actions).value.workers| && Exec(cfg, actions).value.workers[i].pc.Waiting?
    ensures var s := Exec(cfg, actions).value;
      s.queue.items != [] || s.queue.closed ==> BroadcastPending(s.main)
  {
    ExecInv(cfg, actions);
  }

  /** At any time at most one thread is inside a critical section, and it is the owner of the mutex. */
  lemma OneThreadInside(cfg: Config, actions: seq<Action>, i: nat)
    requires Exec(cfg, actions).Some?
    requires i < |Exec(cfg, actions).value.workers| && WorkerOwns(Exec(cfg, actions).value.workers[i].pc)
    ensures var s := Exec(cfg, actions).value;
      !MainOwns(s.main) && forall j :: 0 <= j < |s.workers| && j != i ==> !WorkerOwns(s.workers[j].pc)
  {
    ExecInv(cfg, actions);
  }

  /** Once the queue is destroyed no worker will ever move again, so none touches it. */
  lemma NothingAfterDestroy(cfg: Config, actions: seq<Action>, a: Action)
    requires Exec(cfg, actions).Some? && Exec(cfg, actions).value.destroyed
    ensures !Enabled(cfg, Exec(cfg, actions).value, a)
  {
    ExecInv(cfg, actions);
  }

  // ---------- how a run ends ----------

  /** How many items n workers take from the queue before the last one has quit: all of them, unless
      the n-th NULL comes earlier. */
  function Cut(isNull: seq<bool>, n: nat): nat {
    if n == 0 || isNull == [] then 0 else 1 + Cut(isNull[1..], if isNull[0] then n - 1 else n)
  }

  lemma {:induction false} NullsFirst(isNull: seq<bool>, t: nat)
    requires 0 < t <= |isNull|
    ensures Nulls(isNull[..t]) == One(isNull[0]) + Nulls(isNull[1..][..t - 1])
  {
    NullsNext(isNull, t - 1);
    if t > 1 {
      NullsFirst(isNull, t - 1);
      NullsNext(isNull[1..], t - 2);
    } else {
      assert isNull[..0] == [] && isNull[1..][..0] == [];
    }
  }

  lemma {:induction false} CutIs(isNull: seq<bool>, n: nat, t: nat)
    requires t <= |isNull| && Nulls(isNull[..t]) <= n && (t > 0 ==> n > 0)
    requires t > 0 && Nulls(isNull[..t]) >= n ==> isNull[t - 1]
    requires t == |isNull| || Nulls(isNull[..t]) == n
    ensures t == Cut(isNull, n)
  {
    if t == 0 {
      assert isNull[..0] == [];
    } else {
      NullsFirst(isNull, t);
      if t > 1 {
        NullsNext(isNull[1..], t - 2);
      }
      CutIs(isNull[1..], if isNull[0] then n - 1 else n, t - 1);
    }
  }

  /** The queue is drained exactly when at least one worker outlives the NULLs before the last item. */
  lemma {:induction false} CutAll(isNull: seq<bool>, n: nat)
    ensures Cut(isNull, n) <= |isNull|
    ensures Cut(isNull, n) == |isNull| <==> isNull == [] || Nulls(isNull[..|isNull| - 1]) < n
  {
    if isNull != [] && n > 0 {
      CutAll(isNull[1..], if isNull[0] then n - 1 else n);
      if |isNull| > 1 {
        NullsFirst(isNull, |isNull| - 1);
        assert isNull[1..][..|isNull[1..]| - 1] == isNull[1..][..|isNull| - 2];
      } else {
        assert isNull[..0] == [];
      }
    }
  }

  /** A cut before the end is just after the n-th NULL. */
  lemma {:induction false} CutMeans(isNull: seq<bool>, n: nat)
    requires n > 0 && Cut(isNull, n) < |isNull|
    ensures var cut := Cut(isNull, n); cut > 0 && isNull[cut - 1] && Nulls(isNull[..cut]) == n
  {
    var cut := Cut(isNull, n);
    NullsFirst(isNull, cut);
    var rest := if isNull[0] then n - 1 else n;
    if rest > 0 {
      CutMeans(isNull[1..], rest);
    } else {
      assert isNull[1..][..0] == [];
    }
  }

  /** When main has finished, all workers have exited, exactly the requests before the cut were
      executed, each once, and the req_count values add up to them. What lies behind the cut is left
      in the queue. */
  lemma FinalState(cfg: Config, actions: seq<Action>)
    requires Exec(cfg, actions).Some? && Exec(cfg, actions).value.main.Finished?
    ensures var s := Exec(cfg, actions).value;
      var cut := Cut(cfg.isNull, cfg.numThreads);
      && (forall i :: 0 <= i < |s.workers| ==> s.workers[i].pc.Exited?)
      && s.queue.taken + s.queue.items == cfg.Stream(|cfg.isNull|) && |s.queue.taken| == cut <= |cfg.isNull|
      && (forall k :: 0 <= k < cut ==> (Executed(s, k) <==> !cfg.isNull[k]))
      && (forall k :: cut <= k ==> !Executed(s, k))
      && Sum(s.workers, ReqCount) == |s.executed| == cut - Nulls(cfg.isNull[..cut])
  {
    ExecInv(cfg, actions);
    var s := Exec(cfg, actions).value;
    TakenAtEnd(cfg, s);
    SumAll(s.workers, Holds, 0);
    forall k | 0 <= k < |s.queue.taken| ensures Executed(s, k) <==> !cfg.isNull[k] {
      assert !Held(s, k);
    }
  }

  lemma TakenAtEnd(cfg: Config, s: Server)
    requires Inv(cfg, s) && s.main.Finished?
    ensures |s.queue.taken| == Cut(cfg.isNull, cfg.numThreads) <= |cfg.isNull|
  {
    SumAtMost(s.workers, GotNull);
    assert |s.queue.taken + s.queue.items| == |cfg.isNull|;
    if s.queue.items != [] {
      AllGotNull(s);
    }
    CutIs(cfg.isNull, cfg.numThreads, |s.queue.taken|);
  }

  lemma AllGotNull(s: Server)
    requires forall i :: 0 <= i < |s.workers| ==> s.workers[i].pc.Exited? && !SawClosed(s.workers[i])
    ensures Sum(s.workers, GotNull) == |s.workers|
  {
    forall i | 0 <= i < |s.workers| ensures GotNull(s.workers[i]) == 1 {
      assert s.workers[i].pc.cause.NullRequest?;
      assert s.workers[i].pc == Exited(NullRequest);
    }
    SumAll(s.workers, GotNull, 1);
  }

  /** The queue that main destroys is empty, and so every node was freed, exactly when at least one
      worker outlives the NULLs before the last request. With no NULL this says: at least one worker. */
  lemma DrainedIff(cfg: Config, actions: seq<Action>)
    requires Exec(cfg, actions).Some? && Exec(cfg, actions).value.main.Finished?
    ensures Exec(cfg, actions).value.queue.items == [] <==>
            cfg.isNull == [] || Nulls(cfg.isNull[..|cfg.isNull| - 1]) < cfg.numThreads
  {
    FinalState(cfg, actions);
    CutAll(cfg.isNull, cfg.numThreads);
    var s := Exec(cfg, actions).value;
    assert |s.queue.taken + s.queue.items| == |cfg.isNull|;
  }

  lemma {:induction false} NoNulls(isNull: seq<bool>)
    requires forall k :: 0 <= k < |isNull| ==> !isNull[k]
    ensures Nulls(isNull) == 0
  {
    if isNull != [] { NoNulls(isNull[..|isNull| - 1]); }
  }

  /** With at least one worker and no NULL request, every request sent is executed exactly once and
      the queue is empty when main destroys it. */
  lemma EverythingServed(cfg: Config, actions: seq<Action>)
    requires Exec(cfg, actions).Some? && Exec(cfg, actions).value.main.Finished?
    requires cfg.numThreads > 0 && forall k :: 0 <= k < |cfg.isNull| ==> !cfg.isNull[k]
    ensures var s := Exec(cfg, actions).value;
      && s.queue.items == []
      && (forall k :: 0 <= k < |cfg.isNull| ==> Executed(s, k))
      && Sum(s.workers, ReqCount) == |s.executed| == |cfg.isNull|
  {
    FinalState(cfg, actions);
    DrainedIff(cfg, actions);
    NoNulls(cfg.isNull);
    if cfg.isNull != [] { NoNulls(cfg.isNull[..|cfg.isNull| - 1]); }
    var s := Exec(cfg, actions).value;
    assert |s.queue.taken| == |cfg.isNull|;
    assert cfg.isNull[..|cfg.isNull|] == cfg.isNull;
  }
}
