/** The consumer loop of a worker, run on the linked queue itself. */
module WorkerThread {
  import opened Fifo
  import opened LinkedQueue
  import opened ServerSafety

  /** The requests executed are the first items, none of them NULL, in order. */
  ghost predicate InOrder(items: seq<Pointer>, executed: seq<nat>) {
    |executed| <= |items| && forall i :: 0 <= i < |executed| ==> items[i] == Request(executed[i])
  }

  /** While the worker goes on. */
  ghost predicate Served(before: State<Pointer>, now: State<Pointer>, executed: seq<nat>) {
    var k := |executed|;
    InOrder(before.items, executed)
    && now == State(before.taken + before.items[..k], before.items[k..], before.closed)
  }

  /** When the worker has quit or is blocked: it executed the items up to the first NULL and took that
      too, or it executed all items. It is blocked when the queue is open and held no NULL. */
  ghost predicate Stopped(before: State<Pointer>, now: State<Pointer>, executed: seq<nat>, blocked: bool) {
    var k := |executed|;
    && InOrder(before.items, executed)
    && (blocked <==> !before.closed && k == |before.items|)
    && if k < |before.items| then
         && before.items[k] == Null
         && now == State(before.taken + before.items[..k + 1], before.items[k + 1..], before.closed)
       else
         now == State(before.taken + before.items, [], before.closed)
  }

  /** do_work with no other thread at the queue: it executes the pending requests in order, up to the
      first NULL, frees exactly their nodes, and leaves the rest in the queue. It ends unless the queue
      is open and holds no NULL; then it has executed all and is blocked in the wait. */
  method DoWork(que: Queue) returns (reqCount: nat, executed: seq<nat>, blocked: bool)
    requires que.Valid()
    modifies que, que.header, que.nodes
    ensures que.Valid() && que.nodes == old(que.nodes) && que.header == old(que.header)
    ensures Stopped(old(que.Model()), que.Model(), executed, blocked) && reqCount == |executed|
  {
    ghost var before := que.Model();
    reqCount, executed, blocked := 0, [], false;
    NothingServed(before);
    while true
      invariant que.Valid() && que.nodes == old(que.nodes) && que.header == old(que.header)
      invariant Served(before, que.Model(), executed) && reqCount == |executed|
      decreases |before.items| - |executed|
    {
      NextRequest(before, que.Model(), executed);
      var req := que.Dequeue();
      if !req.Item? {
        blocked := req.MustWait?;
        return;
      }
      if req.value.Null? {
        return;
      }
      executed := executed + [req.value.id];
      reqCount := reqCount + 1;
    }
  }

  lemma NothingServed(before: State<Pointer>)
    ensures Served(before, before, [])
  {
    assert before.items[..0] == [] && before.taken + [] == before.taken;
  }

  /** What the next dequeue leads to. */
  lemma NextRequest(before: State<Pointer>, now: State<Pointer>, executed: seq<nat>)
    requires Served(before, now, executed)
    ensures var (now', req) := Fifo.Dequeue(now);
      if !req.Item? then Stopped(before, now', executed, req.MustWait?)
      else if req.value.Null? then Stopped(before, now', executed, false)
      else |executed| < |before.items| && Served(before, now', executed + [req.value.id])
  {
    var items, k := before.items, |executed|;
    if k < |items| {
      assert now.items[0] == items[k] && items[k..][1..] == items[k + 1..];
      assert before.taken + items[..k] + [items[k]] == before.taken + items[..k + 1];
    } else {
      assert items[..k] == items;
    }
  }

  function IsNull(items: seq<Pointer>): seq<bool> {
    seq(|items|, i requires 0 <= i < |items| => items[i].Null?)
  }

  /** What a lone worker takes is what the transition system says is taken with one worker. */
  lemma StopsAtCut(before: State<Pointer>, now: State<Pointer>, executed: seq<nat>, blocked: bool)
    requires Stopped(before, now, executed, blocked)
    ensures |before.items| - |now.items| == Cut(IsNull(before.items), 1)
  {
    FirstCut(before.items, |executed|);
  }

  lemma {:induction false} FirstCut(items: seq<Pointer>, k: nat)
    requires k <= |items| && forall i :: 0 <= i < k ==> !items[i].Null?
    ensures k == |items| ==> Cut(IsNull(items), 1) == k
    ensures k < |items| && items[k].Null? ==> Cut(IsNull(items), 1) == k + 1
    decreases k
  {
    if items != [] {
      assert IsNull(items)[1..] == IsNull(items[1..]);
      if k > 0 { FirstCut(items[1..], k - 1); }
    }
  }
}
