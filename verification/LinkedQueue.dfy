/** The linked list behind the request queue, as it lives on the heap: a sentinel `header`, a `tail`
    pointer and a `size`.

    Two habits of the code decide the invariant. Enqueueing onto a non-empty queue stores the new
    node into `tail->next` once more after `tail` already is the new node, so the last node points to
    itself; and draining the queue leaves `header->next` pointing to the node just freed. Neither end
    of the chain is marked by NULL, so `size` alone says how far the chain may be followed.
  */
module LinkedQueue {
  import opened Basics
  import opened Fifo

  /** A heap cell. A field can be reached only through a method that requires the cell to be live, so
      a read or write of a freed cell, or a second free, does not verify. */
  class Node {
    var data: Pointer
    var next: Node?
    ghost var live: bool
    ghost const serial: int  // allocation number among the data nodes, -1 for a sentinel

    constructor (data: Pointer, ghost serial: int)
      ensures this.data == data && this.next == null && live && this.serial == serial
    {
      this.data, this.next, this.live, this.serial := data, null, true, serial;
    }

    function Data(): Pointer
      requires live
      reads this
    {
      data
    }

    function Next(): Node?
      requires live
      reads this
    {
      next
    }

    method SetNext(n: Node?)
      requires live
      modifies this`next
      ensures next == n
    {
      next := n;
    }

    method Free()
      requires live
      modifies this`live
      ensures !live
    {
      live := false;
    }
  }

  /** Following `next` from `from`, one hop per element, visits the nodes of `path`. */
  ghost predicate Visits(from: Node, path: seq<Node>)
    reads from, path
  {
    path == [] || (from.next == path[0] && Visits(path[0], path[1..]))
  }

  ghost function View(history: seq<Pointer>, head: nat, closed: bool): Fifo.State<Pointer>
    requires head <= |history|
  {
    Fifo.State(history[..head], history[head..], closed)
  }

  lemma EnqueueView(history: seq<Pointer>, head: nat, closed: bool, x: Pointer)
    requires head <= |history|
    ensures View(history + [x], head, closed) == Fifo.Enqueue(View(history, head, closed), x)
  {
  }

  lemma DequeueView(history: seq<Pointer>, head: nat, closed: bool)
    requires head < |history|
    ensures (View(history, head + 1, closed), Item(history[head])) == Fifo.Dequeue(View(history, head, closed))
  {
    assert history[..head + 1] == history[..head] + [history[head]];
  }

  class Queue {
    var header: Node
    var tail: Node
    var size: int
    var isclosed: bool
    ghost var alive: bool            // false once the queue has been destroyed
    ghost var nodes: seq<Node>    // every data node ever allocated, in order of allocation
    ghost var history: seq<Pointer>  // the data put into them
    ghost var head: nat              // how many have been handed out and freed

    ghost predicate Valid()
      reads this, header, nodes
    {
      && alive && header.live && header.serial == -1
      && head <= |nodes| == |history| && size == |nodes| - head
      && (forall i :: 0 <= i < |nodes| ==> Cell(i))
      && (if size == 0 then tail == header else header.next == nodes[head] && tail == nodes[|nodes| - 1])
      && EndsOfChain()
    }

    /** The i-th node ever allocated: freed once handed out, linked to the next one until then. */
    ghost predicate Cell(i: int)
      requires 0 <= i < |nodes| == |history|
      reads this, nodes
    {
      var n := nodes[i];
      && n.serial == i && (n.live <==> head <= i)
      && (head <= i ==> n.data == history[i])
      && (head <= i < |nodes| - 1 ==> n.next == nodes[i + 1])
    }

    /** How the chain ends: never by NULL once a second node was linked, and with a stale
        `header->next` after the queue was drained. */
    ghost predicate EndsOfChain()
      requires head <= |nodes| && size == |nodes| - head
      reads this, header, nodes
    {
      |nodes| > 0 ==>
        var last := nodes[|nodes| - 1];
        && (size > 1 ==> last.next == last)
        && (size == 1 ==> last.next == null || last.next == last)
        && (size == 0 ==> header.next == null || header.next == last)
    }

    /** The plain queue that this object stands for. */
    ghost function Model(): Fifo.State<Pointer>
      requires Valid()
      reads this, header, nodes
    {
      View(history, head, isclosed)
    }

    /** `size` hops from `header` visit distinct live nodes that hold exactly the pending items in
        order, whatever `next` of the last node or of an empty queue's header happens to be. */
    lemma HopsFromHeader()
      requires Valid()
      ensures |nodes[head..]| == size == |Model().items|
      ensures Visits(header, nodes[head..])
      ensures forall n :: n in nodes[head..] ==> n.live
      ensures forall i, j :: 0 <= i < j < |nodes| ==> nodes[i] != nodes[j]
      ensures forall i :: 0 <= i < size ==> nodes[head..][i].data == Model().items[i]
    {
      assert forall i :: head <= i < |nodes| ==> Cell(i) ==> nodes[i].live && nodes[i].data == history[i];
      forall i, j | 0 <= i < j < |nodes| ensures nodes[i] != nodes[j] {
        assert Cell(i) && Cell(j);
      }
      if size > 0 {
        VisitsFrom(head);
        assert nodes[head..][1..] == nodes[head + 1..];
      }
    }

    lemma {:induction false} VisitsFrom(k: nat)
      requires Valid() && head <= k < |nodes|
      ensures Visits(nodes[k], nodes[k + 1..])
      decreases |nodes| - k
    {
      if k + 1 < |nodes| {
        assert Cell(k);
        VisitsFrom(k + 1);
        assert nodes[k + 1..][1..] == nodes[k + 2..];
      }
    }

    constructor ()
      ensures Valid() && fresh(header)
      ensures nodes == [] && Model() == Fifo.Empty()
    {
      isclosed := false;
      size := 0;
      var h := new Node(Null, -1);
      header := h;
      tail := h;
      alive, nodes, history, head := true, [], [], 0;
    }

    method Enqueue(data: Pointer)
      requires Valid()
      modifies this, tail`next
      ensures Valid() && header == old(header)
      ensures Model() == Fifo.Enqueue(old(Model()), data)
      ensures fresh(tail) && nodes == old(nodes) + [tail]
    {
      assert size > 0 ==> Cell(|nodes| - 1);
      var node := new Node(data, |nodes|);
      tail.SetNext(node);
      tail := node;
      if size == 0 {
        header.SetNext(node);
        tail := node;
      } else {
        tail.SetNext(node);
        tail := node;
      }
      size := size + 1;
      EnqueueView(history, head, isclosed, data);
      nodes, history := nodes + [node], history + [data];
      forall i | 0 <= i < |nodes| ensures Cell(i) {
        if i < |nodes| - 1 { assert old(Cell(i)); }
      }
    }

    method Close()
      requires Valid()
      modifies this`isclosed
      ensures Valid() && Model() == Fifo.Close(old(Model()))
    {
      isclosed := true;
      assert forall i :: 0 <= i < |nodes| ==> old(Cell(i)) ==> Cell(i);
    }

    /** One pass through the locked part of a dequeue: it ends by returning an item, by returning
        NULL because the queue is closed, or by going to wait. */
    method Dequeue() returns (outcome: Outcome<Pointer>)
      requires Valid()
      modifies this`size, this`tail, this`head, header`next, nodes[head..]`live
      ensures Valid() && (Model(), outcome) == Fifo.Dequeue(old(Model()))
    {
      if size == 0 {
        if isclosed {
          return Closed;
        } else {
          return MustWait;
        }
      }
      var data := TakeFirst();
      outcome := Item(data);
    }

    /** The rest of a dequeue, once the wait is over. */
    method TakeFirst() returns (data: Pointer)
      requires Valid() && size > 0
      modifies this`size, this`tail, this`head, header`next, header.next`live
      ensures Valid() && (Model(), Item(data)) == Fifo.Dequeue(old(Model()))
    {
      assert Cell(head);
      var node := header.Next();
      var rest := node.Next();
      header.SetNext(rest);
      size := size - 1;
      if size == 0 {
        tail := header;
      }
      data := node.Data();
      node.Free();
      DequeueView(history, head, isclosed);
      head := head + 1;
      forall i | 0 <= i < |nodes| ensures Cell(i) {
        assert old(Cell(i));
      }
    }

    /** One call on the queue. A dequeue that must wait returns to its caller here, so that calls of
        other threads can come next. */
    method Perform(op: Op<Pointer>) returns (outcome: Option<Outcome<Pointer>>)
      requires Valid()
      modifies this, header, nodes
      ensures Valid() && header == old(header)
      ensures nodes == old(nodes) + (if op.Put? then [tail] else []) && (op.Put? ==> fresh(tail))
      ensures Model() == Fifo.Apply(old(Model()), op)
      ensures outcome == Fifo.OutcomeOf(old(Model()), op)
    {
      outcome := None;
      match op
      case Put(x) =>
        Enqueue(x);
      case Take =>
        var end := Dequeue();
        outcome := Some(end);
      case Shut =>
        Close();
    }

    /** Any sequence of calls, in whatever order the threads get the mutex: the list goes through the
        states of the plain queue and hands out the same items, so what is handed out and what is left
        are the items pending at the start and those put since, in order. */
    method PerformAll(ops: seq<Op<Pointer>>) returns (outcomes: seq<Option<Outcome<Pointer>>>)
      requires Valid()
      modifies this, header, nodes
      ensures Valid() && header == old(header)
      ensures old(nodes) <= nodes && forall k :: |old(nodes)| <= k < |nodes| ==> fresh(nodes[k])
      ensures Model() == Fifo.Run(old(Model()), ops) && outcomes == Fifo.Outcomes(old(Model()), ops)
      ensures Handed(outcomes) + Model().items == old(Model().items) + Puts(ops)
      decreases |ops|
    {
      FirstInFirstOut(Model(), ops);
      if ops == [] {
        return [];
      }
      var first := Perform(ops[0]);
      var rest := PerformAll(ops[1..]);
      outcomes := [first] + rest;
    }

    /** Frees the sentinel and the queue. It frees no data node, so the nodes still pending leak:
        every data node ever allocated has been freed exactly when nothing was pending. */
    method Destroy()
      requires Valid()
      modifies this`alive, header`live
      ensures !alive && !header.live
      ensures forall i :: 0 <= i < |nodes| ==> (nodes[i].live <==> |old(Model()).taken| <= i)
      ensures (forall n :: n in nodes ==> !n.live) <==> old(Model()).items == []
    {
      header.Free();
      alive := false;
      forall i | 0 <= i < |nodes| ensures nodes[i].live <==> head <= i {
        assert old(Cell(i));
      }
      if size > 0 {
        assert nodes[head] in nodes;
      }
    }
  }
}
