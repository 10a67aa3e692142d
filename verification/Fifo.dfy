/** The plain first-in first-out queue that the request queue is meant to be.

    Both the linked list (module LinkedQueue) and the multithreaded server (module RequestServer)
    are specified by the three operations below.
  */
module Fifo {
  import opened Basics

  /** A C pointer to a request: NULL, or the address of one. */
  datatype Pointer = Null | Request(id: nat)

  /** `taken` is the history of items handed out so far, `items` the pending ones. */
  datatype State<+T> = State(taken: seq<T>, items: seq<T>, closed: bool)

  /** What one pass through the locked part of a dequeue ends with. */
  datatype Outcome<+T> = Item(value: T) | Closed | MustWait

  datatype Op<+T> = Put(value: T) | Take | Shut

  function Empty<T>(): State<T> {
    State([], [], false)
  }

  function Enqueue<T>(s: State<T>, x: T): State<T> {
    s.(items := s.items + [x])
  }

  function Close<T>(s: State<T>): State<T> {
    s.(closed := true)
  }

  function Dequeue<T>(s: State<T>): (State<T>, Outcome<T>) {
    if |s.items| == 0 then
      (s, if s.closed then Closed else MustWait)
    else
      (s.(taken := s.taken + [s.items[0]], items := s.items[1..]), Item(s.items[0]))
  }

  function Apply<T>(s: State<T>, op: Op<T>): State<T> {
    match op
    case Put(x) => Enqueue(s, x)
    case Take => Dequeue(s).0
    case Shut => Close(s)
  }

  function Run<T>(s: State<T>, ops: seq<Op<T>>): State<T>
    decreases ops
  {
    if ops == [] then s else Run(Apply(s, ops[0]), ops[1..])
  }

  /** The items put by a sequence of operations, in order. */
  function Puts<T>(ops: seq<Op<T>>): seq<T> {
    if ops == [] then []
    else (if ops[0].Put? then [ops[0].value] else []) + Puts(ops[1..])
  }

  /** What the caller of an operation gets back. */
  function OutcomeOf<T>(s: State<T>, op: Op<T>): Option<Outcome<T>> {
    if op.Take? then Some(Dequeue(s).1) else None
  }

  function Outcomes<T>(s: State<T>, ops: seq<Op<T>>): seq<Option<Outcome<T>>>
    decreases ops
  {
    if ops == [] then [] else [OutcomeOf(s, ops[0])] + Outcomes(Apply(s, ops[0]), ops[1..])
  }

  /** The items handed out by one operation. */
  function HandedBy<T>(outcome: Option<Outcome<T>>): seq<T> {
    if outcome.Some? && outcome.value.Item? then [outcome.value.value] else []
  }

  /** The items among the outcomes, in order. */
  function Handed<T>(outcomes: seq<Option<Outcome<T>>>): seq<T> {
    if outcomes == [] then []
    else HandedBy(outcomes[0]) + Handed(outcomes[1..])
  }

  lemma OneOperation<T>(s: State<T>, op: Op<T>)
    ensures Apply(s, op).taken == s.taken + HandedBy(OutcomeOf(s, op))
    ensures HandedBy(OutcomeOf(s, op)) + Apply(s, op).items == s.items + if op.Put? then [op.value] else []
  {
  }

  lemma Regroup<T>(first: seq<T>, rest: seq<T>, pending: seq<T>, now: seq<T>,
                   before: seq<T>, put: seq<T>, later: seq<T>)
    requires rest + pending == now + later && first + now == before + put
    ensures first + rest + pending == before + (put + later)
  {
    assert first + rest + pending == first + (rest + pending) == (first + now) + later;
  }

  /** First in, first out: what was handed out, followed by what is still pending, is exactly what
      was put, in the order it was put. Nothing is lost, duplicated or reordered. */
  lemma {:induction false} FirstInFirstOut<T>(s: State<T>, ops: seq<Op<T>>)
    ensures Run(s, ops).taken == s.taken + Handed(Outcomes(s, ops))
    ensures Handed(Outcomes(s, ops)) + Run(s, ops).items == s.items + Puts(ops)
    decreases ops
  {
    if ops != [] {
      var s', first := Apply(s, ops[0]), HandedBy(OutcomeOf(s, ops[0]));
      var rest, pending := Handed(Outcomes(s', ops[1..])), Run(s', ops[1..]).items;
      FirstInFirstOut(s', ops[1..]);
      OneOperation(s, ops[0]);
      assert Outcomes(s, ops)[1..] == Outcomes(s', ops[1..]);
      Regroup(first, rest, pending, s'.items, s.items, if ops[0].Put? then [ops[0].value] else [], Puts(ops[1..]));
    }
  }

  /** Running one more operation. */
  lemma {:induction false} RunOneMore<T>(s: State<T>, ops: seq<Op<T>>, op: Op<T>)
    ensures Run(s, ops + [op]) == Apply(Run(s, ops), op)
    ensures Outcomes(s, ops + [op]) == Outcomes(s, ops) + [OutcomeOf(Run(s, ops), op)]
    decreases ops
  {
    if ops == [] {
      assert ops + [op] == [op] && [op][1..] == [];
    } else {
      RunOneMore(Apply(s, ops[0]), ops[1..], op);
      assert (ops + [op])[1..] == ops[1..] + [op];
    }
  }

  lemma {:induction false} OutcomeCount<T>(s: State<T>, ops: seq<Op<T>>)
    ensures |Outcomes(s, ops)| == |ops|
    decreases ops
  {
    if ops != [] { OutcomeCount(Apply(s, ops[0]), ops[1..]); }
  }
}
