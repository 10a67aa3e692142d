/** Threads that copy chunks from one shared stream to another, each through a buffer of its own. Every
    fread and every fwrite is atomic, which the stream's lock provides, and fwrite writes all it is
    given. Between a thread's read and its write, any other thread may read and write. */
module IoBuffers {
  import opened Basics

  const NREAD: nat := 512

  /** `input` is the source stream; `amount(k)` is how many bytes the k-th fread delivers. */
  datatype Config = Config(numThreads: nat, numio: nat, input: nat -> byte, amount: nat -> nat) {
    ghost predicate Valid() {
      forall k :: 1 <= amount(k) <= NREAD
    }

    function Input(from: nat, n: nat): seq<byte> {
      seq<byte>(n, k requires 0 <= k < n => input(from + k))
    }
  }

  /** `fnr` is what the last fread returned, until it has been written. */
  datatype Thread = Thread(done: nat, iobuf: seq<byte>, fnr: Option<nat>)

  datatype Chunk = Chunk(thread: nat, bytes: seq<byte>)

  /** `readLog` and `writeLog` record every chunk in the order of the calls. */
  datatype State = State(threads: seq<Thread>, consumed: nat, out: seq<byte>, readLog: seq<Chunk>, writeLog: seq<Chunk>)

  function Init(cfg: Config): State {
    State(seq(cfg.numThreads, _ => Thread(0, seq(NREAD, _ => 0), None)), 0, [], [], [])
  }

  predicate Enabled(cfg: Config, s: State, t: nat) {
    t < |s.threads| && s.threads[t].done < cfg.numio
  }

  /** The chunk in a thread's buffer that it has read and not yet written. */
  function Pending(th: Thread): seq<byte> {
    if th.fnr.Some? && th.fnr.value <= |th.iobuf| then th.iobuf[..th.fnr.value] else []
  }

  function Step(cfg: Config, s: State, t: nat): State
    requires Enabled(cfg, s, t)
  {
    var th := s.threads[t];
    match th.fnr
    case None =>
      var n := cfg.amount(|s.readLog|);
      var data := cfg.Input(s.consumed, n);
      var iobuf := if n <= |th.iobuf| then data + th.iobuf[n..] else data;
      State(s.threads[t := Thread(th.done, iobuf, Some(n))], s.consumed + n, s.out,
            s.readLog + [Chunk(t, data)], s.writeLog)
    case Some(n) =>
      State(s.threads[t := Thread(th.done + 1, th.iobuf, None)], s.consumed, s.out + Pending(th), s.readLog,
            s.writeLog + [Chunk(t, Pending(th))])
  }

  function Exec(cfg: Config, schedule: seq<nat>): Option<State> {
    if schedule == [] then Some(Init(cfg))
    else
      var before := Exec(cfg, schedule[..|schedule| - 1]);
      var t := schedule[|schedule| - 1];
      if before.Some? && Enabled(cfg, before.value, t) then Some(Step(cfg, before.value, t)) else None
  }

  predicate Complete(cfg: Config, s: State) {
    forall t :: 0 <= t < |s.threads| ==> s.threads[t].done == cfg.numio
  }

  // ---------- what every interleaving keeps ----------

  /** The chunks of one thread, in order. */
  function Of(log: seq<Chunk>, t: nat): seq<seq<byte>> {
    if log == [] then []
    else
      var last := log[|log| - 1];
      Of(log[..|log| - 1], t) + if last.thread == t then [last.bytes] else []
  }

  function Flatten(log: seq<Chunk>): seq<byte> {
    if log == [] then [] else Flatten(log[..|log| - 1]) + log[|log| - 1].bytes
  }

  function PendingBytes(threads: seq<Thread>): nat {
    if threads == [] then 0 else |Pending(threads[0])| + PendingBytes(threads[1..])
  }

  lemma {:induction false} PendingUpdate(threads: seq<Thread>, t: nat, th: Thread)
    requires t < |threads|
    ensures PendingBytes(threads[t := th]) + |Pending(threads[t])| == PendingBytes(threads) + |Pending(th)|
  {
    if t == 0 {
      assert threads[0 := th][1..] == threads[1..];
    } else {
      PendingUpdate(threads[1..], t - 1, th);
      assert threads[t := th][1..] == threads[1..][t - 1 := th];
    }
  }

  ghost predicate ThreadOk(cfg: Config, s: State, t: nat)
    requires t < |s.threads|
  {
    var th := s.threads[t];
    && |th.iobuf| == NREAD && th.done <= cfg.numio
    && (th.fnr.Some? ==> 1 <= th.fnr.value <= NREAD && th.done < cfg.numio)
    && |Of(s.writeLog, t)| == th.done
    && Of(s.readLog, t) == Of(s.writeLog, t) + if th.fnr.Some? then [Pending(th)] else []
  }

  ghost predicate Inv(cfg: Config, s: State) {
    && |s.threads| == cfg.numThreads
    && (forall t :: 0 <= t < |s.threads| ==> ThreadOk(cfg, s, t))
    && (forall c :: c in s.readLog ==> c.thread < cfg.numThreads)
    && (forall c :: c in s.writeLog ==> c.thread < cfg.numThreads)
    && (forall k :: 0 <= k < |s.readLog| ==> |s.readLog[k].bytes| == cfg.amount(k))
    && Flatten(s.readLog) == cfg.Input(0, s.consumed)
    && Flatten(s.writeLog) == s.out
    && |s.out| + PendingBytes(s.threads) == s.consumed
  }

  lemma OneMore(log: seq<Chunk>, c: Chunk)
    ensures Flatten(log + [c]) == Flatten(log) + c.bytes
    ensures forall t :: Of(log + [c], t) == Of(log, t) + if c.thread == t then [c.bytes] else []
  {
    assert (log + [c])[..|log|] == log;
  }

  lemma {:induction false} NothingPending(threads: seq<Thread>)
    requires forall t :: 0 <= t < |threads| ==> threads[t].fnr.None?
    ensures PendingBytes(threads) == 0
  {
    if threads != [] { NothingPending(threads[1..]); }
  }

  lemma InputGrows(cfg: Config, from: nat, n: nat)
    ensures cfg.Input(0, from + n) == cfg.Input(0, from) + cfg.Input(from, n)
  {
  }

  lemma ReadInv(cfg: Config, s: State, t: nat)
    requires cfg.Valid() && Inv(cfg, s) && Enabled(cfg, s, t) && s.threads[t].fnr.None?
    ensures Inv(cfg, Step(cfg, s, t))
  {
    var s' := Step(cfg, s, t);
    var n := cfg.amount(|s.readLog|);
    var data := cfg.Input(s.consumed, n);
    assert ThreadOk(cfg, s, t);
    OneMore(s.readLog, Chunk(t, data));
    PendingUpdate(s.threads, t, s'.threads[t]);
    assert Pending(s'.threads[t]) == data;
    InputGrows(cfg, s.consumed, n);
    forall u | 0 <= u < |s.threads| ensures ThreadOk(cfg, s', u) { assert ThreadOk(cfg, s, u); }
  }

  lemma WriteInv(cfg: Config, s: State, t: nat)
    requires cfg.Valid() && Inv(cfg, s) && Enabled(cfg, s, t) && s.threads[t].fnr.Some?
    ensures Inv(cfg, Step(cfg, s, t))
  {
    var s' := Step(cfg, s, t);
    assert ThreadOk(cfg, s, t);
    OneMore(s.writeLog, Chunk(t, Pending(s.threads[t])));
    PendingUpdate(s.threads, t, s'.threads[t]);
    forall u | 0 <= u < |s.threads| ensures ThreadOk(cfg, s', u) { assert ThreadOk(cfg, s, u); }
  }

  lemma {:induction false} ExecInv(cfg: Config, schedule: seq<nat>)
    requires cfg.Valid() && Exec(cfg, schedule).Some?
    ensures Inv(cfg, Exec(cfg, schedule).value)
  {
    if schedule == [] {
      NothingPending(Init(cfg).threads);
    } else {
      var before, t := schedule[..|schedule| - 1], schedule[|schedule| - 1];
      var s := Exec(cfg, before).value;
      ExecInv(cfg, before);
      if s.threads[t].fnr.None? { ReadInv(cfg, s, t); } else { WriteInv(cfg, s, t); }
    }
  }

  /** At any moment a thread's chunks have been written in the order it read them, unchanged, all but
      the one in its buffer. The output is the written chunks one after the other, the chunks read are
      consecutive pieces of the input, of the sizes that fread delivered, and no byte is lost: what was
      consumed is written or buffered. */
  lemma ChunksKept(cfg: Config, schedule: seq<nat>, t: nat)
    requires cfg.Valid() && Exec(cfg, schedule).Some? && t < cfg.numThreads
    ensures var s := Exec(cfg, schedule).value;
      && Of(s.writeLog, t) <= Of(s.readLog, t) && |Of(s.readLog, t)| <= |Of(s.writeLog, t)| + 1
      && s.out == Flatten(s.writeLog)
      && |Flatten(s.readLog)| == s.consumed
      && (forall k :: 0 <= k < s.consumed ==> Flatten(s.readLog)[k] == cfg.input(k))
      && (forall k :: 0 <= k < |s.readLog| ==> |s.readLog[k].bytes| == cfg.amount(k))
      && |s.out| + PendingBytes(s.threads) == s.consumed
  {
    ExecInv(cfg, schedule);
    assert ThreadOk(cfg, Exec(cfg, schedule).value, t);
  }

  /** When all threads are done, each has written exactly the chunks it read, `numio` of them, in the
      order of its reads, and the output is as long as what was consumed. */
  lemma AllWritten(cfg: Config, schedule: seq<nat>)
    requires cfg.Valid() && Exec(cfg, schedule).Some? && Complete(cfg, Exec(cfg, schedule).value)
    ensures var s := Exec(cfg, schedule).value;
      && (forall t: nat :: Of(s.writeLog, t) == Of(s.readLog, t))
      && (forall t: nat :: t < cfg.numThreads ==> |Of(s.writeLog, t)| == cfg.numio)
      && |s.out| == s.consumed
  {
    ExecInv(cfg, schedule);
    var s := Exec(cfg, schedule).value;
    forall t: nat
      ensures Of(s.writeLog, t) == Of(s.readLog, t) && (t < cfg.numThreads ==> |Of(s.writeLog, t)| == cfg.numio)
    {
      if t < cfg.numThreads {
        assert ThreadOk(cfg, s, t);
      } else {
        NoChunks(s.writeLog, t);
        NoChunks(s.readLog, t);
      }
    }
    forall t | 0 <= t < |s.threads| ensures s.threads[t].fnr.None? { assert ThreadOk(cfg, s, t); }
    NothingPending(s.threads);
  }

  lemma {:induction false} NoChunks(log: seq<Chunk>, t: nat)
    requires forall c :: c in log ==> c.thread != t
    ensures Of(log, t) == []
  {
    if log != [] { NoChunks(log[..|log| - 1], t); }
  }

  // ---------- such runs exist ----------

  function Count(schedule: seq<nat>, t: nat): nat {
    if schedule == [] then 0
    else Count(schedule[..|schedule| - 1], t) + if schedule[|schedule| - 1] == t then 1 else 0
  }

  /** Thread t exists, and the schedule gives it no more than its reads and writes. */
  ghost predicate Within(cfg: Config, schedule: seq<nat>, t: nat) {
    t < cfg.numThreads && Count(schedule, t) <= 2 * cfg.numio
  }

  lemma CountNext(schedule: seq<nat>, t: nat, u: nat)
    ensures Count(schedule + [t], u) == Count(schedule, u) + if u == t then 1 else 0
  {
    assert (schedule + [t])[..|schedule|] == schedule;
  }

  /** The reads and writes that a thread has made. */
  ghost predicate Made(cfg: Config, th: Thread, calls: nat) {
    calls == 2 * th.done + (if th.fnr.Some? then 1 else 0) && calls <= 2 * cfg.numio
  }

  /** The threads do not wait for each other: a schedule is a run exactly when no thread makes more
      than its own reads and writes, whatever their order. */
  lemma {:induction false} RunIff(cfg: Config, schedule: seq<nat>)
    ensures Exec(cfg, schedule).Some? <==> forall t :: t in schedule ==> Within(cfg, schedule, t)
    ensures Exec(cfg, schedule).Some? ==>
              var threads := Exec(cfg, schedule).value.threads;
              && |threads| == cfg.numThreads
              && forall t :: 0 <= t < |threads| ==> Made(cfg, threads[t], Count(schedule, t))
  {
    if schedule != [] {
      var before, t := schedule[..|schedule| - 1], schedule[|schedule| - 1];
      RunIff(cfg, before);
      assert schedule == before + [t];
      forall u: nat ensures Count(schedule, u) == Count(before, u) + if u == t then 1 else 0 {
        CountNext(before, t, u);
      }
      if Exec(cfg, before).None? {
        var u :| u in before && !Within(cfg, before, u);
        assert u in schedule && !Within(cfg, schedule, u);
      } else if t < cfg.numThreads {
        assert Made(cfg, Exec(cfg, before).value.threads[t], Count(before, t));
        assert Within(cfg, schedule, t) <==> Enabled(cfg, Exec(cfg, before).value, t);
        assert forall u :: u in before && u != t ==> (Within(cfg, schedule, u) <==> Within(cfg, before, u));
      } else {
        assert t in schedule && !Within(cfg, schedule, t);
      }
    }
  }

  /** Thread t can always be run to its end. */
  lemma {:induction false} FinishThread(cfg: Config, schedule: seq<nat>, t: nat, th: Thread) returns (all: seq<nat>)
    requires cfg.Valid() && Exec(cfg, schedule).Some?
    requires var threads := Exec(cfg, schedule).value.threads; t < |threads| == cfg.numThreads && threads[t] == th
    ensures schedule <= all && Exec(cfg, all).Some?
    ensures var before, after := Exec(cfg, schedule).value.threads, Exec(cfg, all).value.threads;
      && |after| == cfg.numThreads && after[t].done == cfg.numio
      && forall u :: 0 <= u < cfg.numThreads && u != t ==> after[u] == before[u]
    decreases cfg.numio - th.done, if th.fnr.None? then 1 else 0
  {
    var s := Exec(cfg, schedule).value;
    ExecInv(cfg, schedule);
    assert ThreadOk(cfg, s, t);
    if Enabled(cfg, s, t) {
      assert (schedule + [t])[..|schedule|] == schedule;
      all := FinishThread(cfg, schedule + [t], t, Step(cfg, s, t).threads[t]);
    } else {
      all := schedule;
    }
  }

  /** Any run can go on until all threads are done. */
  lemma CanFinish(cfg: Config, schedule: seq<nat>) returns (all: seq<nat>)
    requires cfg.Valid() && Exec(cfg, schedule).Some?
    ensures schedule <= all && Exec(cfg, all).Some? && Complete(cfg, Exec(cfg, all).value)
  {
    all := schedule;
    ExecInv(cfg, schedule);
    for t := 0 to cfg.numThreads
      invariant schedule <= all && Exec(cfg, all).Some? && |Exec(cfg, all).value.threads| == cfg.numThreads
      invariant forall u :: 0 <= u < t ==> Exec(cfg, all).value.threads[u].done == cfg.numio
    {
      all := FinishThread(cfg, all, t, Exec(cfg, all).value.threads[t]);
    }
  }

  // ---------- the loop of one thread ----------

  class Streams {
    const input: nat -> byte
    var consumed: nat
    var out: seq<byte>

    constructor (input: nat -> byte)
      ensures this.input == input && consumed == 0 && out == []
    {
      this.input, consumed, out := input, 0, [];
    }
  }

  /** testit_mt_refactored with nobody else at the streams: whatever the sizes of the reads, the bytes
      appended are the next bytes of the input, and only the caller's buffer is overwritten. */
  method Testit(io: Streams, numio: nat, iobuf: array<byte>, amount: nat -> nat)
    requires iobuf.Length == NREAD && forall k :: 1 <= amount(k) <= NREAD
    modifies io, iobuf
    ensures old(io.consumed) + numio <= io.consumed
    ensures io.out
            == old(io.out) + seq(io.consumed - old(io.consumed), k requires 0 <= k => io.input(old(io.consumed) + k))
  {
    ghost var start := io.consumed;
    for i := 0 to numio
      invariant start + i <= io.consumed
      invariant io.out == old(io.out) + seq(io.consumed - start, k requires 0 <= k => io.input(start + k))
    {
      var fnr := amount(i);
      forall k | 0 <= k < fnr { iobuf[k] := io.input(io.consumed + k); }
      io.consumed := io.consumed + fnr;
      io.out := io.out + iobuf[..fnr];
    }
  }
}
