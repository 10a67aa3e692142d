/** The multithreaded file copy: each of n threads reads its slice of the source and writes it to the
    destination at the same offset, and the last thread also copies the remainder.

    The first part follows the read and write loops with transfers of any size. The second part is
    the transition system of the threads, in which each read and each write of a slice is one step
    that transfers everything asked for. */
module ParallelCopy {
  import opened Basics

  type Bytes = seq<byte>

  /** Conversion of a size to a C int: the int that differs from it by a multiple of 2^32. */
  function ToInt(n: nat): (r: int)
    ensures -0x8000_0000 <= r <= 0x7FFF_FFFF && (n - r) % 0x1_0000_0000 == 0
    ensures n <= INT_MAX ==> r == n
  {
    var m := n % 0x1_0000_0000;
    if m <= INT_MAX then m else m - 0x1_0000_0000
  }

  /** Bytes never written before the end of a file read as zero. */
  function Byte(data: Bytes, o: nat): byte {
    if o < |data| then data[o] else 0
  }

  function Pwrite(data: Bytes, buf: Bytes, off: nat): Bytes {
    if buf == [] then data
    else
      seq(Max(|data|, off + |buf|),
          o requires 0 <= o => if off <= o < off + |buf| then buf[o - off] else Byte(data, o))
  }

  // ---------- the transfer loops ----------

  /** What a transfer loop returns, and how many bytes at the front of the buffer it moved. */
  datatype Transfer = Transfer(ret: int, filled: nat)

  /** The loop of fd_read and fd_write. The k-th call moves `got(k)` bytes, 0 at end of file, or
      fails with -1. Every call starts over at the same buffer and offset. */
  function TransferLoop(n: nat, got: nat -> int, k: nat, total: nat, filled: nat): Transfer
    decreases n - total
  {
    var r := got(k);
    if r < 0 then Transfer(-1, filled)
    else if r == 0 then Transfer(total, filled)
    else if total + r < n then TransferLoop(n, got, k + 1, total + r, Max(filled, r))
    else Transfer(total + r, Max(filled, r))
  }

  /** The sum of the first k results. */
  function Sum(got: nat -> int, k: nat): int {
    if k == 0 then 0 else Sum(got, k - 1) + got(k - 1)
  }

  /** The first k calls each moved something, the largest of them `most` bytes, and before the last of
      them the count was still below n. */
  ghost predicate Moving(n: nat, got: nat -> int, k: nat, most: nat) {
    && (forall i :: 0 <= i < k ==> 0 < got(i) <= most)
    && (most == 0 || exists i :: 0 <= i < k && got(i) == most)
    && (k > 1 ==> Sum(got, k - 1) < n)
  }

  /** What the loop does: it makes calls that move something, until it has counted n bytes, or until a
      call fails, which makes it return -1, or moves nothing, which makes it return the count. The
      buffer is moved as far as the largest of these transfers. */
  ghost predicate LoopEnds(n: nat, got: nat -> int, t: Transfer, k: nat) {
    && Moving(n, got, k, t.filled)
    && if k > 0 && Sum(got, k) >= n then t.ret == Sum(got, k)
       else (got(k) < 0 && t.ret == -1) || (got(k) == 0 && t.ret == Sum(got, k))
  }

  lemma LoopMeans(n: nat, got: nat -> int) returns (k: nat)
    ensures LoopEnds(n, got, TransferLoop(n, got, 0, 0, 0), k)
  {
    k := LoopMeansFrom(n, got, 0, 0, 0);
  }

  lemma MovingOn(n: nat, got: nat -> int, k: nat, most: nat)
    requires Moving(n, got, k, most) && got(k) > 0 && (k > 0 ==> Sum(got, k) < n)
    ensures Moving(n, got, k + 1, Max(most, got(k)))
  {
    if got(k) <= most {
      var i :| 0 <= i < k && got(i) == most;
      assert 0 <= i < k + 1 && got(i) == Max(most, got(k));
    } else {
      assert 0 <= k < k + 1 && got(k) == Max(most, got(k));
    }
  }

  lemma {:induction false} LoopMeansFrom(n: nat, got: nat -> int, k: nat, total: nat, filled: nat) returns (end: nat)
    requires total == Sum(got, k) && (k > 0 ==> total < n) && Moving(n, got, k, filled)
    ensures LoopEnds(n, got, TransferLoop(n, got, k, total, filled), end)
    decreases n - total
  {
    var r := got(k);
    if r <= 0 {
      end := k;
    } else {
      assert Moving(n, got, k + 1, Max(filled, r)) by { MovingOn(n, got, k, filled); }
      assert Sum(got, k + 1) == total + r;
      if total + r < n {
        end := LoopMeansFrom(n, got, k + 1, total + r, Max(filled, r));
      } else {
        end := k + 1;
      }
    }
  }

  /** The loop moves all n bytes and reports n exactly when its first call already moves them all:
      after a partial transfer it either leaves part of the buffer alone or overstates the length. */
  lemma FullIffFirstCallIsFull(n: nat, got: nat -> int)
    requires n > 0 && forall k :: -1 <= got(k) <= n
    ensures TransferLoop(n, got, 0, 0, 0) == Transfer(n, n) <==> got(0) == n
  {
    if 0 < got(0) < n {
      NeverFull(n, got, 1, got(0), got(0));
    }
  }

  lemma {:induction false} NeverFull(n: nat, got: nat -> int, k: nat, total: nat, filled: nat)
    requires 0 < total && filled < n && forall i :: -1 <= got(i) <= n
    ensures TransferLoop(n, got, k, total, filled) != Transfer(n, n)
    decreases n - total
  {
    var r := got(k);
    if 0 < r < n && total + r < n {
      NeverFull(n, got, k + 1, total + r, Max(filled, r));
    }
  }

  /** The file a descriptor refers to. */
  class Disk {
    var bytes: Bytes

    /** pread: moves `count` bytes from offset `off` to the front of the buffer. */
    method ReadAt(dbuf: array<byte>, count: nat, off: nat)
      requires count <= dbuf.Length && (count > 0 ==> off + count <= |bytes|)
      modifies dbuf
      ensures dbuf[..] == Filled(bytes, old(dbuf[..]), off, count)
    {
      forall i | 0 <= i < count { dbuf[i] := bytes[off + i]; }
    }

    /** pwrite: moves `count` bytes from the front of the buffer to offset `off`. */
    method WriteAt(sbuf: array<byte>, count: nat, off: nat)
      requires count <= sbuf.Length
      modifies this
      ensures bytes == Pwrite(old(bytes), sbuf[..count], off)
    {
      bytes := Pwrite(bytes, sbuf[..count], off);
    }
  }

  /** The buffer after reading `filled` bytes from offset `off` to its front. */
  function Filled(file: Bytes, buf: Bytes, off: nat, filled: nat): Bytes
    requires filled <= |buf| && (filled > 0 ==> off + filled <= |file|)
  {
    if filled == 0 then buf else file[off..off + filled] + buf[filled..]
  }

  lemma ReadOverlay(file: Bytes, buf: Bytes, off: nat, f: nat, r: nat)
    requires f <= |buf| && r <= |buf| && (Max(f, r) > 0 ==> off + Max(f, r) <= |file|)
    ensures Filled(file, Filled(file, buf, off, f), off, r) == Filled(file, buf, off, Max(f, r))
  {
    var once := Filled(file, buf, off, f);
    if 0 < r <= f {
      assert once[r..] == file[off + r..off + f] + buf[f..];
    } else if f < r {
      assert once[r..] == buf[r..];
    }
  }

  lemma WriteOverlay(data: Bytes, buf: Bytes, off: nat, f: nat, r: nat)
    requires f <= |buf| && r <= |buf|
    ensures Pwrite(Pwrite(data, buf[..f], off), buf[..r], off) == Pwrite(data, buf[..Max(f, r)], off)
  {
  }

  /** fd_read. Whatever the partial transfers, the front of the buffer holds the front of the slice
      as far as the largest single transfer, and nothing else of the buffer changes. The slice may
      reach past the end of the file; a transfer does not. */
  method FdRead(fd: Disk, dbuf: array<byte>, n: nat, off: nat, got: nat -> int) returns (ret: int)
    requires n == dbuf.Length
    requires forall k :: -1 <= got(k) <= n && (got(k) > 0 ==> off + got(k) <= |fd.bytes|)
    modifies dbuf
    ensures var t := TransferLoop(n, got, 0, 0, 0);
      && t.filled <= n && (t.filled > 0 ==> off + t.filled <= |fd.bytes|) && ret == ToReturn(t)
      && dbuf[..] == Filled(fd.bytes, old(dbuf[..]), off, t.filled)
  {
    var tr, k := 0, 0;
    ghost var filled: nat := 0;
    while true
      invariant 0 <= tr && filled <= n && (filled > 0 ==> off + filled <= |fd.bytes|)
      invariant TransferLoop(n, got, k, tr, filled) == TransferLoop(n, got, 0, 0, 0)
      invariant dbuf[..] == Filled(fd.bytes, old(dbuf[..]), off, filled)
      decreases n - tr
    {
      var rd := got(k);
      if rd < 0 {
        return -1;
      }
      fd.ReadAt(dbuf, rd, off);
      ReadOverlay(fd.bytes, old(dbuf[..]), off, filled, rd);
      if rd == 0 {
        break;
      }
      tr := tr + rd;
      k := k + 1;
      filled := Max(filled, rd);
      if tr >= n {
        break;
      }
    }
    ret := ToInt(tr);
  }

  /** The C return value of a transfer loop. */
  function ToReturn(t: Transfer): int {
    if t.ret < 0 then -1 else ToInt(t.ret)
  }

  /** fd_write, for calls that report zero bytes only when asked for none: the loop has no way out of
      endless zeros. */
  method FdWrite(fd: Disk, sbuf: array<byte>, n: nat, off: nat, got: nat -> int) returns (ret: int)
    requires forall k :: -1 <= got(k) <= n && got(k) <= sbuf.Length && (got(k) == 0 ==> n == 0)
    modifies fd
    ensures var t := TransferLoop(n, got, 0, 0, 0);
      && t.filled <= sbuf.Length && ret == ToReturn(t)
      && fd.bytes == Pwrite(old(fd.bytes), sbuf[..t.filled], off)
  {
    var tw, k := 0, 0;
    ghost var filled: nat := 0;
    while true
      invariant 0 <= tw && filled <= sbuf.Length && (n == 0 ==> tw == 0)
      invariant TransferLoop(n, got, k, tw, filled) == TransferLoop(n, got, 0, 0, 0)
      invariant fd.bytes == Pwrite(old(fd.bytes), sbuf[..filled], off)
      decreases n - tw
    {
      var wr := got(k);
      if wr < 0 {
        return -1;
      }
      fd.WriteAt(sbuf, wr, off);
      WriteOverlay(old(fd.bytes), sbuf[..], off, filled, wr);
      assert sbuf[..][..filled] == sbuf[..filled] && sbuf[..][..wr] == sbuf[..wr];
      assert sbuf[..][..Max(filled, wr)] == sbuf[..Max(filled, wr)];
      tw := tw + wr;
      k := k + 1;
      filled := Max(filled, wr);
      if tw >= n {
        break;
      }
    }
    ret := ToInt(tw);
  }

  // ---------- one segment ----------

  /** Calls that always move `cap` bytes, fewer than asked for. */
  lemma {:induction false} CappedFrom(n: nat, cap: nat, got: nat -> int, k: nat, total: nat, filled: nat)
    requires 0 < cap < n && forall i :: got(i) == cap
    requires filled == (if total == 0 then 0 else cap) && total < n
    ensures var t := TransferLoop(n, got, k, total, filled);
      t.ret >= n && t.filled == cap
    decreases n - total
  {
    if total + cap < n { CappedFrom(n, cap, got, k + 1, total + cap, cap); }
  }

  /** Calls that move all they are asked for, but never more than `cap` bytes. */
  function Capped(n: nat, cap: nat): nat -> int {
    _ => Min(n, cap)
  }

  lemma CappedIs(n: nat, cap: nat, got: nat -> int)
    requires cap > 0 && forall i :: got(i) == Min(n, cap)
    ensures var t := TransferLoop(n, got, 0, 0, 0); t.filled == Min(n, cap) && t.ret >= n && (n <= cap ==> t.ret == n)
  {
    if n > cap { CappedFrom(n, cap, got, 0, 0, 0); }
  }

  /** A transfer loop at its best. (The kernel caps a transfer; on Linux at 0x7FFFF000 bytes.) It moves
      the bytes up to the cap, again and again, and reports no less than it was asked for. */
  function CappedLoop(n: nat, cap: nat): (t: Transfer)
    requires cap > 0
    ensures t.filled == Min(n, cap) && t.ret >= n && (n <= cap ==> t.ret == n)
  {
    CappedIs(n, cap, Capped(n, cap));
    TransferLoop(n, Capped(n, cap), 0, 0, 0)
  }

  /** How many bytes of a segment are copied: the length goes through the cap and a C int. */
  function Transferred(cap: nat, len: nat): (r: nat)
    requires cap > 0
    ensures r <= len && (r == len <==> len <= Min(cap, INT_MAX))
  {
    var nr := ToInt(CappedLoop(len, cap).ret);
    if nr <= 0 then 0 else Min(nr, cap)
  }

  /** -3 and -4 where the int result of a loop that did its best is negative. */
  function CopyReturn(cap: nat, len: nat): int
    requires cap > 0
  {
    var nr := ToInt(CappedLoop(len, cap).ret);
    if nr < 0 then -3 else if nr > 0 && ToInt(CappedLoop(nr, cap).ret) < 0 then -4 else 0
  }

  function CopySegment(src: Bytes, dest: Bytes, cap: nat, start: nat, len: nat): Bytes
    requires cap > 0 && start + len <= |src|
  {
    Pwrite(dest, src[start..start + Transferred(cap, len)], start)
  }

  /** The segment of the source is at the same place in the destination, and nothing else changed. */
  ghost predicate Copied(src: Bytes, before: Bytes, after: Bytes, start: nat, len: nat)
    requires start + len <= |src|
  {
    && |after| == (if len == 0 then |before| else Max(|before|, start + len))
    && (forall o :: start <= o < start + len ==> after[o] == src[o])
    && (forall o: nat :: o < start || start + len <= o ==> Byte(after, o) == Byte(before, o))
  }

  /** What the copy of a segment means: a length within the limit is copied whole, and of a longer one
      at most the front. The copy reports an error only for a length beyond the limit. */
  lemma SegmentCopied(src: Bytes, dest: Bytes, cap: nat, start: nat, len: nat)
    requires cap > 0 && start + len <= |src|
    ensures Copied(src, dest, CopySegment(src, dest, cap, start, len), start, Transferred(cap, len))
    ensures len <= Min(cap, INT_MAX) ==> CopyReturn(cap, len) == 0
  {
    var n := Transferred(cap, len);
    var data := src[start..start + n];
    forall o: nat ensures Byte(CopySegment(src, dest, cap, start, len), o)
                          == if start <= o < start + n then data[o - start] else Byte(dest, o) {
      PwriteByte(dest, data, start, o);
    }
    forall o | start <= o < start + n ensures CopySegment(src, dest, cap, start, len)[o] == src[o] {
      assert Byte(CopySegment(src, dest, cap, start, len), o) == data[o - start];
    }
  }

  lemma FrontOfBuffer(file: Bytes, buf: Bytes, off: nat, filled: nat, m: nat)
    requires m <= filled <= |buf| && 0 < filled && off + filled <= |file|
    ensures Filled(file, buf, off, filled)[..m] == file[off..off + m]
  {
  }

  /** What fd_read reports is all that fd_write moves, and no more than was read. */
  lemma WhatIsMoved(cap: nat, len: nat, nr: nat)
    requires cap > 0 && 0 < nr == ToInt(CappedLoop(len, cap).ret)
    ensures Min(nr, cap) == Transferred(cap, len) <= CappedLoop(len, cap).filled
  {
  }

  /** __do_mt_copy, with calls that transfer all they are asked for up to the cap. */
  method DoMtCopy(src: Disk, dest: Disk, cap: nat, start: nat, len: nat) returns (ret: int)
    requires src != dest && cap > 0 && start + len <= |src.bytes|
    modifies dest
    ensures dest.bytes == CopySegment(src.bytes, old(dest.bytes), cap, start, len)
    ensures ret == CopyReturn(cap, len)
    ensures len <= Min(cap, INT_MAX) ==> ret == 0 && Copied(src.bytes, old(dest.bytes), dest.bytes, start, len)
  {
    SegmentCopied(src.bytes, dest.bytes, cap, start, len);
    var buf := new byte[len];
    ghost var junk := buf[..];
    var nr := FdRead(src, buf, len, start, Capped(len, cap));
    if nr < 0 {
      return -3;
    } else if nr == 0 {
      return 0;
    }
    WhatIsMoved(cap, len, nr);
    FrontOfBuffer(src.bytes, junk, start, CappedLoop(len, cap).filled, Transferred(cap, len));
    assert buf[..Transferred(cap, len)] == buf[..][..Transferred(cap, len)];
    assert CappedLoop(nr, cap).filled == Transferred(cap, len);
    var nw := FdWrite(dest, buf, nr, start, Capped(nr, cap));
    if nw < 0 {
      return -4;
    }
    ret := 0;
  }

  // ---------- dividing up the file ----------

  /** The argument block of one thread. */
  datatype ToThread = ToThread(thrdnum: nat, thrdtotal: nat, startOffset: nat, len: nat, rem: nat)

  datatype Segment = Segment(start: nat, len: nat)

  function Params(size: nat, n: nat, i: nat): ToThread
    requires n > 0
  {
    ToThread(i, n, i * (size / n), size / n, size % n)
  }

  /** The loop of do_mt_copy that fills in the argument blocks. */
  method FillParams(size: nat, n: nat) returns (blocks: array<ToThread>)
    requires n > 0
    ensures fresh(blocks) && blocks[..] == seq(n, i requires 0 <= i => Params(size, n, i))
  {
    var rem := size % n;
    blocks := new ToThread[n](_ => ToThread(0, 0, 0, 0, 0));
    for i := 0 to n
      invariant forall k :: 0 <= k < i ==> blocks[k] == Params(size, n, k)
    {
      blocks[i] := ToThread(i, n, i * (size / n), size / n, rem);
    }
  }

  /** What a thread copies: its slice, and the last one also the remainder. */
  function Segments(p: ToThread): seq<Segment> {
    [Segment(p.startOffset, p.len)]
    + if p.rem != 0 && p.thrdnum + 1 == p.thrdtotal then [Segment(p.startOffset + p.len, p.rem)] else []
  }

  predicate Inside(seg: Segment, o: nat) {
    seg.start <= o < seg.start + seg.len
  }

  /** The thread and segment responsible for offset o. */
  function Owner(size: nat, n: nat, o: nat): (r: (nat, nat))
    requires n > 0 && o < size
    ensures r.0 < n && r.1 < |Segments(Params(size, n, r.0))|
    ensures Inside(Segments(Params(size, n, r.0))[r.1], o)
  {
    var len := size / n;
    assert size == n * len + size % n;
    if o >= n * len then
      assert (n - 1) * len + len == n * len;
      (n - 1, 1)
    else
      var i := o / len;
      assert i * len <= o < i * len + len && i < n by {
        assert o == len * i + o % len;
        if n <= i { MulLe(len, n, i); }
      }
      (i, 0)
  }

  lemma SegmentFits(size: nat, n: nat, i: nat, d: nat)
    requires n > 0 && i < n && d < |Segments(Params(size, n, i))|
    ensures var seg := Segments(Params(size, n, i))[d]; seg.start + seg.len <= size
  {
    var len := size / n;
    assert size == n * len + size % n;
    assert i * len + len == (i + 1) * len;
    MulLe(len, i + 1, n);
  }

  lemma StartsOrdered(size: nat, n: nat, i: nat, j: nat)
    requires n > 0 && i < j
    ensures Params(size, n, i).startOffset + Params(size, n, i).len <= Params(size, n, j).startOffset
  {
    var len := size / n;
    MulLe(len, i + 1, j);
    assert (i + 1) * len == i * len + len;
  }

  lemma Disjoint(p: ToThread, q: ToThread, d: nat, e: nat, o: nat)
    requires p.thrdnum < q.thrdnum < q.thrdtotal == p.thrdtotal && p.startOffset + p.len <= q.startOffset
    requires d < |Segments(p)| && e < |Segments(q)|
    ensures !(Inside(Segments(p)[d], o) && Inside(Segments(q)[e], o))
  {
  }

  /** No offset is in two segments. */
  lemma OneOwner(size: nat, n: nat, i: nat, d: nat, j: nat, e: nat, o: nat)
    requires n > 0 && i < n && d < |Segments(Params(size, n, i))| && Inside(Segments(Params(size, n, i))[d], o)
    requires j < n && e < |Segments(Params(size, n, j))| && Inside(Segments(Params(size, n, j))[e], o)
    ensures i == j && d == e
  {
    if i < j {
      StartsOrdered(size, n, i, j);
      Disjoint(Params(size, n, i), Params(size, n, j), d, e, o);
    } else if j < i {
      StartsOrdered(size, n, j, i);
      Disjoint(Params(size, n, j), Params(size, n, i), e, d, o);
    }
  }

  /** The slices and the remainder cover [0, size) and do not overlap: every offset is in exactly one
      segment of one thread, and no segment reaches beyond the file. */
  lemma SegmentsPartition(size: nat, n: nat, i: nat, d: nat, o: nat)
    requires n > 0 && i < n && d < |Segments(Params(size, n, i))|
    ensures Inside(Segments(Params(size, n, i))[d], o) <==> o < size && Owner(size, n, o) == (i, d)
  {
    if Inside(Segments(Params(size, n, i))[d], o) {
      SegmentFits(size, n, i, d);
      var (j, e) := Owner(size, n, o);
      OneOwner(size, n, i, d, j, e, o);
    }
  }

  // ---------- the threads ----------

  /** Source, number of threads, and the most bytes one system call moves. */
  datatype Setup = Setup(src: Bytes, n: nat, cap: nat)

  type Job = s: Setup | s.n > 0 && s.cap > 0 witness Setup([], 1, 1)

  /** `done` segments copied; `buf` holds what was read of the next one, if anything. */
  datatype Thread = Thread(done: nat, buf: Option<Bytes>)

  datatype State = State(dest: Bytes, threads: seq<Thread>)

  function Init(job: Job, dest: Bytes): State {
    State(dest, seq(job.n, _ => Thread(0, None)))
  }

  function Todo(job: Job, i: nat): seq<Segment>
  {
    Segments(Params(|job.src|, job.n, i))
  }

  predicate Enabled(job: Job, s: State, i: nat)
  {
    i < |s.threads| && s.threads[i].done < |Todo(job, i)|
  }

  /** The next read or write of thread i. A length that is not positive as a C int ends the segment. */
  function Step(job: Job, s: State, i: nat): State
    requires i < job.n && Enabled(job, s, i)
  {
    var t := s.threads[i];
    var seg := Todo(job, i)[t.done];
    SegmentFits(|job.src|, job.n, i, t.done);
    match t.buf
    case None =>
      var data := job.src[seg.start..seg.start + Transferred(job.cap, seg.len)];
      s.(threads := s.threads[i := if data == [] then Thread(t.done + 1, None) else t.(buf := Some(data))])
    case Some(data) =>
      s.(dest := Pwrite(s.dest, data, seg.start), threads := s.threads[i := Thread(t.done + 1, None)])
  }

  function Exec(job: Job, dest: Bytes, schedule: seq<nat>): (r: Option<State>)
    ensures r.Some? ==> |r.value.threads| == job.n
  {
    if schedule == [] then
      Some(Init(job, dest))
    else
      var before := Exec(job, dest, schedule[..|schedule| - 1]);
      var i := schedule[|schedule| - 1];
      if before.Some? && Enabled(job, before.value, i) then Some(Step(job, before.value, i)) else None
  }

  predicate Complete(job: Job, s: State)
  {
    |s.threads| == job.n && forall i :: 0 <= i < job.n ==> s.threads[i].done == |Todo(job, i)|
  }

  // ---------- what every interleaving keeps ----------

  /** Offset o was written by some thread. */
  ghost predicate Written(job: Job, s: State, o: nat)
  {
    && o < |job.src| && Owner(|job.src|, job.n, o).0 < |s.threads|
    && var (i, d) := Owner(|job.src|, job.n, o);
       var seg := Todo(job, i)[d];
       d < s.threads[i].done && o < seg.start + Transferred(job.cap, seg.len)
  }

  ghost predicate Inv(job: Job, dest: Bytes, s: State)
  {
    && |s.threads| == job.n
    && (forall i :: 0 <= i < job.n && s.threads[i].buf.Some? ==> Loaded(job, i, s.threads[i]))
    && |dest| <= |s.dest| <= Max(|dest|, |job.src|)
    && (forall o: nat :: Written(job, s, o) ==> o < |s.dest|)
    && (forall o: nat :: Byte(s.dest, o) == if Written(job, s, o) then job.src[o] else Byte(dest, o))
  }

  /** The buffer holds what the next write of thread i is to write. */
  ghost predicate Loaded(job: Job, i: nat, t: Thread)
    requires i < job.n
  {
    && t.done < |Todo(job, i)| && t.buf.Some?
    && var seg := Todo(job, i)[t.done];
       seg.start + seg.len <= |job.src| && t.buf.value == job.src[seg.start..seg.start + Transferred(job.cap, seg.len)]
  }

  lemma InitInv(job: Job, dest: Bytes)
    ensures Inv(job, dest, Init(job, dest))
  {
  }

  lemma PwriteByte(data: Bytes, buf: Bytes, off: nat, o: nat)
    ensures Byte(Pwrite(data, buf, off), o) == if off <= o < off + |buf| then buf[o - off] else Byte(data, o)
  {
    var r := Pwrite(data, buf, off);
    if buf != [] && o < |r| {
      assert r[o] == if off <= o < off + |buf| then buf[o - off] else Byte(data, o);
    }
  }

  /** Finishing segment d of thread i makes exactly its transferred part written. */
  lemma WrittenStep(job: Job, s: State, s': State, i: nat, o: nat)
    requires i < job.n && Enabled(job, s, i) && |s.threads| == |s'.threads| == job.n
    requires s'.threads[i].done == s.threads[i].done + 1
    requires forall j :: 0 <= j < job.n && j != i ==> s'.threads[j].done == s.threads[j].done
    ensures var seg := Todo(job, i)[s.threads[i].done];
      Written(job, s', o) <==> Written(job, s, o) || seg.start <= o < seg.start + Transferred(job.cap, seg.len)
  {
    SegmentsPartition(|job.src|, job.n, i, s.threads[i].done, o);
  }

  lemma ReadInv(job: Job, dest: Bytes, s: State, i: nat)
    requires i < job.n && Enabled(job, s, i) && Inv(job, dest, s) && s.threads[i].buf.None?
    ensures Inv(job, dest, Step(job, s, i))
  {
    var s' := Step(job, s, i);
    SegmentFits(|job.src|, job.n, i, s.threads[i].done);
    forall o: nat ensures Written(job, s', o) <==> Written(job, s, o) {
      if s'.threads[i].buf.None? { WrittenStep(job, s, s', i, o); }
    }
  }

  lemma WriteInv(job: Job, dest: Bytes, s: State, i: nat)
    requires i < job.n && Enabled(job, s, i) && Inv(job, dest, s) && s.threads[i].buf.Some?
    ensures Inv(job, dest, Step(job, s, i))
  {
    var s' := Step(job, s, i);
    var data := s.threads[i].buf.value;
    var seg := Todo(job, i)[s.threads[i].done];
    assert Loaded(job, i, s.threads[i]);
    forall o: nat
      ensures Written(job, s', o) ==> o < |s'.dest|
      ensures Byte(s'.dest, o) == if Written(job, s', o) then job.src[o] else Byte(dest, o)
    {
      WrittenStep(job, s, s', i, o);
      PwriteByte(s.dest, data, seg.start, o);
    }
  }

  lemma {:induction false} ExecInv(job: Job, dest: Bytes, schedule: seq<nat>)
    requires Exec(job, dest, schedule).Some?
    ensures Inv(job, dest, Exec(job, dest, schedule).value)
  {
    if schedule == [] {
      InitInv(job, dest);
    } else {
      var before, i := schedule[..|schedule| - 1], schedule[|schedule| - 1];
      var s := Exec(job, dest, before).value;
      ExecInv(job, dest, before);
      if s.threads[i].buf.None? { ReadInv(job, dest, s, i); } else { WriteInv(job, dest, s, i); }
    }
  }

  /** At any moment of any interleaving, every byte of the destination is the source's byte or the
      byte that was there before. */
  lemma OldOrNew(job: Job, dest: Bytes, schedule: seq<nat>, o: nat)
    requires Exec(job, dest, schedule).Some?
    ensures var d := Exec(job, dest, schedule).value.dest;
      Byte(d, o) == Byte(dest, o) || (o < |job.src| && Byte(d, o) == job.src[o])
  {
    ExecInv(job, dest, schedule);
    assert Byte(Exec(job, dest, schedule).value.dest, o)
        == if Written(job, Exec(job, dest, schedule).value, o) then job.src[o] else Byte(dest, o);
  }

  /** What one segment must not exceed to be copied whole. */
  function Limit(job: Job): nat {
    Min(job.cap, INT_MAX)
  }

  predicate SegmentsInLimit(job: Job) {
    |job.src| / job.n <= Limit(job) && |job.src| % job.n <= Limit(job)
  }

  /** Every interleaving of the threads copies the source: the destination starts with it, and what
      it had beyond the source's size is still there (it is not truncated). */
  lemma CopiesEverything(job: Job, dest: Bytes, schedule: seq<nat>)
    requires SegmentsInLimit(job)
    requires Exec(job, dest, schedule).Some? && Complete(job, Exec(job, dest, schedule).value)
    ensures var d := Exec(job, dest, schedule).value.dest;
      && |d| == Max(|job.src|, |dest|) && d[..|job.src|] == job.src
      && (|dest| >= |job.src| ==> d[|job.src|..] == dest[|job.src|..])
  {
    ExecInv(job, dest, schedule);
    CopiedAtEnd(job, dest, Exec(job, dest, schedule).value);
  }

  lemma CopiedAtEnd(job: Job, dest: Bytes, s: State)
    requires SegmentsInLimit(job) && Inv(job, dest, s) && Complete(job, s)
    ensures |s.dest| == Max(|job.src|, |dest|) && s.dest[..|job.src|] == job.src
    ensures |dest| >= |job.src| ==> s.dest[|job.src|..] == dest[|job.src|..]
  {
    forall o: nat | o < |job.src| ensures Written(job, s, o) {
      var (i, d) := Owner(|job.src|, job.n, o);
      SegmentsPartition(|job.src|, job.n, i, d, o);
      assert Todo(job, i)[d].len <= Limit(job);
    }
    if |job.src| > 0 { assert Written(job, s, |job.src| - 1); }
    forall o: nat | o < |s.dest| ensures s.dest[o] == if o < |job.src| then job.src[o] else Byte(dest, o) {
      assert Byte(s.dest, o) == s.dest[o];
    }
  }

  /** The bounds are needed: a longer segment is cut or skipped, because a transfer loop starts over
      after a partial transfer and its result goes through an int. Its last byte is never written. So
      for a source without zero bytes and an empty destination, the copy is right exactly when slice
      and remainder stay within the limit. */
  lemma RightIffSegmentsFit(job: Job, schedule: seq<nat>)
    requires forall o :: 0 <= o < |job.src| ==> job.src[o] != 0
    requires Exec(job, [], schedule).Some? && Complete(job, Exec(job, [], schedule).value)
    ensures Exec(job, [], schedule).value.dest == job.src <==> SegmentsInLimit(job)
  {
    var d := Exec(job, [], schedule).value.dest;
    if SegmentsInLimit(job) {
      CopiesEverything(job, [], schedule);
      assert d == d[..|job.src|];
    } else {
      ExecInv(job, [], schedule);
      if |job.src| / job.n > Limit(job) {
        LastByteMissing(job, Exec(job, [], schedule).value, 0, 0);
      } else {
        LastByteMissing(job, Exec(job, [], schedule).value, job.n - 1, 1);
      }
    }
  }

  lemma LastByteMissing(job: Job, s: State, i: nat, d: nat)
    requires i < job.n && d < |Todo(job, i)| && Todo(job, i)[d].len > Limit(job) && Inv(job, [], s)
    ensures var o := Todo(job, i)[d].start + Todo(job, i)[d].len - 1; 0 <= o < |job.src| && Byte(s.dest, o) == 0
  {
    var seg := Todo(job, i)[d];
    var o := seg.start + seg.len - 1;
    SegmentFits(|job.src|, job.n, i, d);
    SegmentsPartition(|job.src|, job.n, i, d, o);
    assert !Written(job, s, o);
  }

  // ---------- the steps and the loops ----------

  /** The two steps of a thread on a segment, with any steps of other threads between them, are one
      copy of that segment: the read changes nothing in the destination, and the write does to it what
      DoMtCopy does. */
  lemma StepCopies(job: Job, dest: Bytes, schedule: seq<nat>, i: nat)
    requires Exec(job, dest, schedule).Some? && i < job.n && Enabled(job, Exec(job, dest, schedule).value, i)
    ensures var s := Exec(job, dest, schedule).value;
      var t, s' := s.threads[i], Step(job, s, i);
      var seg := Todo(job, i)[t.done];
      && seg.start + seg.len <= |job.src|
      && (if s'.threads[i].done == t.done then s'.dest == s.dest
          else s'.threads[i].done == t.done + 1 && s'.dest == CopySegment(job.src, s.dest, job.cap, seg.start, seg.len))
  {
    ExecInv(job, dest, schedule);
    OneStepCopies(job, dest, Exec(job, dest, schedule).value, i);
  }

  lemma OneStepCopies(job: Job, dest: Bytes, s: State, i: nat)
    requires Inv(job, dest, s) && i < job.n && Enabled(job, s, i)
    ensures var t, s' := s.threads[i], Step(job, s, i);
      var seg := Todo(job, i)[t.done];
      && seg.start + seg.len <= |job.src|
      && (if s'.threads[i].done == t.done then s'.dest == s.dest
          else s'.threads[i].done == t.done + 1 && s'.dest == CopySegment(job.src, s.dest, job.cap, seg.start, seg.len))
  {
    SegmentFits(|job.src|, job.n, i, s.threads[i].done);
    if s.threads[i].buf.Some? {
      assert Loaded(job, i, s.threads[i]);
    }
  }

  // ---------- such runs exist ----------

  function Count(schedule: seq<nat>, i: nat): nat {
    if schedule == [] then 0
    else Count(schedule[..|schedule| - 1], i) + if schedule[|schedule| - 1] == i then 1 else 0
  }

  /** The steps for the first d segments: a read and a write each, and no write if nothing was read. */
  function Steps(cap: nat, segments: seq<Segment>, d: nat): nat
    requires cap > 0 && d <= |segments|
  {
    if d == 0 then 0
    else Steps(cap, segments, d - 1) + if Transferred(cap, segments[d - 1].len) > 0 then 2 else 1
  }

  /** The steps that a thread has made. */
  ghost predicate Made(job: Job, i: nat, t: Thread, steps: nat) {
    && t.done <= |Todo(job, i)|
    && steps == Steps(job.cap, Todo(job, i), t.done) + (if t.buf.Some? then 1 else 0)
    && (t.buf.Some? ==> t.done < |Todo(job, i)| && Transferred(job.cap, Todo(job, i)[t.done].len) > 0)
  }

  lemma {:induction false} StepsGrow(cap: nat, segments: seq<Segment>, d: nat, e: nat)
    requires cap > 0 && d < e <= |segments|
    ensures Steps(cap, segments, d) + (if Transferred(cap, segments[d].len) > 0 then 2 else 1)
            <= Steps(cap, segments, e)
  {
    if d + 1 < e { StepsGrow(cap, segments, d, e - 1); }
  }

  lemma MadeNext(job: Job, s: State, i: nat, steps: nat)
    requires i < |s.threads| && i < job.n && Made(job, i, s.threads[i], steps)
    ensures Enabled(job, s, i) <==> steps + 1 <= Steps(job.cap, Todo(job, i), |Todo(job, i)|)
    ensures Enabled(job, s, i) ==> Made(job, i, Step(job, s, i).threads[i], steps + 1)
  {
    var t, segments := s.threads[i], Todo(job, i);
    if t.done < |segments| {
      StepsGrow(job.cap, segments, t.done, |segments|);
      SegmentFits(|job.src|, job.n, i, t.done);
      MadeStep(job, s, i, segments, steps);
    }
  }

  lemma MadeStep(job: Job, s: State, i: nat, segments: seq<Segment>, steps: nat)
    requires i < |s.threads| && i < job.n && Enabled(job, s, i) && segments == Todo(job, i)
    requires Made(job, i, s.threads[i], steps)
    ensures Made(job, i, Step(job, s, i).threads[i], steps + 1)
  {
    var done := s.threads[i].done;
    SegmentFits(|job.src|, job.n, i, done);
    assert Steps(job.cap, segments, done + 1)
        == Steps(job.cap, segments, done) + if Transferred(job.cap, segments[done].len) > 0 then 2 else 1;
  }

  /** Thread i exists, and the schedule gives it no more than its own steps. */
  ghost predicate Within(job: Job, schedule: seq<nat>, i: nat) {
    i < job.n && Count(schedule, i) <= Steps(job.cap, Todo(job, i), |Todo(job, i)|)
  }

  lemma CountNext(schedule: seq<nat>, i: nat, j: nat)
    ensures Count(schedule + [i], j) == Count(schedule, j) + if j == i then 1 else 0
  {
    assert (schedule + [i])[..|schedule|] == schedule;
  }

  /** The threads do not wait for each other: a schedule is a run exactly when no thread makes more
      than its own steps, whatever their order. */
  lemma {:induction false} RunIff(job: Job, dest: Bytes, schedule: seq<nat>)
    ensures Exec(job, dest, schedule).Some? <==> forall i :: i in schedule ==> Within(job, schedule, i)
    ensures Exec(job, dest, schedule).Some? ==>
              forall i: nat :: i < job.n ==>
                Made(job, i, Exec(job, dest, schedule).value.threads[i], Count(schedule, i))
  {
    if schedule != [] {
      var before, i := schedule[..|schedule| - 1], schedule[|schedule| - 1];
      RunIff(job, dest, before);
      assert schedule == before + [i];
      forall j: nat ensures Count(schedule, j) == Count(before, j) + if j == i then 1 else 0 {
        CountNext(before, i, j);
      }
      if Exec(job, dest, before).None? {
        var j :| j in before && !Within(job, before, j);
        assert j in schedule && !Within(job, schedule, j);
      } else if i < job.n {
        MadeNext(job, Exec(job, dest, before).value, i, Count(before, i));
        assert Within(job, schedule, i) <==> Enabled(job, Exec(job, dest, before).value, i);
        assert forall j :: j in before && j != i ==> (Within(job, schedule, j) <==> Within(job, before, j));
      } else {
        assert i in schedule && !Within(job, schedule, i);
      }
    }
  }

  lemma {:induction false} DoneAtMost(job: Job, dest: Bytes, schedule: seq<nat>)
    requires Exec(job, dest, schedule).Some?
    ensures var s := Exec(job, dest, schedule).value;
      forall i :: 0 <= i < job.n ==> s.threads[i].done <= |Todo(job, i)|
  {
    if schedule != [] { DoneAtMost(job, dest, schedule[..|schedule| - 1]); }
  }

  function StepsLeft(job: Job, s: State, i: nat): nat
    requires i < |s.threads|
  {
    var t, segments := s.threads[i], |Todo(job, i)|;
    if t.done < segments then 2 * (segments - t.done) - (if t.buf.Some? then 1 else 0) else 0
  }

  /** Thread i can always be run to its end. */
  lemma {:induction false} FinishThread(job: Job, dest: Bytes, schedule: seq<nat>, i: nat) returns (all: seq<nat>)
    requires Exec(job, dest, schedule).Some? && i < job.n
    ensures schedule <= all && Exec(job, dest, all).Some?
    ensures Exec(job, dest, all).value.threads[i].done == |Todo(job, i)|
    ensures forall j :: 0 <= j < job.n && j != i ==>
      Exec(job, dest, all).value.threads[j] == Exec(job, dest, schedule).value.threads[j]
    decreases StepsLeft(job, Exec(job, dest, schedule).value, i)
  {
    DoneAtMost(job, dest, schedule);
    if Enabled(job, Exec(job, dest, schedule).value, i) {
      assert (schedule + [i])[..|schedule|] == schedule;
      all := FinishThread(job, dest, schedule + [i], i);
    } else {
      all := schedule;
    }
  }

  /** Any run can go on until all threads are done. */
  lemma CanFinish(job: Job, dest: Bytes, schedule: seq<nat>) returns (all: seq<nat>)
    requires Exec(job, dest, schedule).Some?
    ensures schedule <= all && Exec(job, dest, all).Some? && Complete(job, Exec(job, dest, all).value)
  {
    all := schedule;
    for k := 0 to job.n
      invariant schedule <= all && Exec(job, dest, all).Some?
      invariant forall i :: 0 <= i < k ==> Exec(job, dest, all).value.threads[i].done == |Todo(job, i)|
    {
      all := FinishThread(job, dest, all, k);
    }
  }

  /** So the limit does matter: for every source without zero bytes with a segment beyond it, there is a
      complete run that leaves a wrong copy. */
  lemma LongSegmentFails(job: Job) returns (schedule: seq<nat>)
    requires forall o :: 0 <= o < |job.src| ==> job.src[o] != 0
    requires !SegmentsInLimit(job)
    ensures Exec(job, [], schedule).Some? && Complete(job, Exec(job, [], schedule).value)
    ensures Exec(job, [], schedule).value.dest != job.src
  {
    schedule := CanFinish(job, [], []);
    RightIffSegmentsFit(job, schedule);
  }
}
