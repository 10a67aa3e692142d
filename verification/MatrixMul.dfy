/** Matrix multiplication by row blocks: each of `cores` threads accumulates its own rows of the
    result, and reads and writes of a result cell are separate steps. */
module MatrixMul {
  import opened Basics

  type Matrix = seq<seq<int>>

  ghost predicate Square(m: Matrix, n: nat) {
    |m| == n && forall i :: 0 <= i < n ==> |m[i]| == n
  }

  /** The first k terms of the inner product of row i of a and column j of b. */
  function Dot(a: Matrix, b: Matrix, i: nat, j: nat, k: nat): int
    requires k <= |b| && i < |a| && k <= |a[i]| && forall t :: 0 <= t < k ==> j < |b[t]|
  {
    if k == 0 then 0 else Dot(a, b, i, j, k - 1) + a[i][k - 1] * b[k - 1][j]
  }

  // ---------- the loops of one thread, and of the sequential program ----------

  ghost function Grid(m: array2<int>): (g: Matrix)
    reads m
    ensures |g| == m.Length0 && forall i :: 0 <= i < |g| ==> |g[i]| == m.Length1
  {
    seq(m.Length0, i requires 0 <= i < m.Length0 reads m =>
      seq(m.Length1, j requires 0 <= j < m.Length1 reads m => m[i, j]))
  }

  /** The triple loop over `count` rows from `first` on. The sequential program runs it on all rows.
      Each cell of the block grows by the inner product; the other rows keep their values. */
  method MultiplyRows(a: array2<int>, b: array2<int>, c: array2<int>, n: nat, first: nat, count: nat)
    requires a.Length0 == a.Length1 == b.Length0 == b.Length1 == c.Length0 == c.Length1 == n
    requires c != a && c != b && first + count <= n
    modifies c
    ensures forall x, y :: 0 <= x < n && 0 <= y < n ==>
      c[x, y] == old(c[x, y]) + if first <= x < first + count then Dot(Grid(a), Grid(b), x, y, n) else 0
  {
    ghost var ga, gb := Grid(a), Grid(b);
    var i := first;
    while i < first + count
      invariant first <= i <= first + count
      invariant forall x, y :: 0 <= x < n && 0 <= y < n ==>
        c[x, y] == old(c[x, y]) + if first <= x < i then Dot(ga, gb, x, y, n) else 0
    {
      MultiplyRow(a, b, c, n, i);
      i := i + 1;
    }
  }

  method MultiplyRow(a: array2<int>, b: array2<int>, c: array2<int>, n: nat, i: nat)
    requires a.Length0 == a.Length1 == b.Length0 == b.Length1 == c.Length0 == c.Length1 == n
    requires c != a && c != b && i < n
    modifies c
    ensures forall x, y :: 0 <= x < n && 0 <= y < n ==>
      c[x, y] == old(c[x, y]) + if x == i then Dot(Grid(a), Grid(b), x, y, n) else 0
  {
    ghost var ga, gb := Grid(a), Grid(b);
    for j := 0 to n
      invariant forall x, y :: 0 <= x < n && 0 <= y < n ==>
        c[x, y] == old(c[x, y]) + if x == i && y < j then Dot(ga, gb, x, y, n) else 0
    {
      for k := 0 to n
        invariant forall x, y :: 0 <= x < n && 0 <= y < n && !(x == i && y == j) ==>
          c[x, y] == old(c[x, y]) + if x == i && y < j then Dot(ga, gb, x, y, n) else 0
        invariant c[i, j] == old(c[i, j]) + Dot(ga, gb, i, j, k)
      {
        assert ga[i][k] == a[i, k] && gb[k][j] == b[k, j];
        c[i, j] := c[i, j] + a[i, k] * b[k, j];
      }
    }
  }

  // ---------- the threads, interleaved ----------

  /** The loop variables of a thread, and the value of c[i][j] once it has been read. */
  datatype Thread = Thread(i: nat, j: nat, k: nat, loaded: Option<int>)

  datatype Config = Config(a: Matrix, b: Matrix, n: nat, cores: nat) {
    ghost predicate Valid() {
      Square(a, n) && Square(b, n) && cores > 0
    }

    /** Rows per thread. */
    function Rows(): nat
      requires cores > 0
    {
      n / cores
    }

    /** The first row of thread t, counted block by block; lemma FirstIs shows that it is
        t * (n / cores). */
    function First(t: nat): nat
      requires cores > 0
    {
      if t == 0 then 0 else First(t - 1) + Rows()
    }

    /** The block that row x belongs to. */
    function BlockOf(x: nat): nat
      requires cores > 0 && Rows() > 0
      decreases x
    {
      if x < Rows() then 0 else BlockOf(x - Rows()) + 1
    }
  }

  lemma {:induction false} FirstIs(cfg: Config, t: nat)
    requires cfg.cores > 0
    ensures cfg.First(t) == t * (cfg.n / cfg.cores)
  {
    if t > 0 {
      FirstIs(cfg, t - 1);
      TimesOneMore(t - 1, cfg.n / cfg.cores);
    }
  }

  lemma TimesOneMore(t: nat, r: nat)
    ensures (t + 1) * r == t * r + r
  {
  }

  datatype State = State(c: Matrix, threads: seq<Thread>)

  function Init(cfg: Config, c: Matrix): State
    requires cfg.cores > 0
  {
    State(c, seq(cfg.cores, t requires 0 <= t => Thread(cfg.First(t), 0, 0, None)))
  }

  predicate Enabled(cfg: Config, s: State, t: nat)
    requires cfg.cores > 0
  {
    && t < cfg.cores && t < |s.threads|
    && s.threads[t].i < cfg.First(t) + cfg.Rows() && s.threads[t].i < cfg.n
    && s.threads[t].j < cfg.n && s.threads[t].k < cfg.n
  }

  /** The loop headers after one round of the innermost loop. */
  function Next(th: Thread, n: nat): Thread {
    if th.k + 1 < n then Thread(th.i, th.j, th.k + 1, None)
    else if th.j + 1 < n then Thread(th.i, th.j + 1, 0, None)
    else Thread(th.i + 1, 0, 0, None)
  }

  function Step(cfg: Config, s: State, t: nat): State
    requires cfg.cores > 0 && Enabled(cfg, s, t)
    requires |cfg.a| == |cfg.b| == |s.c| == cfg.n
    requires forall x :: 0 <= x < cfg.n ==> |cfg.a[x]| == |cfg.b[x]| == |s.c[x]| == cfg.n
  {
    var th := s.threads[t];
    match th.loaded
    case None => s.(threads := s.threads[t := th.(loaded := Some(s.c[th.i][th.j]))])
    case Some(v) =>
      State(s.c[th.i := s.c[th.i][th.j := v + cfg.a[th.i][th.k] * cfg.b[th.k][th.j]]],
            s.threads[t := Next(th, cfg.n)])
  }

  function Exec(cfg: Config, c: Matrix, schedule: seq<nat>): (r: Option<State>)
    requires cfg.cores > 0 && |cfg.a| == |cfg.b| == |c| == cfg.n
    requires forall x :: 0 <= x < cfg.n ==> |cfg.a[x]| == |cfg.b[x]| == |c[x]| == cfg.n
    ensures r.Some? ==> |r.value.c| == cfg.n && forall x :: 0 <= x < cfg.n ==> |r.value.c[x]| == cfg.n
  {
    if schedule == [] then Some(Init(cfg, c))
    else
      var before := Exec(cfg, c, schedule[..|schedule| - 1]);
      var t := schedule[|schedule| - 1];
      if before.Some? && Enabled(cfg, before.value, t) then Some(Step(cfg, before.value, t)) else None
  }

  /** All threads have left their outer loops. */
  predicate Complete(cfg: Config, s: State)
    requires cfg.cores > 0
  {
    |s.threads| == cfg.cores && forall t :: 0 <= t < cfg.cores ==> s.threads[t].i >= cfg.First(t) + cfg.Rows()
  }

  // ---------- what every interleaving keeps ----------

  /** How many terms of the inner product for cell (x, y) its thread has added. */
  function TermsDone(th: Thread, n: nat, x: nat, y: nat): nat {
    if x < th.i || (x == th.i && y < th.j) then n
    else if x == th.i && y == th.j then th.k
    else 0
  }

  function Terms(cfg: Config, threads: seq<Thread>, x: nat, y: nat): nat
    requires cfg.cores > 0 && |threads| == cfg.cores
  {
    if cfg.Rows() > 0 && cfg.BlockOf(x) < cfg.cores then TermsDone(threads[cfg.BlockOf(x)], cfg.n, x, y) else 0
  }

  ghost predicate ThreadOk(cfg: Config, c: Matrix, t: nat, th: Thread)
    requires cfg.Valid() && Square(c, cfg.n)
  {
    && cfg.First(t) <= th.i <= cfg.First(t) + cfg.Rows() <= cfg.n
    && th.k <= cfg.n && (th.i < cfg.n && cfg.n > 0 ==> th.j < cfg.n && th.k < cfg.n)
    && (th.loaded.Some? ==> th.i < cfg.n && th.j < cfg.n && th.loaded.value == c[th.i][th.j])
    && (th.i == cfg.First(t) + cfg.Rows() ==> th.j == th.k == 0 && th.loaded.None?)
  }

  ghost predicate Inv(cfg: Config, c0: Matrix, s: State)
    requires cfg.Valid() && Square(c0, cfg.n)
  {
    && Square(s.c, cfg.n) && |s.threads| == cfg.cores
    && (forall t :: 0 <= t < cfg.cores ==> ThreadOk(cfg, s.c, t, s.threads[t]))
    && (forall x, y :: 0 <= x < cfg.n && 0 <= y < cfg.n ==>
          Terms(cfg, s.threads, x, y) <= cfg.n &&
          s.c[x][y] == c0[x][y] + Dot(cfg.a, cfg.b, x, y, Terms(cfg, s.threads, x, y)))
  }

  /** Row x belongs to exactly one block. */
  lemma {:induction false} BlockRows(cfg: Config, t: nat, x: nat)
    requires cfg.cores > 0
    ensures cfg.First(t) <= x < cfg.First(t) + cfg.Rows() <==> cfg.Rows() > 0 && cfg.BlockOf(x) == t
    decreases x
  {
    if cfg.Rows() > 0 {
      if x < cfg.Rows() {
        if t > 0 { FirstGrows(cfg, 1, t); }
      } else if t > 0 {
        BlockRows(cfg, t - 1, x - cfg.Rows());
      }
    }
  }

  lemma {:induction false} FirstGrows(cfg: Config, t: nat, u: nat)
    requires cfg.cores > 0 && t <= u
    ensures cfg.First(t) <= cfg.First(u)
  {
    if t < u { FirstGrows(cfg, t, u - 1); }
  }

  /** Every block lies in the matrix. */
  lemma BlockFits(cfg: Config, t: nat)
    requires cfg.cores > 0 && t < cfg.cores
    ensures cfg.First(t) + cfg.Rows() <= cfg.First(cfg.cores) <= cfg.n
    ensures cfg.n % cfg.cores == 0 <==> cfg.First(cfg.cores) == cfg.n
  {
    FirstGrows(cfg, t + 1, cfg.cores);
    FirstIs(cfg, cfg.cores);
    assert cfg.n == cfg.cores * (cfg.n / cfg.cores) + cfg.n % cfg.cores;
  }

  /** The blocks together are the rows below the end of the last one. */
  lemma RowsCovered(cfg: Config, x: nat)
    requires cfg.cores > 0
    ensures x < cfg.First(cfg.cores) <==> cfg.Rows() > 0 && cfg.BlockOf(x) < cfg.cores
  {
    if cfg.Rows() == 0 {
      FirstIs(cfg, cfg.cores);
    } else {
      var t := cfg.BlockOf(x);
      BlockRows(cfg, t, x);
      if t < cfg.cores { FirstGrows(cfg, t + 1, cfg.cores); } else { FirstGrows(cfg, cfg.cores, t); }
    }
  }

  lemma InitInv(cfg: Config, c0: Matrix)
    requires cfg.Valid() && Square(c0, cfg.n)
    ensures Inv(cfg, c0, Init(cfg, c0))
  {
    forall t | 0 <= t < cfg.cores ensures cfg.First(t) + cfg.Rows() <= cfg.n { BlockFits(cfg, t); }
    forall x, y | 0 <= x < cfg.n && 0 <= y < cfg.n ensures Terms(cfg, Init(cfg, c0).threads, x, y) == 0 {
      if cfg.Rows() > 0 && cfg.BlockOf(x) < cfg.cores { BlockRows(cfg, cfg.BlockOf(x), x); }
    }
  }

  lemma LoadInv(cfg: Config, c0: Matrix, s: State, t: nat)
    requires cfg.Valid() && Square(c0, cfg.n) && Inv(cfg, c0, s) && Enabled(cfg, s, t) && s.threads[t].loaded.None?
    ensures Inv(cfg, c0, Step(cfg, s, t))
  {
    var s' := Step(cfg, s, t);
    forall x, y | 0 <= x < cfg.n && 0 <= y < cfg.n ensures Terms(cfg, s'.threads, x, y) == Terms(cfg, s.threads, x, y) {
    }
  }

  /** A store adds one term to its own cell and to no other. */
  lemma TermsStep(cfg: Config, threads: seq<Thread>, t: nat, x: nat, y: nat)
    requires cfg.cores > 0 && |threads| == cfg.cores && t < cfg.cores && x < cfg.n && y < cfg.n
    requires var th := threads[t];
      cfg.First(t) <= th.i < cfg.First(t) + cfg.Rows() && th.j < cfg.n && th.k < cfg.n
    ensures var th := threads[t];
      Terms(cfg, threads[t := Next(th, cfg.n)], x, y)
      == if x == th.i && y == th.j then th.k + 1 else Terms(cfg, threads, x, y)
    ensures Terms(cfg, threads, threads[t].i, threads[t].j) == threads[t].k
  {
    BlockRows(cfg, t, x);
    BlockRows(cfg, t, threads[t].i);
  }

  lemma StoreInv(cfg: Config, c0: Matrix, s: State, t: nat)
    requires cfg.Valid() && Square(c0, cfg.n) && Inv(cfg, c0, s) && Enabled(cfg, s, t) && s.threads[t].loaded.Some?
    ensures Inv(cfg, c0, Step(cfg, s, t))
  {
    var s' := Step(cfg, s, t);
    var th := s.threads[t];
    assert ThreadOk(cfg, s.c, t, th);
    forall x, y | 0 <= x < cfg.n && 0 <= y < cfg.n
      ensures Terms(cfg, s'.threads, x, y) <= cfg.n
      ensures s'.c[x][y] == c0[x][y] + Dot(cfg.a, cfg.b, x, y, Terms(cfg, s'.threads, x, y))
    {
      TermsStep(cfg, s.threads, t, x, y);
    }
    forall u | 0 <= u < cfg.cores ensures ThreadOk(cfg, s'.c, u, s'.threads[u]) {
      assert ThreadOk(cfg, s.c, u, s.threads[u]);
      if u != t && s.threads[u].loaded.Some? {
        BlockRows(cfg, t, th.i);
        BlockRows(cfg, u, s.threads[u].i);
      }
    }
  }

  lemma {:induction false} ExecInv(cfg: Config, c0: Matrix, schedule: seq<nat>)
    requires cfg.Valid() && Square(c0, cfg.n) && Exec(cfg, c0, schedule).Some?
    ensures Inv(cfg, c0, Exec(cfg, c0, schedule).value)
  {
    if schedule == [] {
      InitInv(cfg, c0);
    } else {
      var before, t := schedule[..|schedule| - 1], schedule[|schedule| - 1];
      var s := Exec(cfg, c0, before).value;
      ExecInv(cfg, c0, before);
      if s.threads[t].loaded.None? { LoadInv(cfg, c0, s, t); } else { StoreInv(cfg, c0, s, t); }
    }
  }

  /** Every complete interleaving adds the full inner product to every cell of the first
      First(cores) = cores * (n / cores) rows and leaves the others alone. */
  lemma InterleavingsAgree(cfg: Config, c0: Matrix, schedule: seq<nat>, x: nat, y: nat)
    requires cfg.Valid() && Square(c0, cfg.n) && x < cfg.n && y < cfg.n
    requires Exec(cfg, c0, schedule).Some? && Complete(cfg, Exec(cfg, c0, schedule).value)
    ensures Exec(cfg, c0, schedule).value.c[x][y]
            == c0[x][y] + if x < cfg.First(cfg.cores) then Dot(cfg.a, cfg.b, x, y, cfg.n) else 0
  {
    ExecInv(cfg, c0, schedule);
    var s := Exec(cfg, c0, schedule).value;
    RowsCovered(cfg, x);
    if x < cfg.First(cfg.cores) {
      BlockRows(cfg, cfg.BlockOf(x), x);
      assert ThreadOk(cfg, s.c, cfg.BlockOf(x), s.threads[cfg.BlockOf(x)]);
    }
    assert Dot(cfg.a, cfg.b, x, y, 0) == 0;
  }

  /** The product of a and b. */
  function Product(cfg: Config): Matrix
    requires |cfg.a| == |cfg.b| == cfg.n && forall x :: 0 <= x < cfg.n ==> |cfg.a[x]| == |cfg.b[x]| == cfg.n
  {
    seq(cfg.n, x requires 0 <= x < cfg.n => seq(cfg.n, y requires 0 <= y < cfg.n => Dot(cfg.a, cfg.b, x, y, cfg.n)))
  }

  /** The unit matrix. */
  function Unit(n: nat): Matrix {
    seq(n, i => seq(n, j => if i == j then 1 else 0))
  }

  lemma {:induction false} DotUnitRight(a: Matrix, n: nat, x: nat, y: nat, k: nat)
    requires Square(a, n) && x < n && y < n && k <= n
    ensures Dot(a, Unit(n), x, y, k) == if y < k then a[x][y] else 0
  {
    if k > 0 {
      DotUnitRight(a, n, x, y, k - 1);
      assert Unit(n)[k - 1][y] == if k - 1 == y then 1 else 0;
    }
  }

  lemma {:induction false} DotUnitLeft(b: Matrix, n: nat, x: nat, y: nat, k: nat)
    requires Square(b, n) && x < n && y < n && k <= n
    ensures Dot(Unit(n), b, x, y, k) == if x < k then b[x][y] else 0
  {
    if k > 0 {
      DotUnitLeft(b, n, x, y, k - 1);
      assert Unit(n)[x][k - 1] == if k - 1 == x then 1 else 0;
    }
  }

  /** The unit matrix on either side leaves a matrix as it is. */
  lemma UnitLaws(a: Matrix, n: nat, cores: nat)
    requires Square(a, n)
    ensures Square(Unit(n), n)
    ensures Product(Config(a, Unit(n), n, cores)) == a && Product(Config(Unit(n), a, n, cores)) == a
  {
    var right, left := Product(Config(a, Unit(n), n, cores)), Product(Config(Unit(n), a, n, cores));
    forall x | 0 <= x < n ensures right[x] == a[x] && left[x] == a[x] {
      forall y | 0 <= y < n ensures right[x][y] == a[x][y] && left[x][y] == a[x][y] {
        DotUnitRight(a, n, x, y, n);
        DotUnitLeft(a, n, x, y, n);
      }
    }
  }

  function Constant(n: nat, v: int): Matrix {
    seq(n, _ => seq(n, _ => v))
  }

  lemma ProductIfDivides(cfg: Config, schedule: seq<nat>)
    requires cfg.Valid() && cfg.n % cfg.cores == 0
    requires Exec(cfg, Constant(cfg.n, 0), schedule).Some?
    requires Complete(cfg, Exec(cfg, Constant(cfg.n, 0), schedule).value)
    ensures Exec(cfg, Constant(cfg.n, 0), schedule).value.c == Product(cfg)
  {
    var c := Exec(cfg, Constant(cfg.n, 0), schedule).value.c;
    BlockFits(cfg, 0);
    forall x | 0 <= x < cfg.n ensures c[x] == Product(cfg)[x] {
      forall y | 0 <= y < cfg.n ensures c[x][y] == Product(cfg)[x][y] {
        InterleavingsAgree(cfg, Constant(cfg.n, 0), schedule, x, y);
      }
    }
  }

  lemma {:induction false} DotOfConstants(n: nat, x: nat, y: nat, k: nat)
    requires x < n && y < n && k <= n
    ensures Dot(Constant(n, 2), Constant(n, 3), x, y, k) == 6 * k
  {
    if k > 0 { DotOfConstants(n, x, y, k - 1); }
  }

  /** With the program's own matrices of twos and threes and a zeroed result, any interleaving yields
      the product exactly when the number of rows is a multiple of the number of threads. */
  lemma ProductIffDivides(n: nat, cores: nat, schedule: seq<nat>)
    requires cores > 0
    requires var cfg := Config(Constant(n, 2), Constant(n, 3), n, cores);
      Exec(cfg, Constant(n, 0), schedule).Some? && Complete(cfg, Exec(cfg, Constant(n, 0), schedule).value)
    ensures var cfg := Config(Constant(n, 2), Constant(n, 3), n, cores);
      Exec(cfg, Constant(n, 0), schedule).value.c == Product(cfg) <==> n % cores == 0
  {
    var cfg := Config(Constant(n, 2), Constant(n, 3), n, cores);
    if n % cores == 0 {
      ProductIfDivides(cfg, schedule);
    } else {
      BlockFits(cfg, 0);
      InterleavingsAgree(cfg, Constant(n, 0), schedule, n - 1, 0);
      DotOfConstants(n, n - 1, 0, n);
      assert Product(cfg)[n - 1][0] == 6 * n;
    }
  }

  // ---------- such runs exist ----------

  /** The threads do not wait for each other: in every reachable state each thread can move, whatever
      the others have done, until it is through with its rows. */
  lemma ThreadCanMove(cfg: Config, c0: Matrix, schedule: seq<nat>, t: nat)
    requires cfg.Valid() && Square(c0, cfg.n) && Exec(cfg, c0, schedule).Some?
    ensures var s := Exec(cfg, c0, schedule).value;
      Enabled(cfg, s, t) <==>
        t < cfg.cores <= |s.threads| && s.threads[t].i < t * (cfg.n / cfg.cores) + cfg.n / cfg.cores
  {
    ExecInv(cfg, c0, schedule);
    FirstIs(cfg, t);
    var s := Exec(cfg, c0, schedule).value;
    if t < cfg.cores { assert ThreadOk(cfg, s.c, t, s.threads[t]); }
  }

  /** A thread either has rows left and can move, or is done. */
  lemma CanMove(cfg: Config, c0: Matrix, s: State, t: nat)
    requires cfg.Valid() && Square(c0, cfg.n) && Inv(cfg, c0, s) && t < cfg.cores
    ensures !Enabled(cfg, s, t) ==> s.threads[t].i >= cfg.First(t) + cfg.Rows()
  {
    assert ThreadOk(cfg, s.c, t, s.threads[t]);
  }

  /** Thread t can always be run to the end of its loops. */
  lemma {:induction false} FinishThread(cfg: Config, c0: Matrix, schedule: seq<nat>, t: nat, th: Thread)
    returns (all: seq<nat>)
    requires cfg.Valid() && Square(c0, cfg.n) && Exec(cfg, c0, schedule).Some? && t < cfg.cores
    requires var threads := Exec(cfg, c0, schedule).value.threads; |threads| == cfg.cores && threads[t] == th
    ensures schedule <= all && Exec(cfg, c0, all).Some?
    ensures var before, after := Exec(cfg, c0, schedule).value.threads, Exec(cfg, c0, all).value.threads;
      && |after| == cfg.cores && after[t].i >= cfg.First(t) + cfg.Rows()
      && forall u :: 0 <= u < cfg.cores && u != t ==> after[u] == before[u]
    decreases cfg.First(t) + cfg.Rows() - th.i, cfg.n - th.j, cfg.n - th.k, if th.loaded.None? then 1 else 0
  {
    var s := Exec(cfg, c0, schedule).value;
    ExecInv(cfg, c0, schedule);
    CanMove(cfg, c0, s, t);
    if Enabled(cfg, s, t) {
      assert (schedule + [t])[..|schedule|] == schedule;
      all := FinishThread(cfg, c0, schedule + [t], t, Step(cfg, s, t).threads[t]);
    } else {
      all := schedule;
    }
  }

  /** Any run can go on until all threads are done. */
  lemma CanFinish(cfg: Config, c0: Matrix, schedule: seq<nat>) returns (all: seq<nat>)
    requires cfg.Valid() && Square(c0, cfg.n) && Exec(cfg, c0, schedule).Some?
    ensures schedule <= all && Exec(cfg, c0, all).Some? && Complete(cfg, Exec(cfg, c0, all).value)
  {
    all := schedule;
    ExecInv(cfg, c0, schedule);
    for t := 0 to cfg.cores
      invariant schedule <= all && Exec(cfg, c0, all).Some? && |Exec(cfg, c0, all).value.threads| == cfg.cores
      invariant forall u :: 0 <= u < t ==> Exec(cfg, c0, all).value.threads[u].i >= cfg.First(u) + cfg.Rows()
    {
      all := FinishThread(cfg, c0, all, t, Exec(cfg, c0, all).value.threads[t]);
    }
  }

  /** So the condition does matter: whenever the number of rows is no multiple of the number of threads,
      there is a complete run that leaves a wrong result. */
  lemma UnevenRowsFail(n: nat, cores: nat) returns (schedule: seq<nat>)
    requires cores > 0 && n % cores != 0
    ensures var cfg := Config(Constant(n, 2), Constant(n, 3), n, cores);
      && Exec(cfg, Constant(n, 0), schedule).Some? && Complete(cfg, Exec(cfg, Constant(n, 0), schedule).value)
      && Exec(cfg, Constant(n, 0), schedule).value.c != Product(cfg)
  {
    schedule := CanFinish(Config(Constant(n, 2), Constant(n, 3), n, cores), Constant(n, 0), []);
    ProductIffDivides(n, cores, schedule);
  }

  // ---------- threads against the sequential program ----------

  /** A complete run of the threads. */
  ghost predicate Finishes(cfg: Config, c0: Matrix, schedule: seq<nat>)
    requires cfg.Valid() && Square(c0, cfg.n)
  {
    Exec(cfg, c0, schedule).Some? && Complete(cfg, Exec(cfg, c0, schedule).value)
  }

  /** The sequential program. Whatever the matrices and the number of threads, as long as that divides
      the number of rows, every interleaving of the threads leaves the very matrix that it leaves. */
  method MultiplySequentially(a: array2<int>, b: array2<int>, c: array2<int>, n: nat)
    requires a.Length0 == a.Length1 == b.Length0 == b.Length1 == c.Length0 == c.Length1 == n
    requires c != a && c != b
    modifies c
    ensures forall cores: nat, schedule ::
      var cfg := Config(Grid(a), Grid(b), n, cores);
      cores > 0 && n % cores == 0 && Finishes(cfg, old(Grid(c)), schedule) ==>
        Exec(cfg, old(Grid(c)), schedule).value.c == Grid(c)
  {
    MultiplyRows(a, b, c, n, 0, n);
    forall cores: nat, schedule |
      cores > 0 && n % cores == 0 && Finishes(Config(Grid(a), Grid(b), n, cores), old(Grid(c)), schedule)
      ensures Exec(Config(Grid(a), Grid(b), n, cores), old(Grid(c)), schedule).value.c == Grid(c)
    {
      SameAsSequential(Config(Grid(a), Grid(b), n, cores), old(Grid(c)), schedule, Grid(c));
    }
  }

  lemma SameAsSequential(cfg: Config, c0: Matrix, schedule: seq<nat>, c: Matrix)
    requires cfg.Valid() && Square(c0, cfg.n) && Square(c, cfg.n) && Finishes(cfg, c0, schedule)
    requires cfg.n % cfg.cores == 0
    requires forall x, y :: 0 <= x < cfg.n && 0 <= y < cfg.n ==>
      c[x][y] == c0[x][y] + Dot(cfg.a, cfg.b, x, y, cfg.n)
    ensures Exec(cfg, c0, schedule).value.c == c
  {
    var r := Exec(cfg, c0, schedule).value.c;
    BlockFits(cfg, 0);
    forall x | 0 <= x < cfg.n ensures r[x] == c[x] {
      forall y | 0 <= y < cfg.n ensures r[x][y] == c[x][y] { InterleavingsAgree(cfg, c0, schedule, x, y); }
    }
  }
}
