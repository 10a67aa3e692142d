/** Two processes write to one open file after a fork. They share the seek position, so each one's
    seek also moves the other. `lseek` and `write` are atomic and writes are complete.

    A run is a schedule that says which process makes the next system call. */
module SharedOffset {
  import opened Basics

  datatype Writer = Child | Parent

  function Other(w: Writer): Writer {
    match w case Child => Parent case Parent => Child
  }

  /** Constants of the program, left general: lines of `lnsize` bytes from offset `seekto` on. */
  datatype Config = Config(seekto: nat, lnsize: nat, numlines: nat) {
    function Offset(cell: nat): nat {
      seekto + lnsize * cell
    }

    /** The cell that a process seeks to before writing. */
    function FirstCell(w: Writer): nat {
      match w case Child => 0 case Parent => numlines
    }

    function Line(w: Writer): seq<char> {
      seq(lnsize, i => if i == lnsize - 1 then '\n' else if w.Child? then 'c' else 'p')
    }
  }

  // ---------- the open file ----------

  datatype File = File(data: seq<char>, pos: nat)

  function Lseek(f: File, offset: nat): File {
    f.(pos := offset)
  }

  /** Bytes never written before the end of the file read as zero. */
  function Byte(data: seq<char>, o: nat): char {
    if o < |data| then data[o] else '\0'
  }

  function Write(f: File, buf: seq<char>): File {
    var end := f.pos + |buf|;
    var size := if buf == [] then |f.data| else Max(|f.data|, end);
    File(seq(size, o requires 0 <= o < size => if f.pos <= o < end then buf[o - f.pos] else Byte(f.data, o)), end)
  }

  /** What a seek and a write mean: the text reads back from where the seek went, every other byte of
      the file is as before, and the position is where the next write continues; so two writes in a row
      are one write of both texts. */
  lemma WriteReadsBack(f: File, offset: nat, buf: seq<char>, more: seq<char>)
    requires buf != []
    ensures var g, end := Write(Lseek(f, offset), buf), offset + |buf|;
      && |g.data| == Max(|f.data|, end) && g.data[offset..end] == buf && g.pos == end
      && (forall o: nat :: o < offset || end <= o ==> Byte(g.data, o) == Byte(f.data, o))
      && Write(g, more) == Write(Lseek(f, offset), buf + more)
  {
    var g := Write(Lseek(f, offset), buf);
    assert Write(g, more).data == Write(Lseek(f, offset), buf + more).data;
  }

  // ---------- the two processes ----------

  datatype Pc = Seeking | Writing(lines: nat)

  /** `at` is where a write started. */
  datatype Entry = Entry(who: Writer, at: nat)

  /** Who has seeked so far. The number is how many lines the first process had written when the
      second one seeked. */
  datatype Order = NoSeek | Only(first: Writer) | Both(first: Writer, early: nat)

  datatype State = State(file: File, child: Pc, parent: Pc, log: seq<Entry>, order: Order) {
    function PcOf(w: Writer): Pc {
      match w case Child => child case Parent => parent
    }

    function WithPc(w: Writer, pc: Pc): State {
      match w case Child => this.(child := pc) case Parent => this.(parent := pc)
    }
  }

  function Init(): State {
    State(File([], 0), Seeking, Seeking, [], NoSeek)
  }

  predicate Enabled(cfg: Config, s: State, w: Writer) {
    s.PcOf(w).Seeking? || s.PcOf(w).lines < cfg.numlines
  }

  function Step(cfg: Config, s: State, w: Writer): State
    requires Enabled(cfg, s, w)
  {
    match s.PcOf(w)
    case Seeking =>
      var order := if s.order.Only? then Both(s.order.first, |s.log|) else Only(w);
      s.WithPc(w, Writing(0)).(file := Lseek(s.file, cfg.Offset(cfg.FirstCell(w))), order := order)
    case Writing(lines) =>
      s.WithPc(w, Writing(lines + 1)).(file := Write(s.file, cfg.Line(w)), log := s.log + [Entry(w, s.file.pos)])
  }

  function Exec(cfg: Config, schedule: seq<Writer>): Option<State> {
    if schedule == [] then
      Some(Init())
    else
      var before := Exec(cfg, schedule[..|schedule| - 1]);
      var w := schedule[|schedule| - 1];
      if before.Some? && Enabled(cfg, before.value, w) then Some(Step(cfg, before.value, w)) else None
  }

  predicate Complete(cfg: Config, s: State) {
    s.child == Writing(cfg.numlines) && s.parent == Writing(cfg.numlines)
  }

  // ---------- the file as a row of cells ----------

  type Cells = seq<Option<Writer>>

  function Put(cells: Cells, c: nat, w: Writer): Cells {
    var size := if |cells| <= c then c + 1 else |cells|;
    seq(size, i requires 0 <= i < size => if i == c then Some(w) else if i < |cells| then cells[i] else None)
  }

  /** The byte at offset o of a file made of cells: the part before `seekto` and the cells never
      written are holes, any other cell is one whole line. */
  function CellByte(cfg: Config, cells: Cells, o: nat): char
    requires cfg.lnsize > 0
  {
    if o < cfg.seekto then '\0'
    else
      var cell := (o - cfg.seekto) / cfg.lnsize;
      if cell < |cells| && cells[cell].Some? then cfg.Line(cells[cell].value)[(o - cfg.seekto) % cfg.lnsize] else '\0'
  }

  function Render(cfg: Config, cells: Cells): seq<char>
    requires cfg.lnsize > 0
  {
    if cells == [] then [] else seq(cfg.Offset(|cells|), o requires 0 <= o => CellByte(cfg, cells, o))
  }

  lemma RenderByte(cfg: Config, cells: Cells, o: nat)
    requires cfg.lnsize > 0
    ensures Byte(Render(cfg, cells), o) == CellByte(cfg, cells, o)
  {
    if o >= |Render(cfg, cells)| && cells != [] {
      BeyondCells(cfg, cells, o);
    }
  }

  lemma OffsetNext(cfg: Config, c: nat)
    ensures cfg.Offset(c + 1) == cfg.Offset(c) + cfg.lnsize
    ensures cfg.seekto <= cfg.Offset(c)
  {
    MulLe(cfg.lnsize, 0, c);
  }

  lemma PutByte(cfg: Config, cells: Cells, c: nat, w: Writer, o: nat, at: nat)
    requires cfg.lnsize > 0 && at == cfg.Offset(c)
    ensures CellByte(cfg, Put(cells, c, w), o)
            == if at <= o < at + cfg.lnsize then cfg.Line(w)[o - at] else CellByte(cfg, cells, o)
  {
    OffsetNext(cfg, c);
    if cfg.seekto <= o {
      InCell(cfg, c, o);
      PutCell(cells, c, w, (o - cfg.seekto) / cfg.lnsize);
    }
  }

  /** Which offsets belong to cell c. */
  lemma InCell(cfg: Config, c: nat, o: nat)
    requires cfg.lnsize > 0 && cfg.seekto <= o
    ensures var at := cfg.Offset(c);
      && ((o - cfg.seekto) / cfg.lnsize == c <==> at <= o < at + cfg.lnsize)
      && (at <= o < at + cfg.lnsize ==> (o - cfg.seekto) % cfg.lnsize == o - at)
  {
    DivMod(o - cfg.seekto, cfg.lnsize, c);
  }

  lemma PutCell(cells: Cells, c: nat, w: Writer, q: nat)
    ensures var cells' := Put(cells, c, w);
      if q == c then q < |cells'| && cells'[q] == Some(w)
      else (q < |cells'| && cells'[q].Some? <==> q < |cells| && cells[q].Some?)
           && (q < |cells'| && cells'[q].Some? ==> cells'[q] == cells[q])
  {
  }

  lemma PutSize(cfg: Config, cells: Cells, c: nat, w: Writer)
    requires cfg.lnsize > 0
    ensures |Render(cfg, Put(cells, c, w))| == Max(|Render(cfg, cells)|, cfg.Offset(c + 1))
  {
    if |cells| <= c {
      MulLe(cfg.lnsize, |cells|, c + 1);
    } else {
      MulLe(cfg.lnsize, c + 1, |cells|);
    }
  }

  /** Writing a line at a cell boundary writes that cell and nothing else. */
  lemma WriteIsPut(cfg: Config, cells: Cells, c: nat, w: Writer)
    requires cfg.lnsize > 0
    ensures Write(File(Render(cfg, cells), cfg.Offset(c)), cfg.Line(w))
            == File(Render(cfg, Put(cells, c, w)), cfg.Offset(c + 1))
  {
    var g := Write(File(Render(cfg, cells), cfg.Offset(c)), cfg.Line(w)).data;
    var r := Render(cfg, Put(cells, c, w));
    OffsetNext(cfg, c);
    PutSize(cfg, cells, c, w);
    forall o | 0 <= o < |r| ensures g[o] == r[o] {
      RenderByte(cfg, cells, o);
      PutByte(cfg, cells, c, w, o, cfg.Offset(c));
    }
    assert g == r;
  }

  lemma BeyondCells(cfg: Config, cells: Cells, o: nat)
    requires cfg.lnsize > 0 && o >= cfg.Offset(|cells|)
    ensures (o - cfg.seekto) / cfg.lnsize >= |cells|
  {
    var q := (o - cfg.seekto) / cfg.lnsize;
    DivMod(o - cfg.seekto, cfg.lnsize, q);
    if q < |cells| { MulLe(cfg.lnsize, q + 1, |cells|); }
  }

  // ---------- what every schedule keeps ----------

  /** The cell that the k-th write of a run goes to. */
  function CellOf(cfg: Config, order: Order, k: nat): nat {
    match order
    case NoSeek => 0
    case Only(first) => cfg.FirstCell(first) + k
    case Both(Child, early) => if k < early then k else cfg.numlines + (k - early)
    case Both(Parent, early) => if k < early then cfg.numlines + k else k - early
  }

  function CellAt(cfg: Config, at: nat): nat
    requires cfg.lnsize > 0
  {
    if at < cfg.seekto then 0 else (at - cfg.seekto) / cfg.lnsize
  }

  /** The row of cells after the writes of a log. */
  function CellsOf(cfg: Config, log: seq<Entry>): Cells
    requires cfg.lnsize > 0
  {
    if log == [] then []
    else
      var last := log[|log| - 1];
      Put(CellsOf(cfg, log[..|log| - 1]), CellAt(cfg, last.at), last.who)
  }

  ghost predicate Progress(cfg: Config, s: State) {
    match s.order
    case NoSeek => s == Init()
    case Only(w) =>
      && s.PcOf(w) == Writing(|s.log|) && |s.log| <= cfg.numlines
      && s.PcOf(Other(w)).Seeking?
      && forall k :: 0 <= k < |s.log| ==> s.log[k].who == w
    case Both(w, early) =>
      && s.child.Writing? && s.parent.Writing?
      && s.child.lines <= cfg.numlines && s.parent.lines <= cfg.numlines
      && early <= s.PcOf(w).lines && |s.log| == s.child.lines + s.parent.lines
      && forall k :: 0 <= k < early ==> s.log[k].who == w
  }

  lemma CellAtOffset(cfg: Config, c: nat)
    requires cfg.lnsize > 0
    ensures CellAt(cfg, cfg.Offset(c)) == c
  {
    DivMod(cfg.lnsize * c, cfg.lnsize, c);
  }

  lemma LogOneMore(cfg: Config, log: seq<Entry>, w: Writer, c: nat)
    requires cfg.lnsize > 0
    ensures CellsOf(cfg, log + [Entry(w, cfg.Offset(c))]) == Put(CellsOf(cfg, log), c, w)
  {
    assert (log + [Entry(w, cfg.Offset(c))])[..|log|] == log;
    CellAtOffset(cfg, c);
  }

  lemma ProgressStep(cfg: Config, s: State, w: Writer)
    requires Progress(cfg, s) && Enabled(cfg, s, w)
    ensures Progress(cfg, Step(cfg, s, w))
  {
  }

  lemma {:induction false} ExecProgress(cfg: Config, schedule: seq<Writer>)
    requires Exec(cfg, schedule).Some?
    ensures Progress(cfg, Exec(cfg, schedule).value)
  {
    if schedule != [] {
      ExecProgress(cfg, schedule[..|schedule| - 1]);
      ProgressStep(cfg, Exec(cfg, schedule[..|schedule| - 1]).value, schedule[|schedule| - 1]);
    }
  }

  ghost predicate Inv(cfg: Config, s: State)
    requires cfg.lnsize > 0
  {
    Progress(cfg, s) && Layout(cfg, s)
  }

  /** Where the writes of the log went. */
  ghost predicate InCells(cfg: Config, order: Order, log: seq<Entry>) {
    forall k :: 0 <= k < |log| ==> log[k].at == cfg.Offset(CellOf(cfg, order, k))
  }

  lemma InCellsNext(cfg: Config, order: Order, log: seq<Entry>, e: Entry)
    requires InCells(cfg, order, log) && e.at == cfg.Offset(CellOf(cfg, order, |log|))
    ensures InCells(cfg, order, log + [e])
  {
  }

  /** Where the writes of the log went, and what the file shows for it. */
  ghost predicate Layout(cfg: Config, s: State)
    requires cfg.lnsize > 0
  {
    && InCells(cfg, s.order, s.log)
    && (!s.order.NoSeek? ==> s.file.pos == cfg.Offset(CellOf(cfg, s.order, |s.log|)))
    && s.file.data == Render(cfg, CellsOf(cfg, s.log))
  }

  lemma SeekInv(cfg: Config, s: State, w: Writer)
    requires cfg.lnsize > 0 && Inv(cfg, s) && s.PcOf(w).Seeking?
    ensures Inv(cfg, Step(cfg, s, w))
  {
    ProgressStep(cfg, s, w);
    assert forall k :: 0 <= k < |s.log| ==> CellOf(cfg, Step(cfg, s, w).order, k) == CellOf(cfg, s.order, k);
  }

  lemma WriteInv(cfg: Config, s: State, w: Writer)
    requires cfg.lnsize > 0 && Inv(cfg, s) && Enabled(cfg, s, w) && s.PcOf(w).Writing?
    ensures Inv(cfg, Step(cfg, s, w))
  {
    ProgressStep(cfg, s, w);
    WriteInvShape(cfg, s, Step(cfg, s, w), w);
  }

  lemma WriteInvShape(cfg: Config, s: State, s': State, w: Writer)
    requires cfg.lnsize > 0 && Layout(cfg, s) && !s.order.NoSeek? && (s.order.Both? ==> s.order.early <= |s.log|)
    requires s'.order == s.order && s'.log == s.log + [Entry(w, s.file.pos)] && s'.file == Write(s.file, cfg.Line(w))
    ensures Layout(cfg, s')
  {
    NextCell(cfg, s.order, |s.log|);
    WriteExtends(cfg, s.file, s.log, w, CellOf(cfg, s.order, |s.log|));
    InCellsNext(cfg, s.order, s.log, Entry(w, s.file.pos));
  }

  lemma WriteExtends(cfg: Config, f: File, log: seq<Entry>, w: Writer, c: nat)
    requires cfg.lnsize > 0 && f.data == Render(cfg, CellsOf(cfg, log)) && f.pos == cfg.Offset(c)
    ensures var f' := Write(f, cfg.Line(w));
      f'.data == Render(cfg, CellsOf(cfg, log + [Entry(w, f.pos)])) && f'.pos == cfg.Offset(c + 1)
  {
    LogOneMore(cfg, log, w, c);
    WriteIsPut(cfg, CellsOf(cfg, log), c, w);
    assert f == File(Render(cfg, CellsOf(cfg, log)), cfg.Offset(c));
  }

  /** Consecutive writes go to consecutive cells, unless a seek comes between. */
  lemma NextCell(cfg: Config, order: Order, k: nat)
    requires order.Both? ==> order.early <= k
    ensures !order.NoSeek? ==> CellOf(cfg, order, k + 1) == CellOf(cfg, order, k) + 1
  {
  }

  lemma {:induction false} ExecInv(cfg: Config, schedule: seq<Writer>)
    requires cfg.lnsize > 0 && Exec(cfg, schedule).Some?
    ensures Inv(cfg, Exec(cfg, schedule).value)
  {
    if schedule != [] {
      ExecInv(cfg, schedule[..|schedule| - 1]);
      var s, w := Exec(cfg, schedule[..|schedule| - 1]).value, schedule[|schedule| - 1];
      if s.PcOf(w).Seeking? { SeekInv(cfg, s, w); } else { WriteInv(cfg, s, w); }
    }
  }

  /** In every state of every run, each write so far started at `seekto` plus a multiple of the line
      length. */
  lemma WritesAligned(cfg: Config, schedule: seq<Writer>, k: nat)
    requires cfg.lnsize > 0 && Exec(cfg, schedule).Some? && k < |Exec(cfg, schedule).value.log|
    ensures var at := Exec(cfg, schedule).value.log[k].at;
      at >= cfg.seekto && (at - cfg.seekto) % cfg.lnsize == 0
  {
    ExecInv(cfg, schedule);
    OffsetAligned(cfg, CellOf(cfg, Exec(cfg, schedule).value.order, k));
  }

  lemma OffsetAligned(cfg: Config, c: nat)
    requires cfg.lnsize > 0
    ensures cfg.Offset(c) >= cfg.seekto && (cfg.Offset(c) - cfg.seekto) % cfg.lnsize == 0
  {
    var x := cfg.lnsize * c;
    DivMod(x, cfg.lnsize, c);
    assert cfg.Offset(c) - cfg.seekto == x;
  }

  /** In every state of every run, the bytes before `seekto` are untouched, the file is empty or ends
      at the end of a cell, and every cell of it is wholly a line of the child, wholly a line of the
      parent, or a hole: no line is torn. */
  lemma NoTornLines(cfg: Config, schedule: seq<Writer>, c: nat)
    requires cfg.lnsize > 0 && Exec(cfg, schedule).Some?
    ensures var data := Exec(cfg, schedule).value.file.data;
      && (forall o :: 0 <= o < cfg.seekto && o < |data| ==> data[o] == '\0')
      && (data == [] || exists n: nat :: n > 0 && |data| == cfg.Offset(n))
      && (cfg.Offset(c) < |data| ==>
            HoldsLine(cfg, data, c, 'c') || HoldsLine(cfg, data, c, 'p') || HoldsHole(cfg, data, c))
  {
    ExecInv(cfg, schedule);
    var cells := CellsOf(cfg, Exec(cfg, schedule).value.log);
    if cells != [] {
      if |cells| <= c { MulLe(cfg.lnsize, |cells|, c); } else { CellShown(cfg, cells, c); }
    }
  }

  /** Cell c of the file is a whole line of one letter. */
  ghost predicate HoldsLine(cfg: Config, data: seq<char>, c: nat, letter: char) {
    var at := cfg.Offset(c);
    at + cfg.lnsize <= |data| && IsLine(data[at..at + cfg.lnsize], letter)
  }

  ghost predicate IsLine(text: seq<char>, letter: char) {
    |text| > 0 && text[|text| - 1] == '\n' && forall i :: 0 <= i < |text| - 1 ==> text[i] == letter
  }

  /** Cell c of the file was never written. */
  ghost predicate HoldsHole(cfg: Config, data: seq<char>, c: nat) {
    var at := cfg.Offset(c);
    at + cfg.lnsize <= |data| && forall i :: at <= i < at + cfg.lnsize ==> data[i] == '\0'
  }

  /** The child writes lines of c, the parent lines of p. */
  lemma LineLetters(cfg: Config, w: Writer)
    requires cfg.lnsize > 0
    ensures |cfg.Line(w)| == cfg.lnsize && IsLine(cfg.Line(w), match w case Child => 'c' case Parent => 'p')
  {
  }

  lemma CellShown(cfg: Config, cells: Cells, c: nat)
    requires cfg.lnsize > 0 && c < |cells|
    ensures match cells[c]
            case None => HoldsHole(cfg, Render(cfg, cells), c)
            case Some(w) => HoldsLine(cfg, Render(cfg, cells), c, match w case Child => 'c' case Parent => 'p')
  {
    CellContents(cfg, cells, c);
    var at, r := cfg.Offset(c), Render(cfg, cells);
    if cells[c].Some? {
      LineLetters(cfg, cells[c].value);
    } else {
      forall i | at <= i < at + cfg.lnsize ensures r[i] == '\0' {
        assert r[at..at + cfg.lnsize][i - at] == Shown(cfg, None)[i - at];
      }
    }
  }

  /** What a cell holds. */
  function Shown(cfg: Config, cell: Option<Writer>): seq<char> {
    if cell.Some? then cfg.Line(cell.value) else seq(cfg.lnsize, _ => '\0')
  }

  lemma ByteInCell(cfg: Config, cells: Cells, c: nat, i: nat)
    requires i < cfg.lnsize && c < |cells|
    ensures CellByte(cfg, cells, cfg.Offset(c) + i) == Shown(cfg, cells[c])[i]
  {
    DivMod(cfg.lnsize * c + i, cfg.lnsize, c);
  }

  lemma CellContents(cfg: Config, cells: Cells, c: nat)
    requires cfg.lnsize > 0 && c < |cells|
    ensures cfg.Offset(c) + cfg.lnsize <= |Render(cfg, cells)|
    ensures Render(cfg, cells)[cfg.Offset(c)..cfg.Offset(c) + cfg.lnsize] == Shown(cfg, cells[c])
  {
    MulLe(cfg.lnsize, c + 1, |cells|);
    var at, r, shown := cfg.Offset(c), Render(cfg, cells), Shown(cfg, cells[c]);
    assert at + cfg.lnsize <= |r|;
    forall i | 0 <= i < cfg.lnsize ensures r[at..at + cfg.lnsize][i] == shown[i] {
      ByteInCell(cfg, cells, c, i);
    }
  }

  // ---------- which lines are lost ----------

  /** The writes of a log that a later write to the same place wiped out. */
  ghost function Overwritten(log: seq<Entry>): set<nat> {
    set k: nat | k < |log| && exists j :: k < j < |log| && log[j].at == log[k].at
  }

  /** Any write that is not overwritten can be read back from its cell, whole. */
  lemma SurvivorsReadBack(cfg: Config, schedule: seq<Writer>, k: nat)
    requires cfg.lnsize > 0 && Exec(cfg, schedule).Some?
    requires k < |Exec(cfg, schedule).value.log| && k !in Overwritten(Exec(cfg, schedule).value.log)
    ensures var s := Exec(cfg, schedule).value;
      var at := s.log[k].at;
      at + cfg.lnsize <= |s.file.data| && s.file.data[at..at + cfg.lnsize] == cfg.Line(s.log[k].who)
  {
    ExecInv(cfg, schedule);
    var s := Exec(cfg, schedule).value;
    var c := CellOf(cfg, s.order, k);
    forall j | 0 <= j < |s.log| ensures s.log[j].at == cfg.Offset(CellAt(cfg, s.log[j].at)) {
      CellAtOffset(cfg, CellOf(cfg, s.order, j));
    }
    LastWriteWins(cfg, s.log, k);
    CellAtOffset(cfg, c);
    CellContents(cfg, CellsOf(cfg, s.log), c);
  }

  lemma {:induction false} LastWriteWins(cfg: Config, log: seq<Entry>, k: nat)
    requires cfg.lnsize > 0 && k < |log|
    requires forall j :: 0 <= j < |log| ==> log[j].at == cfg.Offset(CellAt(cfg, log[j].at))
    requires forall j :: k < j < |log| ==> log[j].at != log[k].at
    ensures var cells := CellsOf(cfg, log);
      CellAt(cfg, log[k].at) < |cells| && cells[CellAt(cfg, log[k].at)] == Some(log[k].who)
  {
    if k < |log| - 1 {
      LastWriteWins(cfg, log[..|log| - 1], k);
    }
  }

  /** The numbers below n. */
  function Below(n: nat): (r: set<nat>)
    ensures |r| == n && forall k: nat :: k in r <==> k < n
  {
    if n == 0 then {} else Below(n - 1) + {n - 1}
  }

  lemma OffsetsDiffer(cfg: Config, a: nat, b: nat)
    requires cfg.lnsize > 0
    ensures cfg.Offset(a) == cfg.Offset(b) <==> a == b
  {
    CellAtOffset(cfg, a);
    CellAtOffset(cfg, b);
  }

  /** If the child seeks first, no line is ever lost. */
  lemma ChildFirstLosesNothing(cfg: Config, schedule: seq<Writer>)
    requires cfg.lnsize > 0 && Exec(cfg, schedule).Some? && Complete(cfg, Exec(cfg, schedule).value)
    requires schedule[0] == Child
    ensures var s := Exec(cfg, schedule).value;
      |s.log| == 2 * cfg.numlines && Overwritten(s.log) == {}
  {
    ExecInv(cfg, schedule);
    OrderOfSchedule(cfg, schedule);
    var s := Exec(cfg, schedule).value;
    forall j, k | 0 <= k < j < |s.log| ensures s.log[j].at != s.log[k].at {
      OffsetsDiffer(cfg, CellOf(cfg, s.order, j), CellOf(cfg, s.order, k));
    }
  }

  /** If the parent seeks first and writes m lines before the child seeks, the first
      min(m, numlines - m) lines of the parent are lost and no other: at most half of them. */
  lemma ParentFirstLoses(cfg: Config, schedule: seq<Writer>, m: nat)
    requires cfg.lnsize > 0 && Exec(cfg, schedule).Some? && Complete(cfg, Exec(cfg, schedule).value)
    requires m + 1 < |schedule| && schedule[m + 1] == Child
    requires forall i :: 0 <= i <= m ==> schedule[i] == Parent
    ensures m <= cfg.numlines
    ensures var s := Exec(cfg, schedule).value;
      var lost := Min(m, cfg.numlines - m);
      && |s.log| == 2 * cfg.numlines
      && Overwritten(s.log) == Below(lost)
      && |Overwritten(s.log)| == lost && 2 * lost <= cfg.numlines
      && forall k :: 0 <= k < lost ==> s.log[k] == Entry(Parent, cfg.Offset(cfg.numlines + k))
  {
    var s := Exec(cfg, schedule).value;
    assert Inv(cfg, s) && s.order == Both(Parent, m) by {
      ExecInv(cfg, schedule);
      OrderOfSchedule(cfg, schedule);
      EarlyIs(schedule, s.order, m);
    }
    ParentFirstOverwritten(cfg, s);
  }

  lemma EarlyIs(schedule: seq<Writer>, order: Order, m: nat)
    requires m + 1 < |schedule| && schedule[m + 1] == Child && forall i :: 0 <= i <= m ==> schedule[i] == Parent
    requires order.Both? && OrderMatches(schedule, order, 0)
    ensures order == Both(Parent, m)
  {
    assert schedule[0] == Parent;
    var second, child := schedule[order.early + 1], schedule[m + 1];
    assert second != order.first && child != Parent;
  }

  lemma ParentFirstOverwritten(cfg: Config, s: State)
    requires cfg.lnsize > 0 && Inv(cfg, s) && Complete(cfg, s) && s.order.Both? && s.order.first.Parent?
    ensures s.order.early <= cfg.numlines && |s.log| == 2 * cfg.numlines
    ensures forall k :: 0 <= k < s.order.early ==> s.log[k] == Entry(Parent, cfg.Offset(cfg.numlines + k))
    ensures Overwritten(s.log) == Below(Min(s.order.early, cfg.numlines - s.order.early))
  {
    var m, n := s.order.early, cfg.numlines;
    forall k: nat | k < |s.log| ensures k in Overwritten(s.log) <==> k < Min(m, n - m) {
      if k < Min(m, n - m) {
        assert s.log[m + n + k].at == s.log[k].at;
      } else {
        forall j | k < j < |s.log| ensures s.log[j].at != s.log[k].at {
          OffsetsDiffer(cfg, CellOf(cfg, s.order, j), CellOf(cfg, s.order, k));
        }
      }
    }
  }

  /** The history in `order` is what the schedule says: the first process made `early` writes after
      its seek before the other process made its first call. */
  ghost predicate OrderMatches(schedule: seq<Writer>, order: Order, writes: nat) {
    match order
    case NoSeek => schedule == []
    case Only(w) => |schedule| == writes + 1 && forall i :: 0 <= i < |schedule| ==> schedule[i] == w
    case Both(w, early) =>
      && early + 1 < |schedule| && schedule[early + 1] != w
      && forall i :: 0 <= i <= early ==> schedule[i] == w
  }

  lemma {:induction false} OrderOfSchedule(cfg: Config, schedule: seq<Writer>)
    requires Exec(cfg, schedule).Some?
    ensures OrderMatches(schedule, Exec(cfg, schedule).value.order, |Exec(cfg, schedule).value.log|)
  {
    if schedule != [] {
      var before, w := schedule[..|schedule| - 1], schedule[|schedule| - 1];
      var s := LastStep(cfg, before, w, schedule);
      OrderOfSchedule(cfg, before);
      ExecProgress(cfg, before);
      OrderStep(cfg, before, s, w);
    }
  }

  lemma LastStep(cfg: Config, before: seq<Writer>, w: Writer, schedule: seq<Writer>) returns (s: State)
    requires schedule != [] && before == schedule[..|schedule| - 1] && w == schedule[|schedule| - 1]
    requires Exec(cfg, schedule).Some?
    ensures schedule == before + [w] && Exec(cfg, before) == Some(s)
    ensures Enabled(cfg, s, w) && Exec(cfg, schedule) == Some(Step(cfg, s, w))
  {
    s := Exec(cfg, before).value;
  }

  lemma OrderStep(cfg: Config, before: seq<Writer>, s: State, w: Writer)
    requires Progress(cfg, s) && Enabled(cfg, s, w) && OrderMatches(before, s.order, |s.log|)
    ensures OrderMatches(before + [w], Step(cfg, s, w).order, |Step(cfg, s, w).log|)
  {
  }

  // ---------- the final file ----------

  /** How often a process appears in a schedule. */
  function Count(schedule: seq<Writer>, w: Writer): nat {
    if schedule == [] then 0
    else Count(schedule[..|schedule| - 1], w) + if schedule[|schedule| - 1] == w then 1 else 0
  }

  function CallsMade(pc: Pc): nat {
    match pc case Seeking => 0 case Writing(lines) => lines + 1
  }

  /** The processes do not wait for each other: a schedule is a run exactly when neither process makes
      more calls than its seek and its writes, whatever their order. */
  lemma {:induction false} RunIff(cfg: Config, schedule: seq<Writer>)
    ensures Exec(cfg, schedule).Some? <==>
              Count(schedule, Child) <= cfg.numlines + 1 && Count(schedule, Parent) <= cfg.numlines + 1
    ensures Exec(cfg, schedule).Some? ==>
              forall w: Writer :: CallsMade(Exec(cfg, schedule).value.PcOf(w)) == Count(schedule, w)
  {
    if schedule != [] { RunIff(cfg, schedule[..|schedule| - 1]); }
  }

  /** After the seeks, every call of a run is a write, logged in the order of the schedule. */
  lemma {:induction false} LogOfSchedule(cfg: Config, schedule: seq<Writer>)
    requires Exec(cfg, schedule).Some?
    ensures var s := Exec(cfg, schedule).value;
      && |schedule| == |s.log| + (match s.order case NoSeek => 0 case Only(_) => 1 case Both(_, _) => 2)
      && forall k :: 0 <= k < |s.log| ==>
           var at := if s.order.Both? && s.order.early <= k then k + 2 else k + 1;
           at < |schedule| && s.log[k].who == schedule[at]
  {
    if schedule != [] {
      var before, w := schedule[..|schedule| - 1], schedule[|schedule| - 1];
      var s := LastStep(cfg, before, w, schedule);
      LogOfSchedule(cfg, before);
      ExecProgress(cfg, before);
    }
  }

  lemma {:induction false} NeverWritten(cfg: Config, log: seq<Entry>, c: nat)
    requires cfg.lnsize > 0 && forall k :: 0 <= k < |log| ==> CellAt(cfg, log[k].at) != c
    ensures c < |CellsOf(cfg, log)| ==> CellsOf(cfg, log)[c] == None
  {
    if log != [] { NeverWritten(cfg, log[..|log| - 1], c); }
  }

  /** The row of cells ends at the last cell that was written. */
  lemma {:induction false} RowEnds(cfg: Config, log: seq<Entry>, end: nat)
    requires cfg.lnsize > 0 && forall k :: 0 <= k < |log| ==> CellAt(cfg, log[k].at) < end
    ensures |CellsOf(cfg, log)| <= end
    ensures forall k :: 0 <= k < |log| ==> CellAt(cfg, log[k].at) < |CellsOf(cfg, log)|
  {
    if log != [] {
      var before := log[..|log| - 1];
      RowEnds(cfg, before, end);
      assert forall k :: 0 <= k < |before| ==> log[k] == before[k];
    }
  }

  /** The cells that the writes of a state went to. */
  lemma CellsWritten(cfg: Config, s: State)
    requires cfg.lnsize > 0 && Inv(cfg, s)
    ensures forall k :: 0 <= k < |s.log| ==>
      CellAt(cfg, s.log[k].at) == CellOf(cfg, s.order, k) && s.log[k].at == cfg.Offset(CellAt(cfg, s.log[k].at))
  {
    forall k | 0 <= k < |s.log|
      ensures CellAt(cfg, s.log[k].at) == CellOf(cfg, s.order, k) && s.log[k].at == cfg.Offset(CellAt(cfg, s.log[k].at))
    {
      CellAtOffset(cfg, CellOf(cfg, s.order, k));
    }
  }

  /** The file ends with the last cell written. */
  lemma FinalSize(cfg: Config, s: State, k: nat, end: nat)
    requires cfg.lnsize > 0 && Inv(cfg, s) && k < |s.log| && CellOf(cfg, s.order, k) == end - 1
    requires forall j :: 0 <= j < |s.log| ==> CellOf(cfg, s.order, j) < end
    ensures |CellsOf(cfg, s.log)| == end && |s.file.data| == cfg.Offset(end)
  {
    CellsWritten(cfg, s);
    RowEnds(cfg, s.log, end);
  }

  /** A cell that no write went to is a hole. */
  lemma FinalHole(cfg: Config, s: State, c: nat)
    requires cfg.lnsize > 0 && Inv(cfg, s) && c < |CellsOf(cfg, s.log)|
    requires forall k :: 0 <= k < |s.log| ==> CellOf(cfg, s.order, k) != c
    ensures HoldsHole(cfg, s.file.data, c)
  {
    CellsWritten(cfg, s);
    NeverWritten(cfg, s.log, c);
    CellShown(cfg, CellsOf(cfg, s.log), c);
  }

  /** A write that is not overwritten shows in its cell. */
  lemma FinalLine(cfg: Config, s: State, k: nat, c: nat)
    requires cfg.lnsize > 0 && Inv(cfg, s) && k < |s.log| && CellOf(cfg, s.order, k) == c
    requires forall j :: k < j < |s.log| ==> CellOf(cfg, s.order, j) != c
    ensures HoldsLine(cfg, s.file.data, c, match s.log[k].who case Child => 'c' case Parent => 'p')
  {
    CellsWritten(cfg, s);
    LastWriteWins(cfg, s.log, k);
    CellShown(cfg, CellsOf(cfg, s.log), c);
  }

  /** The first m + 1 calls are those of the process that seeks first, and the next is the other's. */
  predicate Starts(schedule: seq<Writer>, first: Writer, m: nat) {
    m + 1 < |schedule| && schedule[m + 1] == Other(first) && forall i :: 0 <= i <= m ==> schedule[i] == first
  }

  lemma EndOfRun(cfg: Config, schedule: seq<Writer>, first: Writer, m: nat) returns (s: State)
    requires cfg.lnsize > 0 && Exec(cfg, schedule).Some? && Complete(cfg, Exec(cfg, schedule).value)
    requires Starts(schedule, first, m)
    ensures Exec(cfg, schedule) == Some(s) && Logged(cfg, schedule, first, m, s)
  {
    s := Exec(cfg, schedule).value;
    ExecInv(cfg, schedule);
    OrderOfSchedule(cfg, schedule);
    LogOfSchedule(cfg, schedule);
    StartsAs(schedule, first, m, s.order);
  }

  lemma StartsAs(schedule: seq<Writer>, first: Writer, m: nat, order: Order)
    requires Starts(schedule, first, m) && order.Both? && OrderMatches(schedule, order, 0)
    ensures order == Both(first, m)
  {
    assert schedule[0] == first;
    var a, b := schedule[order.early + 1], schedule[m + 1];
    assert a != order.first && b != first;
  }

  /** All lines are written, the first m of them by the process that seeked first. */
  ghost predicate AllLines(cfg: Config, s: State, first: Writer, m: nat) {
    && cfg.lnsize > 0 && cfg.numlines > 0 && m <= cfg.numlines
    && Inv(cfg, s) && s.order == Both(first, m) && |s.log| == 2 * cfg.numlines
  }

  lemma ChildFirstSize(cfg: Config, s: State, m: nat)
    requires AllLines(cfg, s, Child, m)
    ensures |s.file.data| == cfg.Offset(3 * cfg.numlines - m)
    ensures |CellsOf(cfg, s.log)| == 3 * cfg.numlines - m
  {
    FinalSize(cfg, s, 2 * cfg.numlines - 1, 3 * cfg.numlines - m);
  }

  lemma ChildFirstCell(cfg: Config, s: State, m: nat, c: nat)
    requires AllLines(cfg, s, Child, m) && c < 3 * cfg.numlines - m
    ensures var n := cfg.numlines;
      if m <= c < n then HoldsHole(cfg, s.file.data, c)
      else
        var k := if c < m then c else c - n + m;
        HoldsLine(cfg, s.file.data, c, match s.log[k].who case Child => 'c' case Parent => 'p')
  {
    if m <= c < cfg.numlines {
      ChildFirstSize(cfg, s, m);
      FinalHole(cfg, s, c);
    } else {
      FinalLine(cfg, s, if c < m then c else c - cfg.numlines + m, c);
    }
  }

  lemma ParentFirstSize(cfg: Config, s: State, m: nat)
    requires AllLines(cfg, s, Parent, m)
    ensures |s.file.data| == cfg.Offset(cfg.numlines + Max(m, cfg.numlines - m))
  {
    var n := cfg.numlines;
    FinalSize(cfg, s, if m > n - m then m - 1 else 2 * n - 1, n + Max(m, n - m));
  }

  lemma ParentFirstCell(cfg: Config, s: State, m: nat, c: nat)
    requires AllLines(cfg, s, Parent, m) && c < cfg.numlines + Max(m, cfg.numlines - m)
    ensures var k := if c < 2 * cfg.numlines - m then c + m else c - cfg.numlines;
      HoldsLine(cfg, s.file.data, c, match s.log[k].who case Child => 'c' case Parent => 'p')
  {
    FinalLine(cfg, s, if c < 2 * cfg.numlines - m then c + m else c - cfg.numlines, c);
  }

  /** Cell c when the child seeks first and writes m lines before the parent seeks: first m lines of c,
      then numlines - m holes, and then all later lines in the order of the schedule. */
  ghost predicate ChildFirstShows(cfg: Config, schedule: seq<Writer>, m: nat, data: seq<char>, c: nat) {
    var n := cfg.numlines;
    && m <= n && |schedule| == 2 * n + 2
    && (c < m ==> HoldsLine(cfg, data, c, 'c'))
    && (m <= c < n ==> HoldsHole(cfg, data, c))
    && (n <= c < 3 * n - m ==>
          HoldsLine(cfg, data, c, match schedule[c - n + m + 2] case Child => 'c' case Parent => 'p'))
  }

  /** Cell c when the parent seeks first and writes m lines before the child seeks: first all later
      lines in the order of the schedule, and then what is left of the early lines of the parent. */
  ghost predicate ParentFirstShows(cfg: Config, schedule: seq<Writer>, m: nat, data: seq<char>, c: nat) {
    var n := cfg.numlines;
    && m <= n && |schedule| == 2 * n + 2
    && (c < 2 * n - m ==>
          HoldsLine(cfg, data, c, match schedule[c + m + 2] case Child => 'c' case Parent => 'p'))
    && (2 * n - m <= c < n + m ==> HoldsLine(cfg, data, c, 'p'))
  }

  /** The writes of a state are those of a schedule that starts with m lines of one process. */
  ghost predicate Logged(cfg: Config, schedule: seq<Writer>, first: Writer, m: nat, s: State) {
    && m <= cfg.numlines && |schedule| == 2 * cfg.numlines + 2 && |s.log| == 2 * cfg.numlines
    && (cfg.numlines > 0 ==> AllLines(cfg, s, first, m))
    && forall k :: 0 <= k < |s.log| ==> s.log[k].who == if m <= k then schedule[k + 2] else first
  }

  lemma ChildFirstLater(cfg: Config, schedule: seq<Writer>, m: nat, s: State, c: nat)
    requires Logged(cfg, schedule, Child, m, s) && cfg.numlines <= c < 3 * cfg.numlines - m
    ensures HoldsLine(cfg, s.file.data, c,
                      match schedule[c - cfg.numlines + m + 2] case Child => 'c' case Parent => 'p')
  {
    ChildFirstCell(cfg, s, m, c);
    assert s.log[c - cfg.numlines + m].who == schedule[c - cfg.numlines + m + 2];
  }

  lemma ChildFirstEarly(cfg: Config, schedule: seq<Writer>, m: nat, s: State, c: nat)
    requires Logged(cfg, schedule, Child, m, s) && c < cfg.numlines
    ensures if c < m then HoldsLine(cfg, s.file.data, c, 'c') else HoldsHole(cfg, s.file.data, c)
  {
    ChildFirstCell(cfg, s, m, c);
  }

  lemma ParentFirstLater(cfg: Config, schedule: seq<Writer>, m: nat, s: State, c: nat)
    requires Logged(cfg, schedule, Parent, m, s) && c < 2 * cfg.numlines - m
    ensures HoldsLine(cfg, s.file.data, c, match schedule[c + m + 2] case Child => 'c' case Parent => 'p')
  {
    ParentFirstCell(cfg, s, m, c);
    assert s.log[c + m].who == schedule[c + m + 2];
  }

  lemma ParentFirstEarly(cfg: Config, schedule: seq<Writer>, m: nat, s: State, c: nat)
    requires Logged(cfg, schedule, Parent, m, s) && 2 * cfg.numlines - m <= c < cfg.numlines + m
    ensures HoldsLine(cfg, s.file.data, c, 'p')
  {
    ParentFirstCell(cfg, s, m, c);
    assert s.log[c - cfg.numlines].who == Parent;
  }

  /** How long the file of a complete run is. */
  lemma FileSize(cfg: Config, schedule: seq<Writer>, first: Writer, m: nat)
    requires cfg.lnsize > 0 && cfg.numlines > 0
    requires Exec(cfg, schedule).Some? && Complete(cfg, Exec(cfg, schedule).value) && Starts(schedule, first, m)
    ensures m <= cfg.numlines
    ensures |Exec(cfg, schedule).value.file.data|
            == cfg.Offset(if first == Child then 3 * cfg.numlines - m else cfg.numlines + Max(m, cfg.numlines - m))
  {
    var s := EndOfRun(cfg, schedule, first, m);
    if first == Child { ChildFirstSize(cfg, s, m); } else { ParentFirstSize(cfg, s, m); }
  }

  /** The file of a complete run in which the child seeks first, cell by cell. */
  lemma ChildFirstFile(cfg: Config, schedule: seq<Writer>, m: nat, c: nat)
    requires cfg.lnsize > 0 && Exec(cfg, schedule).Some? && Complete(cfg, Exec(cfg, schedule).value)
    requires Starts(schedule, Child, m)
    ensures ChildFirstShows(cfg, schedule, m, Exec(cfg, schedule).value.file.data, c)
  {
    var s := EndOfRun(cfg, schedule, Child, m);
    if c < cfg.numlines {
      ChildFirstEarly(cfg, schedule, m, s, c);
    } else if c < 3 * cfg.numlines - m {
      ChildFirstLater(cfg, schedule, m, s, c);
    }
  }

  /** The file of a complete run in which the parent seeks first, cell by cell. */
  lemma ParentFirstFile(cfg: Config, schedule: seq<Writer>, m: nat, c: nat)
    requires cfg.lnsize > 0 && Exec(cfg, schedule).Some? && Complete(cfg, Exec(cfg, schedule).value)
    requires Starts(schedule, Parent, m)
    ensures ParentFirstShows(cfg, schedule, m, Exec(cfg, schedule).value.file.data, c)
  {
    var s := EndOfRun(cfg, schedule, Parent, m);
    if c < 2 * cfg.numlines - m {
      ParentFirstLater(cfg, schedule, m, s, c);
    } else if c < cfg.numlines + m {
      ParentFirstEarly(cfg, schedule, m, s, c);
    }
  }

  lemma {:induction false} CountFrom(schedule: seq<Writer>, w: Writer, k: nat)
    requires k <= |schedule| && forall i :: 0 <= i < k ==> schedule[i] == w
    ensures Count(schedule, w) >= k
    ensures Count(schedule, w) == k ==> forall i :: k <= i < |schedule| ==> schedule[i] != w
  {
    if k < |schedule| {
      CountFrom(schedule[..|schedule| - 1], w, k);
    } else if k > 0 {
      CountFrom(schedule[..k - 1], w, k - 1);
    }
  }

  ghost predicate AsMeant(cfg: Config, data: seq<char>) {
    && |data| == cfg.Offset(2 * cfg.numlines)
    && (forall c: nat :: c < cfg.numlines ==> HoldsLine(cfg, data, c, 'c'))
    && (forall c: nat :: cfg.numlines <= c < 2 * cfg.numlines ==> HoldsLine(cfg, data, c, 'p'))
  }

  /** The file is as both processes meant it, first the lines of the child and then those of the
      parent, exactly when the child is done before the parent seeks. */
  lemma AsMeantIff(cfg: Config, schedule: seq<Writer>, m: nat)
    requires cfg.lnsize > 0 && cfg.numlines > 0
    requires Exec(cfg, schedule).Some? && Complete(cfg, Exec(cfg, schedule).value) && Starts(schedule, Child, m)
    ensures AsMeant(cfg, Exec(cfg, schedule).value.file.data) <==> m == cfg.numlines
  {
    var data := Exec(cfg, schedule).value.file.data;
    ChildFirstFile(cfg, schedule, m, m);
    FileSize(cfg, schedule, Child, m);
    if m == cfg.numlines {
      ChildDoneFirst(cfg, schedule);
    } else {
      LineIsNoHole(cfg, data, m, 'c');
    }
  }

  lemma ChildDoneFirst(cfg: Config, schedule: seq<Writer>)
    requires cfg.lnsize > 0 && cfg.numlines > 0
    requires Exec(cfg, schedule).Some? && Complete(cfg, Exec(cfg, schedule).value)
    requires Starts(schedule, Child, cfg.numlines)
    ensures AsMeant(cfg, Exec(cfg, schedule).value.file.data)
  {
    var data, n := Exec(cfg, schedule).value.file.data, cfg.numlines;
    assert forall i :: n + 1 <= i < |schedule| ==> schedule[i] == Parent by {
      RunIff(cfg, schedule);
      CountFrom(schedule, Child, n + 1);
      assert CallsMade(Exec(cfg, schedule).value.PcOf(Child)) == n + 1;
    }
    FileSize(cfg, schedule, Child, n);
    forall c: nat | c < n ensures HoldsLine(cfg, data, c, 'c') {
      ChildFirstFile(cfg, schedule, n, c);
    }
    forall c: nat | n <= c < 2 * n ensures HoldsLine(cfg, data, c, 'p') {
      ChildFirstFile(cfg, schedule, n, c);
    }
  }

  lemma LineIsNoHole(cfg: Config, data: seq<char>, c: nat, letter: char)
    requires cfg.lnsize > 0 && HoldsHole(cfg, data, c)
    ensures !HoldsLine(cfg, data, c, letter)
  {
    var at := cfg.Offset(c);
    assert data[at..at + cfg.lnsize][cfg.lnsize - 1] == data[at + cfg.lnsize - 1];
  }

  // ---------- the program of one process ----------

  /** The open file as the kernel updates it. */
  class OpenFile {
    var data: seq<char>
    var pos: nat

    function Contents(): File
      reads this
    {
      File(data, pos)
    }

    method Seek(offset: nat)
      modifies this
      ensures Contents() == Lseek(old(Contents()), offset)
    {
      pos := offset;
    }

    method Append(buf: array<char>)
      modifies this
      ensures Contents() == Write(old(Contents()), buf[..])
    {
      if buf.Length > 0 {
        var file := data + if |data| < pos then seq(pos - |data|, _ => '\0') else [];
        data := file[..pos] + buf[..] + if pos + buf.Length < |file| then file[pos + buf.Length..] else [];
      }
      pos := pos + buf.Length;
    }
  }

  /** The file after k lines of one process with no interference. */
  function Solo(cfg: Config, w: Writer, f: File, k: nat): File {
    if k == 0 then f else Write(Solo(cfg, w, f, k - 1), cfg.Line(w))
  }

  /** calloc, memset and the newline. */
  method FillLine(cfg: Config, whom: Writer) returns (buf: array<char>)
    requires cfg.lnsize > 0
    ensures fresh(buf) && buf[..] == cfg.Line(whom)
    ensures IsLine(buf[..], match whom case Child => 'c' case Parent => 'p')
  {
    var letter := if whom.Child? then 'c' else 'p';
    buf := new char[cfg.lnsize](_ => letter);
    buf[cfg.lnsize - 1] := '\n';
  }

  /** One seek and `numlines` writes, with nobody else at the file. */
  method WorkOnFile(cfg: Config, whom: Writer, fd: OpenFile)
    requires cfg.lnsize > 0
    modifies fd
    ensures fd.Contents()
            == Solo(cfg, whom, Lseek(old(fd.Contents()), cfg.Offset(cfg.FirstCell(whom))), cfg.numlines)
  {
    if whom.Child? {
      fd.Seek(cfg.seekto);
    } else {
      fd.Seek(cfg.seekto + cfg.lnsize * cfg.numlines);
    }
    ghost var start := Lseek(old(fd.Contents()), cfg.Offset(cfg.FirstCell(whom)));
    assert fd.Contents() == start;
    var buf := FillLine(cfg, whom);
    for i := 0 to cfg.numlines
      invariant buf[..] == cfg.Line(whom)
      invariant fd.Contents() == Solo(cfg, whom, start, i)
    {
      fd.Append(buf);
    }
  }

  /** The steps that a schedule gives to one process are the calls that its program makes. */
  lemma {:induction false} SoloSchedule(cfg: Config, w: Writer, k: nat) returns (s: State)
    requires k <= cfg.numlines
    ensures Exec(cfg, seq(k + 1, _ => w)) == Some(s) && s.PcOf(w) == Writing(k) && s.PcOf(Other(w)).Seeking?
    ensures s.file == Solo(cfg, w, File([], cfg.Offset(cfg.FirstCell(w))), k)
  {
    var all, before := seq(k + 1, _ => w), seq(k, _ => w);
    assert all[..k] == before && all[k] == w;
    if k > 0 {
      var s0 := SoloSchedule(cfg, w, k - 1);
      SoloStep(cfg, w, s0, k);
      ExecOneMore(cfg, before, w, all);
      s := Step(cfg, s0, w);
    } else {
      SoloStart(cfg, w, all);
      s := Exec(cfg, all).value;
    }
  }

  lemma SoloStart(cfg: Config, w: Writer, all: seq<Writer>)
    requires all == [w]
    ensures var end := Exec(cfg, all);
      && end.Some? && end.value.PcOf(w) == Writing(0) && end.value.PcOf(Other(w)).Seeking?
      && end.value.file == File([], cfg.Offset(cfg.FirstCell(w)))
  {
    assert all[..0] == [];
  }

  lemma ExecOneMore(cfg: Config, before: seq<Writer>, w: Writer, all: seq<Writer>)
    requires all != [] && all[..|all| - 1] == before && all[|all| - 1] == w
    requires Exec(cfg, before).Some? && Enabled(cfg, Exec(cfg, before).value, w)
    ensures Exec(cfg, all) == Some(Step(cfg, Exec(cfg, before).value, w))
  {
  }

  lemma SoloStep(cfg: Config, w: Writer, s: State, k: nat)
    requires 0 < k <= cfg.numlines && s.PcOf(w) == Writing(k - 1)
    ensures Enabled(cfg, s, w)
    ensures Step(cfg, s, w).PcOf(w) == Writing(k) && Step(cfg, s, w).file == Write(s.file, cfg.Line(w))
    ensures Step(cfg, s, w).PcOf(Other(w)) == s.PcOf(Other(w))
  {
  }

  // ---------- such runs exist ----------

  /** The calls that a process has yet to make. */
  function CallsLeft(cfg: Config, pc: Pc): nat {
    match pc
    case Seeking => cfg.numlines + 1
    case Writing(lines) => if lines < cfg.numlines then cfg.numlines - lines else 0
  }

  /** Any run can go on until both processes are done, and takes the calls that are left. */
  lemma {:induction false} CanFinish(cfg: Config, schedule: seq<Writer>) returns (all: seq<Writer>)
    requires Exec(cfg, schedule).Some?
    ensures schedule <= all && Exec(cfg, all).Some? && Complete(cfg, Exec(cfg, all).value)
    ensures var s := Exec(cfg, schedule).value;
      |all| == |schedule| + CallsLeft(cfg, s.child) + CallsLeft(cfg, s.parent)
    decreases var s := Exec(cfg, schedule).value; CallsLeft(cfg, s.child) + CallsLeft(cfg, s.parent)
  {
    var s := Exec(cfg, schedule).value;
    ExecProgress(cfg, schedule);
    if Complete(cfg, s) {
      all := schedule;
    } else {
      var w := if Enabled(cfg, s, Child) then Child else Parent;
      var more := schedule + [w];
      ExecOneMore(cfg, schedule, w, more);
      all := CanFinish(cfg, more);
    }
  }

  /** For every number m of early lines there is a complete run in which the parent seeks first and
      writes m lines before the child seeks. So every loss up to half of the lines does happen. */
  lemma ParentFirstHappens(cfg: Config, m: nat) returns (schedule: seq<Writer>)
    requires cfg.lnsize > 0 && m <= cfg.numlines
    ensures m + 1 < |schedule| && schedule[m + 1] == Child && forall i :: 0 <= i <= m ==> schedule[i] == Parent
    ensures Exec(cfg, schedule).Some? && Complete(cfg, Exec(cfg, schedule).value)
    ensures |Overwritten(Exec(cfg, schedule).value.log)| == Min(m, cfg.numlines - m)
  {
    var early := seq(m + 1, _ => Parent);
    var s := SoloSchedule(cfg, Parent, m);
    ExecOneMore(cfg, early, Child, early + [Child]);
    schedule := CanFinish(cfg, early + [Child]);
    assert forall i :: 0 <= i <= m + 1 ==> schedule[i] == (early + [Child])[i];
    ParentFirstLoses(cfg, schedule, m);
  }
}
