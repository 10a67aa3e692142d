/** The hex dump: 16 bytes a line, each line filled in place in one reused buffer. */
module HexDump {
  import opened Basics
  import opened Decimal

  const WIDTH: nat := 58 + 16  // columns of a line before its newline

  function HexDigit(d: nat): (c: char)
    requires d < 16
    ensures '0' <= c <= '9' || 'a' <= c <= 'f'
  {
    "0123456789abcdef"[d]
  }

  /** "%02x". */
  function Hex(b: byte): string {
    [HexDigit(b / 16), HexDigit(b % 16)]
  }

  function Ascii(b: byte): char {
    if 31 < b < 127 then b as char else '.'
  }

  /** The seven columns that hold an offset: "+%06d", cut after the seventh character. */
  function Label(v: nat): (s: string)
    ensures |s| == 7
  {
    ("+" + Pad(Text(v), 6, '0'))[..7]
  }

  /** Column c of the line that shows `bytes`, the first of which is at offset v. */
  function Column(bytes: seq<byte>, v: nat, c: nat): char
    requires |bytes| <= 16
  {
    if c < 7 then Label(v)[c]
    else if 8 <= c < 56 && (c - 8) / 3 < |bytes| && (c - 8) % 3 < 2 then Hex(bytes[(c - 8) / 3])[(c - 8) % 3]
    else if 58 <= c < 58 + |bytes| then Ascii(bytes[c - 58])
    else ' '
  }

  function Line(bytes: seq<byte>, v: nat): (s: string)
    requires |bytes| <= 16
    ensures |s| == WIDTH + 1
  {
    seq(WIDTH, c requires 0 <= c => Column(bytes, v, c)) + "\n"
  }

  /** The bytes of line k. */
  function Slice(data: seq<byte>, k: nat): (bytes: seq<byte>)
    requires 16 * k < |data|
    ensures |bytes| == Min(16, |data| - 16 * k)
  {
    data[16 * k..Min(16 * k + 16, |data|)]
  }

  function Dump(data: seq<byte>, offset: nat): seq<string> {
    seq((|data| + 15) / 16, k requires 0 <= k < (|data| + 15) / 16 => Line(Slice(data, k), offset + 16 * k))
  }

  // ---------- the loop ----------

  lemma ColumnOneMore(bytes: seq<byte>, b: byte, v: nat, c: nat)
    requires |bytes| < 16
    ensures var n := |bytes|;
      Column(bytes + [b], v, c)
      == if c == 8 + 3 * n then Hex(b)[0] else if c == 9 + 3 * n then Hex(b)[1]
         else if c == 58 + n then Ascii(b) else Column(bytes, v, c)
  {
  }

  method FreshLine(buffer: array<char>, v: nat)
    requires buffer.Length == 128 && buffer[WIDTH] == '\n'
    modifies buffer
    ensures buffer[..WIDTH + 1] == Line([], v) && buffer[WIDTH + 1..] == old(buffer[WIDTH + 1..])
  {
    var temp := "+" + Pad(Text(v), 6, '0');
    forall c | 0 <= c < WIDTH { buffer[c] := ' '; }
    forall c | 0 <= c < 7 { buffer[c] := temp[c]; }
  }

  method PutByte(buffer: array<char>, j: nat, b: byte, ghost bytes: seq<byte>, ghost v: nat)
    requires buffer.Length == 128 && j == |bytes| < 16 && buffer[..WIDTH + 1] == Line(bytes, v)
    modifies buffer
    ensures buffer[..WIDTH + 1] == Line(bytes + [b], v) && buffer[WIDTH + 1..] == old(buffer[WIDTH + 1..])
  {
    var temp := Hex(b);
    buffer[8 + j * 3] := temp[0];
    buffer[8 + j * 3 + 1] := temp[1];
    buffer[58 + j] := Ascii(b);
    forall c | 0 <= c < WIDTH ensures buffer[c] == Column(bytes + [b], v, c) {
      ColumnOneMore(bytes, b, v, c);
      assert old(buffer[..WIDTH + 1])[c] == Column(bytes, v, c);
    }
    assert old(buffer[..WIDTH + 1])[WIDTH] == '\n';
  }

  /** The part of the loop body that shows one byte; `from` is the first byte of the line. */
  method FillColumn(buffer: array<char>, j: nat, data: seq<byte>, i: nat, ghost from: nat, ghost offset: nat)
    requires buffer.Length == 128 && i < |data| && i == from + j && j < 16
    requires buffer[..WIDTH + 1] == Line(data[from..i], offset + from)
    modifies buffer
    ensures buffer[..WIDTH + 1] == Line(data[from..i + 1], offset + from)
    ensures buffer[WIDTH + 1..] == old(buffer[WIDTH + 1..])
  {
    PutByte(buffer, j, data[i], data[from..i], offset + from);
    assert data[from..i + 1] == data[from..i] + [data[i]];
  }

  /** What the loop of hex_dump keeps: full lines printed, and the line being filled in the buffer,
      complete with newline and NUL. */
  ghost predicate Filling(buffer: array<char>, data: seq<byte>, offset: nat, i: nat, j: nat,
                          from: nat, out: seq<string>)
    reads buffer
  {
    && buffer.Length == 128 && i <= |data| && j <= 16 && i == from + j && from == 16 * |out|
    && out == Dump(data[..from], offset)
    && buffer[..WIDTH + 1] == Line(data[from..i], offset + from) && buffer[WIDTH + 1] == '\0'
  }

  /** One round of the loop. */
  method ShowByte(buffer: array<char>, data: seq<byte>, offset: nat, i: nat, j: nat, ghost from: nat, out: seq<string>)
    returns (j': nat, ghost from': nat, out': seq<string>)
    requires Filling(buffer, data, offset, i, j, from, out) && i < |data|
    modifies buffer
    ensures Filling(buffer, data, offset, i + 1, j', from', out') && j' > 0
  {
    j', from', out' := j, from, out;
    if j' == 16 {
      out' := Flush(buffer, data, offset, i, j, from, out);
      FreshLine(buffer, i + offset);
      j', from' := 0, i;
      assert data[i..i] == [];
    }
    FillColumn(buffer, j', data, i, from', offset);
    j' := j' + 1;
  }

  /** Printing the line that is being filled. */
  method Flush(buffer: array<char>, data: seq<byte>, offset: nat, i: nat, j: nat, ghost from: nat, out: seq<string>)
    returns (out': seq<string>)
    requires Filling(buffer, data, offset, i, j, from, out) && j > 0
    ensures out' == Dump(data[..i], offset) && |out'| == |out| + 1
  {
    LastLine(data, i, |out|, offset);
    out' := out + [buffer[..WIDTH + 1]];
  }

  /** hex_dump, returning the lines it prints after the ruler. */
  method PrintDump(data: seq<byte>, offset: nat, size: int) returns (out: seq<string>)
    requires size <= |data|
    ensures out == Dump(data[..if size < 0 then 0 else size], offset)
  {
    var buffer := new char[128](_ => '\0');
    buffer[WIDTH] := '\n';
    FreshLine(buffer, offset);
    out := [];
    ghost var from: nat := 0;  // first byte of the line being filled
    var i, j: nat := 0, 0;
    assert data[0..0] == [];
    while i < size
      invariant Filling(buffer, data, offset, i, j, from, out)
      invariant (i <= size || i == 0) && (j == 0 ==> i == 0)
    {
      j, from, out := ShowByte(buffer, data, offset, i, j, from, out);
      i := i + 1;
    }
    if j != 0 {
      out := Flush(buffer, data, offset, i, j, from, out);
    }
  }

  lemma LastLine(data: seq<byte>, i: nat, k: nat, offset: nat)
    requires 16 * k < i <= 16 * k + 16 && i <= |data|
    ensures Dump(data[..i], offset) == Dump(data[..16 * k], offset) + [Line(data[16 * k..i], offset + 16 * k)]
  {
    forall m: nat | m < k ensures Slice(data[..i], m) == Slice(data[..16 * k], m) {
    }
    assert Slice(data[..i], k) == data[16 * k..i];
  }

  // ---------- reading a dump back ----------

  function HexValue(c: char): Option<nat> {
    if '0' <= c <= '9' then Some(c as int - '0' as int)
    else if 'a' <= c <= 'f' then Some(c as int - 'a' as int + 10)
    else None
  }

  /** The bytes in the hex columns of a line, from the j-th column on, up to the first blank one. */
  function ReadLine(line: string, j: nat): seq<int>
    requires |line| == WIDTH + 1
    decreases |line| - j
  {
    if j >= 16 then []
    else
      var hi, lo := HexValue(line[8 + 3 * j]), HexValue(line[9 + 3 * j]);
      if hi.None? || lo.None? then [] else [16 * hi.value + lo.value] + ReadLine(line, j + 1)
  }

  function Concat(chunks: seq<seq<int>>): seq<int> {
    if chunks == [] then [] else Concat(chunks[..|chunks| - 1]) + chunks[|chunks| - 1]
  }

  function ReadDump(lines: seq<string>): seq<int>
    requires forall k :: 0 <= k < |lines| ==> |lines[k]| == WIDTH + 1
  {
    Concat(seq(|lines|, k requires 0 <= k < |lines| => ReadLine(lines[k], 0)))
  }

  lemma HexReadsBack(d: nat)
    requires d < 16
    ensures HexValue(HexDigit(d)) == Some(d)
  {
  }

  /** The hex columns of a line show these bytes, and the next one is blank. */
  ghost predicate ShowsHex(line: string, bytes: seq<byte>) {
    && |line| == WIDTH + 1 && |bytes| <= 16
    && (forall j :: 0 <= j < |bytes| ==>
          line[8 + 3 * j] == HexDigit(bytes[j] / 16) && line[9 + 3 * j] == HexDigit(bytes[j] % 16))
    && (|bytes| < 16 ==> line[8 + 3 * |bytes|] == ' ')
  }

  lemma HexColumns(bytes: seq<byte>, v: nat, j: nat)
    requires |bytes| <= 16 && j < |bytes|
    ensures Column(bytes, v, 8 + 3 * j) == HexDigit(bytes[j] / 16)
    ensures Column(bytes, v, 9 + 3 * j) == HexDigit(bytes[j] % 16)
  {
  }

  lemma LineShowsHex(bytes: seq<byte>, v: nat)
    requires |bytes| <= 16
    ensures ShowsHex(Line(bytes, v), bytes)
  {
    var line := Line(bytes, v);
    assert forall c :: 0 <= c < WIDTH ==> line[c] == Column(bytes, v, c);
    forall j | 0 <= j < |bytes|
      ensures line[8 + 3 * j] == HexDigit(bytes[j] / 16) && line[9 + 3 * j] == HexDigit(bytes[j] % 16)
    {
      HexColumns(bytes, v, j);
    }
  }

  lemma {:induction false} LineReadsBack(line: string, bytes: seq<byte>, j: nat)
    requires ShowsHex(line, bytes) && j <= |bytes|
    ensures ReadLine(line, j) == bytes[j..]
    decreases 16 - j
  {
    if j < |bytes| {
      HexReadsBack(bytes[j] / 16);
      HexReadsBack(bytes[j] % 16);
      LineReadsBack(line, bytes, j + 1);
      assert bytes[j..] == [bytes[j]] + bytes[j + 1..];
    }
  }

  lemma {:induction false} ChunksJoin(chunks: seq<seq<int>>, data: seq<int>)
    requires |chunks| == (|data| + 15) / 16
    requires forall k :: 0 <= k < |chunks| ==> chunks[k] == data[16 * k..Min(16 * k + 16, |data|)]
    ensures Concat(chunks) == data
    decreases |chunks|
  {
    if chunks != [] {
      var last := 16 * (|chunks| - 1);
      ChunksJoin(chunks[..|chunks| - 1], data[..last]);
      assert data == data[..last] + data[last..];
    }
  }

  /** The hex columns of a dump read back as the dumped bytes, in order. */
  lemma DumpReadsBack(data: seq<byte>, offset: nat)
    ensures ReadDump(Dump(data, offset)) == data
  {
    var lines := Dump(data, offset);
    var chunks := seq(|lines|, k requires 0 <= k < |lines| => ReadLine(lines[k], 0));
    forall k: nat | k < |lines| ensures chunks[k] == Slice(data, k) {
      LineShowsHex(Slice(data, k), offset + 16 * k);
      LineReadsBack(lines[k], Slice(data, k), 0);
    }
    ChunksJoin(chunks, data);
  }

  /** The label reads back as the offset exactly when the offset has at most six digits. */
  lemma LabelReadsBack(v: nat)
    ensures Label(v)[0] == '+' && AllDigits(Label(v)[1..])
    ensures Value(Label(v)[1..]) == v <==> v < 1000000
  {
    PaddedReadsBack(v, 6);
    TextLength(v, 6);
    SixDigits();
    var padded := Pad(Text(v), 6, '0');
    assert Label(v)[1..] == padded[..6];
    if |Text(v)| <= 6 {
      assert padded[..6] == padded;
    } else {
      ValueBound(padded[..6]);
    }
  }

  lemma SixDigits()
    ensures Pow10(6) == 1000000
  {
    assert Pow10(4) == 10000;
    assert Pow10(2) == 100;
  }

  /** Line k of a dump: its label is the offset of its first byte as long as that has six digits, its
      text columns show its bytes, its unused columns are blank, and it ends with a newline. */
  lemma LineOfDump(data: seq<byte>, offset: nat, k: nat)
    requires k < (|data| + 15) / 16
    ensures var line, used := Dump(data, offset)[k], Min(16, |data| - 16 * k);
      && line[0] == '+' && AllDigits(line[1..7])
      && (Value(line[1..7]) == offset + 16 * k <==> offset + 16 * k < 1000000)
      && (forall j :: used <= j < 16 ==> line[8 + 3 * j] == line[9 + 3 * j] == line[58 + j] == ' ')
      && (forall j :: 0 <= j < 16 ==> line[10 + 3 * j] == ' ')
      && (forall c :: 58 <= c < 58 + used ==>
            var d := data[16 * k + (c - 58)];
            if 31 < d < 127 then line[c] as int == d else line[c] == '.')
      && line[7] == line[56] == line[57] == ' ' && line[WIDTH] == '\n'
  {
    LineColumns(Slice(data, k), offset + 16 * k);
    LabelReadsBack(offset + 16 * k);
  }

  lemma LineColumns(bytes: seq<byte>, v: nat)
    requires |bytes| <= 16
    ensures var line := Line(bytes, v);
      && line[0] == Label(v)[0] && line[1..7] == Label(v)[1..]
      && (forall j :: |bytes| <= j < 16 ==> line[8 + 3 * j] == line[9 + 3 * j] == line[58 + j] == ' ')
      && (forall j :: 0 <= j < 16 ==> line[10 + 3 * j] == ' ')
      && (forall c :: 58 <= c < 58 + |bytes| ==> line[c] == Ascii(bytes[c - 58]))
      && line[7] == line[56] == line[57] == ' ' && line[WIDTH] == '\n'
  {
    var line := Line(bytes, v);
    assert forall c :: 0 <= c < WIDTH ==> line[c] == Column(bytes, v, c);
    assert line[1..7] == Label(v)[1..];
    forall j | |bytes| <= j < 16 ensures line[8 + 3 * j] == line[9 + 3 * j] == line[58 + j] == ' ' {
      BlankColumns(bytes, v, j);
    }
    forall j | 0 <= j < 16 ensures line[10 + 3 * j] == ' ' {
      BlankColumns(bytes, v, j);
    }
  }

  lemma BlankColumns(bytes: seq<byte>, v: nat, j: nat)
    requires |bytes| <= 16 && j < 16
    ensures Column(bytes, v, 10 + 3 * j) == ' '
    ensures |bytes| <= j ==>
              Column(bytes, v, 8 + 3 * j) == Column(bytes, v, 9 + 3 * j) == Column(bytes, v, 58 + j) == ' '
  {
  }

  lemma ColumnNotNul(bytes: seq<byte>, v: nat, c: nat)
    requires |bytes| <= 16
    ensures Column(bytes, v, c) != '\0'
  {
    if c < 7 {
      LabelReadsBack(v);
      if c > 0 { assert IsDigit(Label(v)[1..][c - 1]); }
    }
  }

  /** No line holds a NUL, so printing the buffer as a string prints all of it. */
  lemma NoNulInLine(bytes: seq<byte>, v: nat, c: nat)
    requires |bytes| <= 16 && c <= WIDTH
    ensures Line(bytes, v)[c] != '\0'
  {
    if c < WIDTH { ColumnNotNul(bytes, v, c); }
  }
}
