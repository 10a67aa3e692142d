/** The prime generators: trial division where every candidate is tried with the divisors below half
    of the upper limit, and not below half of the candidate. */
module Primes {
  import opened Basics
  import opened CStrings
  import opened Decimal

  const MEM_SIZE: nat := 100000

  ghost predicate IsPrime(n: nat) {
    n >= 2 && forall d :: 2 <= d < n ==> n % d != 0
  }

  /** What the inner loop decides from divisor j on. */
  predicate PassesFrom(j: nat, i: nat, limit: nat)
    requires j > 0
    decreases limit / 2 - j
  {
    j < limit / 2 ==> (i == j || i % j != 0) && PassesFrom(j + 1, i, limit)
  }

  predicate Passes(i: nat, limit: nat) {
    PassesFrom(2, i, limit)
  }

  /** A candidate passes when it has no divisor from j up to half of the limit but itself. */
  lemma {:induction false} PassesMeans(j: nat, i: nat, limit: nat)
    requires j > 0
    ensures PassesFrom(j, i, limit) <==> forall d :: j <= d < limit / 2 && d != i ==> i % d != 0
    decreases limit / 2 - j
  {
    if j < limit / 2 { PassesMeans(j + 1, i, limit); }
  }

  /** The numbers of [start, end) that the generators list for a limit, in ascending order. */
  function Listed(start: nat, end: nat, limit: nat): seq<nat> {
    if end <= start then []
    else Listed(start, end - 1, limit) + if Passes(end - 1, limit) then [end - 1] else []
  }

  ghost function PrimesIn(start: nat, end: nat): seq<nat> {
    if end <= start then []
    else PrimesIn(start, end - 1) + if IsPrime(end - 1) then [end - 1] else []
  }

  // ---------- which limits are right ----------

  lemma SmallDivisor(i: nat, d: nat, limit: nat)
    requires 2 <= d < i <= limit && i % d == 0 && limit >= 6
    ensures !Passes(i, limit)
  {
    var e := i / d;
    assert i == d * e;
    MulLe(d, Min(e, 1), 1);
    assert e >= 2;
    var m := if d <= e then d else e;
    assert i % e == 0 && e < i by { MulMod(d, e); }
    if m > 2 { assert 3 * m <= i by { ThreeTimes(d, e); } }
    assert 2 <= m < limit / 2 && i != m && i % m == 0;
    PassesMeans(2, i, limit);
  }

  lemma MulMod(d: nat, e: nat)
    requires d >= 2 && e >= 2
    ensures (d * e) % e == 0 && e < d * e
  {
    var x := d * e;
    assert x == e * d + 0;
    assert x / e == d by { DivMod(x, e, d); }
  }

  lemma FourIsNotPrime()
    ensures !IsPrime(4)
  {
    assert 4 % 2 == 0;
  }

  lemma ThreeTimes(d: nat, e: nat)
    requires d >= 3 && e >= 3
    ensures 3 * (if d <= e then d else e) <= d * e
  {
    if d <= e { assert d * 3 <= d * e; } else { assert 3 * e <= d * e; }
  }

  lemma PrimePasses(i: nat, limit: nat)
    requires IsPrime(i)
    ensures Passes(i, limit)
  {
    PassesMeans(2, i, limit);
  }

  lemma PassesIffPrime(i: nat, limit: nat)
    requires 2 <= i <= limit
    ensures (Passes(i, limit) <==> IsPrime(i)) <==> !(i == 4 && limit < 6)
  {
    FourIsNotPrime();
    if IsPrime(i) {
      PrimePasses(i, limit);
    } else {
      var d :| 2 <= d < i && i % d == 0;
      if limit >= 6 { SmallDivisor(i, d, limit); }
    }
  }

  lemma {:induction false} ListedPrimes(start: nat, end: nat, limit: nat)
    requires forall i :: start <= i < end ==> (Passes(i, limit) <==> IsPrime(i))
    ensures Listed(start, end, limit) == PrimesIn(start, end)
  {
    if start < end { ListedPrimes(start, end - 1, limit); }
  }

  lemma {:induction false} ListedMembers(start: nat, end: nat, limit: nat, i: nat)
    ensures i in Listed(start, end, limit) <==> start <= i < end && Passes(i, limit)
  {
    if start < end { ListedMembers(start, end - 1, limit, i); }
  }

  /** The reference list holds exactly the primes of the range, in ascending order. */
  lemma {:induction false} PrimesInIsRight(start: nat, end: nat)
    ensures forall i: nat :: i in PrimesIn(start, end) <==> start <= i < end && IsPrime(i)
    ensures forall a, b :: 0 <= a < b < |PrimesIn(start, end)| ==> PrimesIn(start, end)[a] < PrimesIn(start, end)[b]
  {
    if start < end {
      PrimesInIsRight(start, end - 1);
      var before, all := PrimesIn(start, end - 1), PrimesIn(start, end);
      forall a, b | 0 <= a < b < |all| ensures all[a] < all[b] {
        assert all[a] == before[a] && before[a] in before;
        if b < |before| { assert all[b] == before[b]; } else { assert all[b] == end - 1; }
      }
    }
  }

  /** The range generator lists exactly the primes of [start, limit], except when the range contains
      0 or 1, or when it contains 4 and the limit is below 6. */
  lemma RangeRightIff(start: nat, limit: nat)
    requires start <= limit
    ensures Listed(start, limit + 1, limit) == PrimesIn(start, limit + 1)
            <==> start >= 2 && !(start <= 4 <= limit < 6)
  {
    if start >= 2 && !(start <= 4 <= limit < 6) {
      forall i | start <= i < limit + 1 ensures Passes(i, limit) <==> IsPrime(i) {
        PassesIffPrime(i, limit);
      }
      ListedPrimes(start, limit + 1, limit);
    } else {
      // a number that is listed, or left out, wrongly
      var wrong: nat := if start >= 2 then 4 else if limit == 0 then 0 else 1;
      if start >= 2 { PassesIffPrime(4, limit); } else { PassesMeans(2, wrong, limit); }
      PrimesInIsRight(start, limit + 1);
      ListedMembers(start, limit + 1, limit, wrong);
      assert wrong in Listed(start, limit + 1, limit) && wrong !in PrimesIn(start, limit + 1);
    }
  }

  // ---------- the range generator ----------

  /** "%6d, ". */
  function Item(i: nat): string {
    Pad(Text(i), 6, ' ') + ", "
  }

  function Render(list: seq<nat>): string {
    if list == [] then "" else Render(list[..|list| - 1]) + Item(list[|list| - 1])
  }

  // ---------- reading the text back ----------

  predicate NotDigit(c: char) { !IsDigit(c) }

  /** The numbers in a text. */
  function ReadNumbers(s: string): seq<nat>
    decreases |s|
  {
    var t := s[Span(s, NotDigit)..];
    var n := Span(t, IsDigit);
    if n == 0 then [] else [Value(t[..n])] + ReadNumbers(t[n..])
  }

  lemma SkipsText(gap: string, rest: string)
    requires forall i :: 0 <= i < |gap| ==> NotDigit(gap[i])
    ensures ReadNumbers(gap + rest) == ReadNumbers(rest)
  {
    SpanOver(gap, rest, NotDigit);
    assert (gap + rest)[|gap| + Span(rest, NotDigit)..] == rest[Span(rest, NotDigit)..];
  }

  lemma ReadsOne(digits: string, rest: string)
    requires digits != "" && AllDigits(digits) && (rest != "" ==> NotDigit(rest[0]))
    ensures ReadNumbers(digits + rest) == [Value(digits)] + ReadNumbers(rest)
  {
    var s := digits + rest;
    assert Span(s, NotDigit) == 0 && s[0..] == s;
    SpanIs(digits, rest, IsDigit);
    assert s[..|digits|] == digits && s[|digits|..] == rest;
  }

  lemma ReadsItem(digits: string, gap: string, rest: string)
    requires digits != "" && AllDigits(digits)
    requires gap != "" && forall i :: 0 <= i < |gap| ==> NotDigit(gap[i])
    ensures ReadNumbers(digits + (gap + rest)) == [Value(digits)] + ReadNumbers(rest)
  {
    ReadsOne(digits, gap + rest);
    SkipsText(gap, rest);
  }

  lemma ReadsPadded(before: string, digits: string, after: string, rest: string)
    requires forall i :: 0 <= i < |before| ==> NotDigit(before[i])
    requires digits != "" && AllDigits(digits)
    requires after != "" && forall i :: 0 <= i < |after| ==> NotDigit(after[i])
    ensures ReadNumbers(before + (digits + (after + rest))) == [Value(digits)] + ReadNumbers(rest)
  {
    ReadsItem(digits, after, rest);
    SkipsText(before, digits + (after + rest));
  }

  /** An item is the number in decimal, right-aligned in six columns, then a comma and a space. */
  lemma ItemMeans(i: nat)
    ensures var digits, width := Text(i), |Item(i)| - 2;
      && AllDigits(digits) && Value(digits) == i && digits != ""
      && width == Max(6, |digits|) && Item(i)[width..] == ", "
      && Item(i)[width - |digits|..width] == digits
      && forall c :: 0 <= c < width - |digits| ==> Item(i)[c] == ' '
  {
    TextReadsBack(i);
  }

  lemma ItemReads(i: nat, rest: string)
    ensures ReadNumbers(Item(i) + rest) == [i] + ReadNumbers(rest)
  {
    TextReadsBack(i);
    var digits := Text(i);
    var gap := if |digits| < 6 then Repeat(' ', 6 - |digits|) else "";
    assert Item(i) + rest == gap + (digits + (", " + rest));
    ReadsPadded(gap, digits, ", ", rest);
  }

  /** Any reader that reads one item reads a list of them. */
  lemma {:induction false} ReadsList(read: string -> seq<nat>, list: seq<nat>, rest: string)
    requires forall i: nat, more: string :: read(Item(i) + more) == [i] + read(more)
    ensures read(Render(list) + rest) == list + read(rest)
  {
    if list == [] {
      assert Render(list) + rest == rest;
    } else {
      var front, i := list[..|list| - 1], list[|list| - 1];
      ReadsList(read, front, Item(i) + rest);
      Assoc(Render(front), Item(i), rest);
      Assoc(front, [i], read(rest));
      assert list == front + [i];
    }
  }

  /** Numbers that are printed one after the other read back as they are. */
  lemma RenderReadsBack(list: seq<nat>)
    ensures ReadNumbers(Render(list)) == list
  {
    forall i: nat, more: string ensures ReadNumbers(Item(i) + more) == [i] + ReadNumbers(more) {
      ItemReads(i, more);
    }
    ReadsList(ReadNumbers, list, "");
    assert Render(list) + "" == Render(list);
  }

  /** The inner loop. */
  method TryDivisors(i: nat, limit: nat) returns (isprime: bool)
    ensures isprime == Passes(i, limit)
  {
    isprime := true;
    var j := 2;
    while j < limit / 2
      invariant 2 <= j && isprime && PassesFrom(j, i, limit) == Passes(i, limit)
    {
      if i != j && i % j == 0 {
        isprime := false;
        break;
      }
      j := j + 1;
    }
  }

  /** simple_primegen over a range. The buffer must have room for the text, which the code does not
      check; numbers that "%6d" prints with a sign are excluded. */
  method SimplePrimegen(start: nat, limit: nat, buf: array<char>) returns (numPrimes: nat)
    requires start <= limit <= INT_MAX
    requires |CString(buf[..])| + |Render(Listed(start, limit + 1, limit))| < buf.Length
    modifies buf
    ensures numPrimes == |Listed(start, limit + 1, limit)|
    ensures CString(buf[..]) == old(CString(buf[..])) + Render(Listed(start, limit + 1, limit))
  {
    numPrimes := 0;
    ghost var before, all := CString(buf[..]), Listed(start, limit + 1, limit);
    ghost var list := [];
    var i := start;
    NothingYet(buf, before, start, limit);
    while i <= limit
      invariant i <= limit + 1 && Progress(buf, before, start, i, limit, list) && numPrimes == |list|
    {
      var isprime;
      isprime, list := TryCandidate(start, i, limit, buf, before, list, all);
      if isprime {
        numPrimes := numPrimes + 1;
      }
      i := i + 1;
    }
  }

  /** What the outer loop keeps: the numbers below i that pass have been appended. */
  ghost predicate Progress(buf: array<char>, before: string, start: nat, i: nat, limit: nat, list: seq<nat>)
    reads buf
  {
    && start <= i && list == Listed(start, i, limit)
    && CString(buf[..]) == before + Render(list)
  }

  lemma NothingYet(buf: array<char>, before: string, start: nat, limit: nat)
    requires CString(buf[..]) == before
    ensures Progress(buf, before, start, start, limit, [])
  {
    assert before + Render([]) == before;
  }

  /** One round of the outer loop: the inner loop, and the number's text if it passes. */
  method TryCandidate(ghost start: nat, i: nat, limit: nat, buf: array<char>,
                      ghost before: string, ghost list: seq<nat>, ghost all: seq<nat>)
    returns (isprime: bool, ghost grown: seq<nat>)
    requires i <= limit && Progress(buf, before, start, i, limit, list)
    requires all == Listed(start, limit + 1, limit) && |before| + |Render(all)| < buf.Length
    modifies buf
    ensures Progress(buf, before, start, i + 1, limit, grown) && |grown| == |list| + if isprime then 1 else 0
  {
    isprime := TryDivisors(i, limit);
    ListedStep(start, i, limit);
    grown := list;
    if isprime {
      ItemHasRoom(start, i, limit, list);
      AppendItem(buf, i, before, Render(list));
      grown := list + [i];
    }
  }

  /** snprintf and strncat of one number. */
  method AppendItem(buf: array<char>, i: nat, ghost before: string, ghost text: string)
    requires CString(buf[..]) == before + text && |before + text| + |Item(i)| < buf.Length
    modifies buf
    ensures CString(buf[..]) == before + (text + Item(i))
  {
    ItemNulFree(i);
    Append(buf, Item(i));
    assert before + (text + Item(i)) == before + text + Item(i);
  }

  lemma ItemHasRoom(start: nat, i: nat, limit: nat, list: seq<nat>)
    requires start <= i <= limit && Passes(i, limit) && list == Listed(start, i, limit)
    ensures Render(list + [i]) == Render(list) + Item(i)
    ensures |Render(list)| + |Item(i)| <= |Render(Listed(start, limit + 1, limit))|
  {
    ListedStep(start, i, limit);
    RenderOneMore(list, i);
    RenderGrows(start, i + 1, limit + 1, limit);
  }

  lemma ListedStep(start: nat, i: nat, limit: nat)
    requires start <= i
    ensures Listed(start, i + 1, limit) == Listed(start, i, limit) + if Passes(i, limit) then [i] else []
  {
  }

  lemma RenderOneMore(list: seq<nat>, i: nat)
    ensures Render(list + [i]) == Render(list) + Item(i)
  {
    assert (list + [i])[..|list|] == list;
  }

  lemma {:induction false} RenderGrows(start: nat, i: nat, end: nat, limit: nat)
    requires start <= i <= end
    ensures |Render(Listed(start, i, limit))| <= |Render(Listed(start, end, limit))|
  {
    if i < end {
      RenderGrows(start, i, end - 1, limit);
      var list := Listed(start, end - 1, limit);
      ListedStep(start, end - 1, limit);
      RenderOneMore(list, end - 1);
      assert list + [] == list;
    }
  }

  lemma ItemNulFree(i: nat)
    ensures NulFree(Item(i))
  {
    TextReadsBack(i);
    forall k | 0 <= k < |Text(i)| ensures NotNul(Text(i)[k]) { assert IsDigit(Text(i)[k]); }
  }

  lemma {:induction false} RenderLength(list: seq<nat>)
    requires forall k :: 0 <= k < |list| ==> list[k] < 1000000
    ensures |Render(list)| == 8 * |list|
  {
    if list != [] {
      RenderLength(list[..|list| - 1]);
      TextLength(list[|list| - 1], 6);
      assert Pow10(6) == 1000000 by { assert Pow10(4) == 10000; assert Pow10(2) == 100; }
    }
  }

  lemma {:induction false} ListedSize(start: nat, end: nat, limit: nat)
    requires start <= end
    ensures |Listed(start, end, limit)| <= end - start
    ensures forall k :: 0 <= k < |Listed(start, end, limit)| ==> Listed(start, end, limit)[k] < end
  {
    if start < end { ListedSize(start, end - 1, limit); }
  }

  /** Below a million every number listed takes 8 characters. So the buffer of MEM_SIZE bytes holds a
      result with its NUL exactly when at most 12,499 numbers are listed; a range of at most 12,499
      numbers always fits. (The source's note guesses room for about 25,000 primes.) */
  lemma FitsIff(start: nat, limit: nat)
    requires start <= limit < 1000000
    ensures var list := Listed(start, limit + 1, limit);
      && |Render(list)| == 8 * |list|
      && (|Render(list)| + 1 <= MEM_SIZE <==> |list| <= 12499)
      && (limit - start + 1 <= 12499 ==> |Render(list)| + 1 <= MEM_SIZE)
  {
    ListedSize(start, limit + 1, limit);
    RenderLength(Listed(start, limit + 1, limit));
  }

  // ---------- the single-limit generator ----------

  const WRAP: nat := 16

  function Flatten(lines: seq<seq<nat>>): seq<nat> {
    if lines == [] then [] else Flatten(lines[..|lines| - 1]) + lines[|lines| - 1]
  }

  lemma FlattenOneMore(lines: seq<seq<nat>>, line: seq<nat>)
    ensures Flatten(lines + [line]) == Flatten(lines) + line
  {
    assert (lines + [line])[..|lines|] == lines;
  }

  /** The numbers stand WRAP to a line; only the last line, still without a newline, may be shorter,
      and even empty. */
  ghost predicate Wrapped(nums: seq<nat>, lines: seq<seq<nat>>, last: seq<nat>) {
    && nums == Flatten(lines) + last && |nums| == WRAP * |lines| + |last|
    && (forall k :: 0 <= k < |lines| ==> |lines[k]| == WRAP) && |last| < WRAP
    && (lines == [] ==> |last| >= 2)
  }

  const HEADER: string := "  2,  3, "

  /** The text of the lines so far. The first two numbers stand in a fixed text. */
  function PrintedText(header: string, lines: seq<seq<nat>>, last: seq<nat>): string
    requires if lines == [] then |last| >= 2 else |lines[0]| >= 2
  {
    if lines == [] then header + Render(last[2..])
    else PrintedText(header, lines[..|lines| - 1], lines[|lines| - 1]) + "\n" + Render(last)
  }

  lemma WrappedOneMore(nums: seq<nat>, lines: seq<seq<nat>>, last: seq<nat>, i: nat)
    requires Wrapped(nums, lines, last)
    ensures if (|nums| + 1) % WRAP == 0 then Wrapped(nums + [i], lines + [last + [i]], [])
            else Wrapped(nums + [i], lines, last + [i])
  {
    FlattenOneMore(lines, last + [i]);
    Assoc(Flatten(lines), last, [i]);
    assert Flatten(lines) + (last + [i]) + [] == Flatten(lines) + (last + [i]);
  }

  lemma TextOneMore(header: string, lines: seq<seq<nat>>, last: seq<nat>, i: nat)
    requires if lines == [] then |last| >= 2 else |lines[0]| >= 2
    ensures PrintedText(header, lines, last + [i]) == PrintedText(header, lines, last) + Item(i)
  {
    if lines == [] {
      assert (last + [i])[2..] == last[2..] + [i];
      RenderOneMore(last[2..], i);
      Assoc(header, Render(last[2..]), Item(i));
    } else {
      RenderOneMore(last, i);
      Assoc(PrintedText(header, lines[..|lines| - 1], lines[|lines| - 1]) + "\n", Render(last), Item(i));
    }
  }

  lemma TextLineEnd(header: string, lines: seq<seq<nat>>, line: seq<nat>)
    requires if lines == [] then |line| >= 2 else |lines[0]| >= 2
    ensures PrintedText(header, lines + [line], []) == PrintedText(header, lines, line) + "\n"
  {
    assert (lines + [line])[..|lines|] == lines;
    assert PrintedText(header, lines, line) + "\n" + Render([]) == PrintedText(header, lines, line) + "\n";
  }

  lemma Assoc<T>(a: seq<T>, b: seq<T>, c: seq<T>)
    ensures a + b + c == a + (b + c)
  {
  }

  /** Printing one more number, the num-th. */
  function Print(out: string, i: nat, num: nat): string {
    if num % WRAP == 0 then out + Item(i) + "\n" else out + Item(i)
  }

  lemma NextNumber(nums: seq<nat>, lines: seq<seq<nat>>, last: seq<nat>, i: nat)
    returns (lines': seq<seq<nat>>, last': seq<nat>)
    requires Wrapped(nums, lines, last)
    ensures Wrapped(nums + [i], lines', last')
    ensures PrintedText(HEADER, lines', last') == Print(PrintedText(HEADER, lines, last), i, |nums| + 1)
  {
    WrappedOneMore(nums, lines, last, i);
    if (|nums| + 1) % WRAP == 0 {
      lines', last' := lines + [last + [i]], [];
      TextLineEnd(HEADER, lines, last + [i]);
    } else {
      lines', last' := lines, last + [i];
    }
    TextOneMore(HEADER, lines, last, i);
  }

  /** The numbers that the single-limit generator has printed before it tries i. */
  function Printed(i: nat, limit: nat): seq<nat> {
    [2, 3] + Listed(4, i, limit)
  }

  lemma PrintedStep(i: nat, limit: nat)
    requires 4 <= i
    ensures Printed(i + 1, limit) == if Passes(i, limit) then Printed(i, limit) + [i] else Printed(i, limit)
  {
    ListedStep(4, i, limit);
    Assoc([2, 3], Listed(4, i, limit), [i]);
  }

  /** What the outer loop keeps. */
  ghost predicate Printing(nums: seq<nat>, num: nat, out: string, lines: seq<seq<nat>>, last: seq<nat>) {
    num == |nums| && Wrapped(nums, lines, last) && out == PrintedText(HEADER, lines, last)
  }

  lemma PrintingStarts(limit: nat)
    ensures Printing(Printed(4, limit), 2, HEADER, [], [2, 3])
  {
    assert [2, 3][2..] == [];
    assert Printed(4, limit) == [2, 3];
  }

  /** simple_primegen up to a limit. */
  method PrimegenUpTo(limit: nat) returns (num: nat, out: string, ghost lines: seq<seq<nat>>, ghost last: seq<nat>)
    requires limit <= INT_MAX
    ensures num == |Printed(limit + 1, limit)| && Wrapped(Printed(limit + 1, limit), lines, last)
    ensures out == PrintedText(HEADER, lines, last) + "\n"
  {
    num, out, lines, last := 2, HEADER, [], [2, 3];
    PrintingStarts(limit);
    ghost var nums := Printed(4, limit);
    var i := 4;
    while i <= limit
      invariant 4 <= i && (i <= limit + 1 || i == 4)
      invariant nums == Printed(i, limit) && Printing(nums, num, out, lines, last)
    {
      var isprime := TryDivisors(i, limit);
      PrintedStep(i, limit);
      if isprime {
        num, out, lines, last := PrintNumber(num, out, i, nums, lines, last);
        nums := nums + [i];
      }
      i := i + 1;
    }
    out := out + "\n";
  }

  /** What the loop does with a number that passes. */
  method PrintNumber(num: nat, out: string, i: nat,
                     ghost nums: seq<nat>, ghost lines: seq<seq<nat>>, ghost last: seq<nat>)
    returns (num': nat, out': string, ghost lines': seq<seq<nat>>, ghost last': seq<nat>)
    requires Printing(nums, num, out, lines, last)
    ensures Printing(nums + [i], num', out', lines', last')
  {
    num', out' := PrintItem(num, out, i);
    lines', last' := NextNumber(nums, lines, last, i);
  }

  method PrintItem(num: nat, out: string, i: nat) returns (num': nat, out': string)
    ensures num' == num + 1 && out' == Print(out, i, num')
  {
    num' := num + 1;
    out' := out + Item(i);
    if num' % WRAP == 0 {
      out' := out' + "\n";
    }
  }

  predicate NotNewline(c: char) { c != '\n' }

  /** A text cut at its newlines. */
  function SplitLines(s: string): (lines: seq<string>)
    ensures |lines| > 0
    decreases |s|
  {
    var n := Span(s, NotNewline);
    if n == |s| then [s] else [s[..n]] + SplitLines(s[n + 1..])
  }

  lemma {:induction false} SplitLast(a: string, b: string)
    requires InLine(b)
    ensures SplitLines(a + ("\n" + b)) == SplitLines(a) + [b]
    decreases |a|
  {
    var end := "\n" + b;
    if Span(a, NotNewline) == |a| {
      SplitAtEnd(a, b, end);
    } else {
      SplitWithin(a, end);
      SplitLast(a[Span(a, NotNewline) + 1..], b);
    }
  }

  lemma SplitAtEnd(a: string, b: string, end: string)
    requires Span(a, NotNewline) == |a| && end == "\n" + b
    requires InLine(b)
    ensures SplitLines(a + end) == SplitLines(a) + [b]
  {
    SpanIs(a, end, NotNewline);
    OneLine(b);
    assert (a + end)[..|a|] == a && (a + end)[|a| + 1..] == b;
  }

  lemma SplitWithin(a: string, end: string)
    requires Span(a, NotNewline) < |a|
    ensures var n := Span(a, NotNewline);
      && SplitLines(a) == [a[..n]] + SplitLines(a[n + 1..])
      && SplitLines(a + end) == [a[..n]] + SplitLines(a[n + 1..] + end)
  {
    var n := Span(a, NotNewline);
    SpanWithin(a, end, NotNewline);
    assert (a + end)[..n] == a[..n] && (a + end)[n + 1..] == a[n + 1..] + end;
  }

  lemma OneLine(b: string)
    requires InLine(b)
    ensures SplitLines(b) == [b]
  {
    SpanIs(b, "", NotNewline);
    assert b + "" == b;
  }

  ghost predicate InLine(s: string) {
    forall i :: 0 <= i < |s| ==> NotNewline(s[i])
  }

  lemma InLineBoth(a: string, b: string)
    requires InLine(a) && InLine(b)
    ensures InLine(a + b)
  {
  }

  lemma {:induction false} RenderInLine(list: seq<nat>)
    ensures InLine(Render(list))
  {
    if list != [] {
      RenderInLine(list[..|list| - 1]);
      ItemInLine(list[|list| - 1]);
      InLineBoth(Render(list[..|list| - 1]), Item(list[|list| - 1]));
    }
  }

  lemma ItemInLine(i: nat)
    ensures InLine(Item(i))
  {
    TextReadsBack(i);
    forall k | 0 <= k < |Item(i)| ensures NotNewline(Item(i)[k]) {
      assert Item(i)[k] == ' ' || Item(i)[k] == ',' || IsDigit(Item(i)[k]);
    }
  }

  lemma ReadsTwo(before: string, a: string, between: string, b: string, after: string, rest: string)
    requires (forall i :: 0 <= i < |before| ==> NotDigit(before[i])) && a != "" && AllDigits(a)
    requires between != "" && (forall i :: 0 <= i < |between| ==> NotDigit(between[i])) && b != "" && AllDigits(b)
    requires after != "" && forall i :: 0 <= i < |after| ==> NotDigit(after[i])
    ensures ReadNumbers(before + (a + (between + (b + (after + rest)))))
            == [Value(a)] + ([Value(b)] + ReadNumbers(rest))
  {
    ReadsPadded(before, a, between, b + (after + rest));
    ReadsItem(b, after, rest);
  }

  lemma HeaderSplits(rest: string)
    ensures "  2,  3, " + rest == "  " + ("2" + (",  " + ("3" + (", " + rest))))
  {
  }

  lemma OneDigit(s: string, d: nat)
    requires d < 10 && s == [Digit(d)]
    ensures AllDigits(s) && Value(s) == d
  {
    TextReadsBack(d);
  }

  lemma HeaderReads(rest: string)
    ensures ReadNumbers("  2,  3, " + rest) == [2] + ([3] + ReadNumbers(rest))
  {
    HeaderSplits(rest);
    OneDigit("2", 2);
    OneDigit("3", 3);
    ReadsTwo("  ", "2", ",  ", "3", ", ", rest);
  }

  /** A text that reads as 2 and 3, whatever follows. */
  ghost predicate IsHeader(header: string) {
    InLine(header) && forall rest: string :: ReadNumbers(header + rest) == [2] + ([3] + ReadNumbers(rest))
  }

  lemma HeaderIsHeader()
    ensures IsHeader(HEADER)
  {
    forall rest: string ensures ReadNumbers(HEADER + rest) == [2] + ([3] + ReadNumbers(rest)) { HeaderReads(rest); }
  }

  lemma HeaderThen(header: string, tail: string)
    requires IsHeader(header)
    ensures ReadNumbers(header + tail) == [2] + ([3] + ReadNumbers(tail))
  {
  }

  lemma TwoThreeThen(list: seq<nat>)
    ensures [2] + ([3] + list) == [2, 3] + list
  {
  }

  lemma FirstLineIsOne(header: string, list: seq<nat>)
    requires InLine(header)
    ensures SplitLines(header + Render(list)) == [header + Render(list)]
  {
    RenderInLine(list);
    InLineBoth(header, Render(list));
    OneLine(header + Render(list));
  }

  lemma SingleLine(text: string, line: seq<nat>)
    requires SplitLines(text) == [text] && ReadNumbers(text) == line
    ensures ReadsAs(SplitLines(text), [line])
  {
  }

  /** The text so far, cut at its newlines, reads back as the lines. */
  ghost predicate ReadsAs(cut: seq<string>, lines: seq<seq<nat>>) {
    |cut| == |lines| && forall k :: 0 <= k < |lines| ==> ReadNumbers(cut[k]) == lines[k]
  }

  lemma {:induction false} TextReadsBackByLine(header: string, lines: seq<seq<nat>>, last: seq<nat>)
    requires IsHeader(header)
    requires if lines == [] then |last| >= 2 && last[..2] == [2, 3] else |lines[0]| >= 2 && lines[0][..2] == [2, 3]
    ensures ReadsAs(SplitLines(PrintedText(header, lines, last)), lines + [last])
    decreases |lines|
  {
    if lines == [] {
      assert last == [2, 3] + last[2..] && lines + [last] == [last];
      FirstLine(header, last[2..]);
    } else {
      var front, line := lines[..|lines| - 1], lines[|lines| - 1];
      assert lines == front + [line];
      TextReadsBackByLine(header, front, line);
      LineAdded(PrintedText(header, front, line), lines, last);
    }
  }

  lemma FirstLine(header: string, list: seq<nat>)
    requires IsHeader(header)
    ensures ReadsAs(SplitLines(header + Render(list)), [[2, 3] + list])
  {
    assert SplitLines(header + Render(list)) == [header + Render(list)] by { FirstLineIsOne(header, list); }
    assert ReadNumbers(Render(list)) == list by { RenderReadsBack(list); }
    assert ReadNumbers(header + Render(list)) == [2] + ([3] + list) by { HeaderThen(header, Render(list)); }
    TwoThreeThen(list);
    SingleLine(header + Render(list), [2, 3] + list);
  }

  lemma LineAdded(before: string, lines: seq<seq<nat>>, last: seq<nat>)
    requires ReadsAs(SplitLines(before), lines)
    ensures ReadsAs(SplitLines(before + "\n" + Render(last)), lines + [last])
  {
    assert SplitLines(before + "\n" + Render(last)) == SplitLines(before) + [Render(last)] by {
      RenderInLine(last);
      SplitLast(before, Render(last));
      Assoc(before, "\n", Render(last));
    }
    assert ReadNumbers(Render(last)) == last by { RenderReadsBack(last); }
    ReadsAsNext(SplitLines(before), lines, Render(last), last);
  }

  lemma ReadsAsNext(cut: seq<string>, lines: seq<seq<nat>>, text: string, line: seq<nat>)
    requires ReadsAs(cut, lines) && ReadNumbers(text) == line
    ensures ReadsAs(cut + [text], lines + [line])
  {
  }

  /** What the single-limit generator prints reads back, line by line, as 2, 3 and the listed numbers,
      16 to a line, and ends with a newline. */
  lemma PrintedReadsBack(limit: nat, lines: seq<seq<nat>>, last: seq<nat>)
    requires Wrapped(Printed(limit + 1, limit), lines, last)
    ensures var cut := SplitLines(PrintedText(HEADER, lines, last) + "\n");
      cut[|cut| - 1] == "" && ReadsAs(cut[..|cut| - 1], lines + [last])
    ensures Flatten(lines) + last == [2, 3] + Listed(4, limit + 1, limit)
    ensures |last| < 16 && forall k :: 0 <= k < |lines| ==> |lines[k]| == 16
  {
    assert Printed(limit + 1, limit)[..2] == [2, 3];
    if lines != [] { FlattenStarts(lines); }
    HeaderIsHeader();
    TextReadsBackByLine(HEADER, lines, last);
    var text := PrintedText(HEADER, lines, last);
    SplitLast(text, "");
    assert text + ("\n" + "") == text + "\n";
  }

  lemma {:induction false} FlattenStarts(lines: seq<seq<nat>>)
    requires lines != []
    ensures lines[0] <= Flatten(lines)
  {
    var front := lines[..|lines| - 1];
    if front == [] {
      assert Flatten(lines) == lines[0];
    } else {
      FlattenStarts(front);
    }
  }

  /** The single-limit generator prints exactly the primes up to its limit when the limit is 3 or at
      least 6; main calls it with any limit from 5 on, and for 5 it prints 4. */
  lemma UpToRightIff(limit: nat)
    ensures Printed(limit + 1, limit) == PrimesIn(2, limit + 1) <==> limit == 3 || limit >= 6
  {
    PrimesInIsRight(2, limit + 1);
    var printed := Printed(limit + 1, limit);
    if limit < 3 {
      assert printed[1] == 3 && 3 in printed && 3 !in PrimesIn(2, limit + 1);
    } else {
      TwoThree();
      if limit == 4 || limit == 5 {
        PassesIffPrime(4, limit);
        ListedMembers(4, limit + 1, limit, 4);
        assert 4 in printed && 4 !in PrimesIn(2, limit + 1);
      } else {
        forall i | 4 <= i < limit + 1 ensures Passes(i, limit) <==> IsPrime(i) { PassesIffPrime(i, limit); }
        ListedPrimes(4, limit + 1, limit);
        PrimesInSplit(limit + 1);
      }
    }
  }

  lemma TwoThree()
    ensures PrimesIn(2, 4) == [2, 3]
  {
    assert IsPrime(2) && IsPrime(3);
    assert PrimesIn(2, 2) == [] && PrimesIn(2, 3) == [2];
  }

  lemma {:induction false} PrimesInSplit(end: nat)
    requires end >= 4
    ensures PrimesIn(2, end) == PrimesIn(2, 4) + PrimesIn(4, end)
  {
    if end > 4 { PrimesInSplit(end - 1); }
  }
}
