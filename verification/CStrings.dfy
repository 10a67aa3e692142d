/** C strings in character arrays: the characters before the terminating NUL. */
module CStrings {
  const NUL: char := '\0'

  predicate NotNul(c: char) { c != NUL }

  predicate NulFree(s: string) {
    forall i :: 0 <= i < |s| ==> NotNul(s[i])
  }

  /** How many characters at the start of s satisfy p. */
  function Span(s: string, p: char -> bool): (n: nat)
    ensures n <= |s| && (forall i :: 0 <= i < n ==> p(s[i])) && (n < |s| ==> !p(s[n]))
  {
    if s == [] || !p(s[0]) then 0 else 1 + Span(s[1..], p)
  }

  lemma {:induction false} SpanIs(a: string, b: string, p: char -> bool)
    requires forall i :: 0 <= i < |a| ==> p(a[i])
    requires b == [] || !p(b[0])
    ensures Span(a + b, p) == |a|
  {
    if a != [] {
      SpanIs(a[1..], b, p);
      assert (a + b)[1..] == a[1..] + b;
    } else {
      assert a + b == b;
    }
  }

  lemma {:induction false} SpanWithin(a: string, b: string, p: char -> bool)
    requires Span(a, p) < |a|
    ensures Span(a + b, p) == Span(a, p)
  {
    assert (a + b)[0] == a[0];
    if p(a[0]) {
      SpanWithin(a[1..], b, p);
      assert (a + b)[1..] == a[1..] + b;
    }
  }

  lemma {:induction false} SpanOver(a: string, b: string, p: char -> bool)
    requires forall i :: 0 <= i < |a| ==> p(a[i])
    ensures Span(a + b, p) == |a| + Span(b, p)
  {
    if a != [] {
      SpanOver(a[1..], b, p);
      assert (a + b)[1..] == a[1..] + b;
    } else {
      assert a + b == b;
    }
  }

  /** The C string stored in an array: the characters before the first NUL. */
  function CString(a: seq<char>): string {
    a[..Span(a, NotNul)]
  }

  lemma CStringOf(s: string, rest: seq<char>)
    requires NulFree(s)
    ensures CString(s + ([NUL] + rest)) == s
  {
    SpanIs(s, [NUL] + rest, NotNul);
  }

  /** Writes a string and its NUL to the front of an array. */
  method Store(dst: array<char>, s: string)
    requires |s| < dst.Length && NulFree(s)
    modifies dst
    ensures CString(dst[..]) == s
  {
    forall i | 0 <= i < |s| { dst[i] := s[i]; }
    dst[|s|] := NUL;
    assert dst[..] == s + ([NUL] + dst[|s| + 1..]);
    CStringOf(s, dst[|s| + 1..]);
  }

  /** strncat: appends at the NUL of the string already in the array. */
  method Append(dst: array<char>, s: string)
    requires |CString(dst[..])| + |s| < dst.Length && NulFree(s)
    modifies dst
    ensures CString(dst[..]) == old(CString(dst[..])) + s
  {
    var all := CString(dst[..]) + s;
    var n := |CString(dst[..])|;
    forall i | n <= i < n + |s| { dst[i] := s[i - n]; }
    dst[|all|] := NUL;
    assert dst[..] == all + ([NUL] + dst[|all| + 1..]);
    CStringOf(all, dst[|all| + 1..]);
  }
}
