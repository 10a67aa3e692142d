/** The proxy's treatment of a request: finding host and port in the absolute-form request target, and
    rewriting the request line to origin-form for the target server (sections 3.2.2 and 3.2.1 of
    RFC 9112).

    A C string is modelled by its characters before the terminating NUL. The library calls are
    functions on strings; the two functions of the proxy fill character arrays. */
module HttpProxy {
  import opened Basics
  import opened CStrings
  import opened Decimal

  // ---------- the C library ----------

  /** isspace in the C locale: codes 9 to 13 and 32. */
  predicate IsSpace(c: char): (b: bool)
    ensures b <==> 9 <= c as int <= 13 || c as int == 32
  {
    c == ' ' || c == '\t' || c == '\n' || c == '\U{0B}' || c == '\U{0C}' || c == '\r'
  }

  predicate NotSpace(c: char) { !IsSpace(c) }
  predicate NotSlash(c: char) { c != '/' }
  predicate NotColonSlash(c: char) { c != ':' && c != '/' }

  function Take(s: string, n: nat): (r: string)
    ensures r <= s && |r| == Min(n, |s|)
  {
    s[..Min(n, |s|)]
  }

  predicate StartsWith(s: string, prefix: string) {
    |prefix| <= |s| && s[..|prefix|] == prefix
  }

  /** The first k conversions of "%s %s ... %s". */
  function Words(s: string, k: nat): (r: seq<string>)
    ensures |r| <= k
    decreases k
  {
    if k == 0 then []
    else
      var t := s[Span(s, IsSpace)..];
      var n := Span(t, NotSpace);
      if n == 0 then [] else [t[..n]] + Words(t[n..], k - 1)
  }

  function ScanDigits(s: string): Option<nat> {
    var digits := s[..Span(s, IsDigit)];
    if digits == [] then None else Some(Value(digits))
  }

  function ScanSigned(s: string): Option<int> {
    if s != [] && s[0] == '-' then
      match ScanDigits(s[1..])
      case None => None
      case Some(v) => Some(-(v as int))
    else
      match ScanDigits(if s != [] && s[0] == '+' then s[1..] else s)
      case None => None
      case Some(v) => Some(v)
  }

  /** "%d": spaces, an optional sign, and at least one digit. The value is not limited to an int. */
  function ScanInt(s: string): Option<int> {
    ScanSigned(s[Span(s, IsSpace)..])
  }

  /** "%255[set]": at least one and at most 255 characters of the set. */
  function ScanSet(s: string, p: char -> bool): (r: Option<string>)
    ensures r.Some? ==> r.value <= s && |r.value| <= 255
  {
    var n := Min(255, Span(s, p));
    if n == 0 then None else Some(s[..n])
  }

  /** strstr(s, "\r\n"). */
  function FindCrLf(s: string): (r: Option<nat>)
    ensures r.Some? ==> r.value + 2 <= |s|
  {
    if |s| < 2 then None
    else if s[0] == '\r' && s[1] == '\n' then Some(0)
    else
      match FindCrLf(s[1..])
      case None => None
      case Some(i) => Some(i + 1)
  }

  /** snprintf into an array of `size` characters. */
  function Snprintf(size: nat, s: string): (r: string)
    requires size > 0
    ensures r <= s && |r| == Min(|s|, size - 1)
  {
    Take(s, size - 1)
  }

  // ---------- what the proxy computes ----------

  datatype Target =
    | Target(host: string, port: int)
    | NoHost          // "Failed to parse hostname"
    | HttpsTarget     // "Only HTTP requests supported at this stage"
    | NotAbsolute     // "Proxy requires absolute URL to target server."

  /** The request line has at least k words, and all up to the third fit the buffers that sscanf
      writes them to: method[10], url[1024] and protocol[10]. */
  predicate TokensFit(buffer: string, k: nat) {
    var w := Words(buffer, 3);
    |w| >= k && forall i :: 0 <= i < |w| ==> |w[i]| < if i == 1 then 1024 else 10
  }

  /** What "%d" makes of the text after a colon at position n. */
  function PortAfter(s: string, n: nat): Option<int> {
    if n < |s| && s[n] == ':' then ScanInt(s[n + 1..]) else None
  }

  function ParseAuthority(s: string): Target {
    var host := ScanSet(s, NotColonSlash);
    var port := if host.Some? then PortAfter(s, |host.value|) else None;
    if port.Some? then Target(host.value, port.value)
    else
      match ScanSet(s, NotSlash)
      case Some(name) => Target(name, 80)
      case None => NoHost
  }

  function ParseTarget(buffer: string): Target
    requires TokensFit(buffer, 2)
  {
    var url := Words(buffer, 3)[1];
    if StartsWith(url, "http://") then ParseAuthority(url[7..])
    else if StartsWith(url, "https://") then HttpsTarget
    else NotAbsolute
  }

  /** The path of the request target, "/" if it has none. */
  function PathOf(url: string): string
    requires |url| >= 7
  {
    var authority := Span(url[7..], NotSlash);
    if 7 + authority < |url| then Take(url[7 + authority..], 1023) else "/"
  }

  /** strncat of at most the room left in an array of `size` characters. */
  function Strncat(size: nat, dst: string, src: string): (r: string)
    requires |dst| < size
    ensures dst <= r <= dst + src && |r| == Min(|dst| + |src|, size - 1)
  {
    dst + Take(src, size - |dst| - 1)
  }

  /** The request line in origin-form. */
  function OriginLine(w: seq<string>): string
    requires |w| == 3 && |w[1]| >= 7
  {
    w[0] + " " + PathOf(w[1]) + " " + w[2] + "\r\n"
  }

  const BUFFER_SIZE: nat := 4096

  /** The line followed by what the buffer holds after its first line end. */
  function WithHeaders(line: string, buffer: string): (r: string)
    requires |line| < BUFFER_SIZE
    ensures |r| < BUFFER_SIZE
  {
    match FindCrLf(buffer)
    case None => line
    case Some(i) => Strncat(BUFFER_SIZE, line, buffer[i + 2..])
  }

  /** What is sent to the target server, None if the target is not absolute-form. */
  function Rewrite(buffer: string): Option<string>
    requires TokensFit(buffer, 3)
  {
    var w := Words(buffer, 3);
    if !StartsWith(w[1], "http://") then None
    else Some(WithHeaders(Snprintf(BUFFER_SIZE, OriginLine(w)), buffer))
  }

  // ---------- what these functions mean, on all inputs ----------

  ghost predicate All(s: string, p: char -> bool) {
    forall i :: 0 <= i < |s| ==> p(s[i])
  }

  /** A text cut after its first characters that satisfy p. */
  lemma CutAt(s: string, p: char -> bool)
    ensures var n := Span(s, p);
      && s == s[..n] + s[n..] && All(s[..n], p) && (s[n..] != "" ==> !p(s[n..][0]))
  {
  }

  /** The first word of a text is what stands between its leading spaces and the next space; there is
      none exactly when there are only spaces. The other words are those of the rest. */
  lemma WordsMeans(s: string, k: nat) returns (blank: string, word: string, rest: string)
    requires k > 0
    ensures s == blank + (word + rest) && All(blank, IsSpace) && All(word, NotSpace)
    ensures rest != "" ==> word != "" && IsSpace(rest[0])
    ensures Words(s, k) == if word == "" then [] else [word] + Words(rest, k - 1)
  {
    var t := s[Span(s, IsSpace)..];
    CutAt(s, IsSpace);
    CutAt(t, NotSpace);
    blank, word, rest := s[..Span(s, IsSpace)], t[..Span(t, NotSpace)], t[Span(t, NotSpace)..];
    assert word == "" ==> rest == t;
  }

  /** strstr finds the first line end. */
  lemma {:induction false} FindCrLfMeans(s: string)
    ensures match FindCrLf(s)
            case Some(i) =>
              s[i] == '\r' && s[i + 1] == '\n' && forall j :: 0 <= j < i ==> !(s[j] == '\r' && s[j + 1] == '\n')
            case None => forall j :: 0 <= j < |s| - 1 ==> !(s[j] == '\r' && s[j + 1] == '\n')
  {
    if |s| >= 2 && !(s[0] == '\r' && s[1] == '\n') {
      FindCrLfMeans(s[1..]);
      var found := FindCrLf(s[1..]);
      var end := if found.Some? then found.value + 1 else |s| - 1;
      forall j | 0 <= j < end ensures !(s[j] == '\r' && s[j + 1] == '\n') {
        if j > 0 { assert s[1..][j - 1] == s[j] && s[1..][j] == s[j + 1]; }
      }
    }
  }

  lemma SkipsSpaces(blank: string, t: string)
    requires forall i :: 0 <= i < |blank| ==> IsSpace(blank[i])
    requires t != "" ==> !IsSpace(t[0])
    ensures ScanInt(blank + t) == ScanSigned(t)
  {
    SpanIs(blank, t, IsSpace);
    assert (blank + t)[|blank|..] == t;
  }

  lemma SignReads(sign: string, number: string)
    requires sign == "" || sign == "+" || sign == "-"
    requires number != "" && IsDigit(number[0])
    ensures ScanSigned(sign + number)
            == match ScanDigits(number) case None => None case Some(v) => Some(if sign == "-" then -(v as int) else v)
  {
    var t := sign + number;
    if sign == "" { assert t == number; } else { assert t[0] == sign[0] && t[1..] == number; }
  }

  /** "%d" reads a number after spaces and an optional sign. */
  lemma ScanIntReads(blank: string, sign: string, number: string, v: nat)
    requires forall i :: 0 <= i < |blank| ==> IsSpace(blank[i])
    requires sign == "" || sign == "+" || sign == "-"
    requires number != "" && IsDigit(number[0]) && ScanDigits(number) == Some(v)
    ensures ScanInt(blank + (sign + number)) == Some(if sign == "-" then -(v as int) else v)
  {
    assert ScanSigned(sign + number) == Some(if sign == "-" then -(v as int) else v) by { SignReads(sign, number); }
    assert ScanInt(blank + (sign + number)) == ScanSigned(sign + number) by { SkipsSpaces(blank, sign + number); }
  }

  /** And it fails where no digit follows them. */
  lemma ScanIntFails(blank: string, sign: string, rest: string)
    requires forall i :: 0 <= i < |blank| ==> IsSpace(blank[i])
    requires sign == "" || sign == "+" || sign == "-"
    requires rest != "" ==> !IsDigit(rest[0])
    requires sign == "" && rest != "" ==> !IsSpace(rest[0]) && rest[0] != '+' && rest[0] != '-'
    ensures ScanInt(blank + (sign + rest)) == None
  {
    var t := sign + rest;
    SkipsSpaces(blank, t);
    assert if sign == "" then t == rest else t[0] == sign[0] && t[1..] == rest;
    assert Span(rest, IsDigit) == 0;
  }

  /** Position n holds the colon that may end the host. */
  ghost predicate ColonAt(s: string, n: nat) {
    0 < n <= 255 && n < |s| && s[n] == ':' && forall i :: 0 <= i < n ==> s[i] != ':' && s[i] != '/'
  }

  lemma ColonIsNext(s: string, m: nat)
    requires ColonAt(s, m)
    ensures Span(s, NotColonSlash) == m
  {
    SpanIs(s[..m], s[m..], NotColonSlash);
    assert s == s[..m] + s[m..];
  }

  /** What host and port are, for any text. If a number follows the colon, they are what stands before
      and after it. Otherwise the host is all up to the first slash or the 255th character, colon
      included, and the port is 80. Only an empty text or a slash in front gives no host. */
  lemma AuthorityMeans(s: string)
    ensures forall n: nat :: ColonAt(s, n) && ScanInt(s[n + 1..]).Some? ==>
              ParseAuthority(s) == Target(s[..n], ScanInt(s[n + 1..]).value)
    ensures (s == "" || s[0] == '/') <==> ParseAuthority(s) == NoHost
    ensures (forall n: nat :: ColonAt(s, n) ==> ScanInt(s[n + 1..]).None?) && s != "" && s[0] != '/' ==>
              var t := ParseAuthority(s);
              && t.Target? && t.port == 80 && t.host <= s && 0 < |t.host| <= 255
              && (forall i :: 0 <= i < |t.host| ==> s[i] != '/')
              && (|t.host| == 255 || |t.host| == |s| || s[|t.host|] == '/')
    ensures !ParseAuthority(s).HttpsTarget? && !ParseAuthority(s).NotAbsolute?
  {
    var n := Span(s, NotColonSlash);
    forall m: nat | ColonAt(s, m) ensures m == n { ColonIsNext(s, m); }
    if 0 < n <= 255 && n < |s| && s[n] == ':' {
      assert ColonAt(s, n);
    }
  }

  lemma HttpNotHttps(url: string)
    requires StartsWith(url, "http://")
    ensures !StartsWith(url, "https://")
  {
    assert url[..7][4] == url[4] == ':';
    if |url| >= 8 { assert url[..8][4] == url[4]; }
  }

  /** Which requests are accepted: those whose target starts with http:// and goes on, but not with a
      slash. */
  lemma TargetMeans(buffer: string)
    requires TokensFit(buffer, 2)
    ensures var url := Words(buffer, 3)[1];
      && (ParseTarget(buffer).Target? <==> StartsWith(url, "http://") && |url| > 7 && url[7] != '/')
      && (ParseTarget(buffer).HttpsTarget? <==> StartsWith(url, "https://"))
      && (StartsWith(url, "http://") ==> ParseTarget(buffer) == ParseAuthority(url[7..]))
  {
    var url := Words(buffer, 3)[1];
    if StartsWith(url, "http://") {
      AuthorityMeans(url[7..]);
      HttpNotHttps(url);
      assert |url| > 7 ==> url[7..][0] == url[7];
    }
  }

  /** The path is all from the first slash after the authority on, as far as the array holds it. */
  lemma PathMeans(url: string, n: nat)
    requires 7 <= n <= |url| && (n < |url| ==> url[n] == '/') && forall i :: 7 <= i < n ==> url[i] != '/'
    ensures PathOf(url) == if n < |url| then Take(url[n..], 1023) else "/"
  {
    SpanIs(url[7..n], url[n..], NotSlash);
    assert url[7..] == url[7..n] + url[n..];
  }

  lemma StrncatMeans(size: nat, dst: string, src: string)
    requires |dst| < size
    ensures Strncat(size, dst, src) == Take(dst + src, size - 1)
  {
  }

  /** What is sent, for any request: verb, path and protocol with a line end, none of it ever cut, and
      then what follows the first line end of the request, as far as the array holds it. */
  lemma RewriteMeans(buffer: string)
    requires TokensFit(buffer, 3)
    ensures var w := Words(buffer, 3);
      && (Rewrite(buffer).Some? <==> StartsWith(w[1], "http://"))
      && (Rewrite(buffer).Some? ==>
            var line := w[0] + " " + PathOf(w[1]) + " " + w[2] + "\r\n";
            && |line| < 2048 && |Rewrite(buffer).value| < BUFFER_SIZE
            && match FindCrLf(buffer)
               case None => Rewrite(buffer).value == line
               case Some(i) => Rewrite(buffer).value == Take(line + buffer[i + 2..], BUFFER_SIZE - 1))
  {
    var w := Words(buffer, 3);
    if StartsWith(w[1], "http://") {
      LineNotCut(w);
      HeadersMeans(OriginLine(w), buffer);
    }
  }

  lemma LineNotCut(w: seq<string>)
    requires |w| == 3 && |w[1]| >= 7 && |w[0]| < 10 && |w[2]| < 10
    ensures |OriginLine(w)| < 2048 && Snprintf(BUFFER_SIZE, OriginLine(w)) == OriginLine(w)
  {
  }

  lemma HeadersMeans(line: string, buffer: string)
    requires |line| < BUFFER_SIZE
    ensures match FindCrLf(buffer)
            case None => WithHeaders(line, buffer) == line
            case Some(i) => WithHeaders(line, buffer) == Take(line + buffer[i + 2..], BUFFER_SIZE - 1)
  {
    var found := FindCrLf(buffer);
    if found.Some? { StrncatMeans(BUFFER_SIZE, line, buffer[found.value + 2..]); }
  }

  // ---------- the printed request ----------

  predicate IsWord(s: string) {
    s != [] && forall i :: 0 <= i < |s| ==> NotSpace(s[i]) && NotNul(s[i])
  }

  /** An absolute-form request. The port is its text, the path is empty or starts with a slash. */
  datatype Request = Request(
    verb: string,
    host: string,
    port: Option<string>,
    path: string,
    protocol: string,
    headers: string
  ) {
    function PortText(): string {
      if port.None? then "" else ":" + port.value
    }

    function Url(): string {
      "http://" + host + PortText() + path
    }

    function Print(): string {
      verb + (" " + (Url() + (" " + (protocol + ("\r\n" + headers)))))
    }

    /** In origin-form. */
    function Origin(): string {
      verb + " " + (if path == "" then "/" else path) + " " + protocol + "\r\n" + headers
    }

    predicate WellFormed() {
      && IsWord(verb) && |verb| < 10 && IsWord(protocol) && |protocol| < 10
      && IsWord(host) && |host| <= 255 && (forall i :: 0 <= i < |host| ==> NotColonSlash(host[i]))
      && (port.Some? ==> port.value != "" && AllDigits(port.value) && Value(port.value) <= 65535)
      && (path != "" ==> IsWord(path) && path[0] == '/')
      && |Url()| < 1024
      && (forall i :: 0 <= i < |headers| ==> NotNul(headers[i]))
      && |Print()| < BUFFER_SIZE
    }
  }

  /** One word and the space after it are scanned off the front. */
  lemma NextWord(word: string, rest: string, k: nat)
    requires IsWord(word) && rest != [] && IsSpace(rest[0]) && k > 0
    ensures Words(word + rest, k) == [word] + Words(rest, k - 1)
  {
    var s := word + rest;
    SpanIs([], s, IsSpace);
    assert [] + s == s && s[0..] == s;
    SpanIs(word, rest, NotSpace);
    assert s[..|word|] == word && s[|word|..] == rest;
  }

  lemma SkipSpace(word: string, rest: string, k: nat)
    requires IsWord(word)
    ensures Words(" " + (word + rest), k) == Words(word + rest, k)
  {
    var s := word + rest;
    SpanIs(" ", s, IsSpace);
    assert (" " + s)[1..] == s;
    SpanIs([], s, IsSpace);
    assert [] + s == s && s[0..] == s;
  }

  lemma UrlIsWord(r: Request)
    requires r.WellFormed()
    ensures IsWord(r.Url())
  {
    var u := r.Url();
    forall i | 0 <= i < |u| ensures NotSpace(u[i]) && NotNul(u[i]) {
      if i < 7 {
        assert u[i] == "http://"[i];
      } else if i < 7 + |r.host| {
        assert u[i] == r.host[i - 7];
      } else if i < 7 + |r.host| + |r.PortText()| {
        assert u[i] == r.PortText()[i - 7 - |r.host|];
        if i > 7 + |r.host| { assert IsDigit(r.port.value[i - 8 - |r.host|]); }
      } else {
        assert u[i] == r.path[i - 7 - |r.host| - |r.PortText()|];
      }
    }
  }

  lemma WordAfterSpace(word: string, rest: string, k: nat)
    requires IsWord(word) && rest != [] && IsSpace(rest[0]) && k > 0
    ensures Words(" " + (word + rest), k) == [word] + Words(rest, k - 1)
  {
    SkipSpace(word, rest, k);
    NextWord(word, rest, k);
  }

  lemma ThreeWords(a: string, b: string, c: string, end: string, k: nat)
    requires IsWord(a) && IsWord(b) && IsWord(c) && end != [] && IsSpace(end[0]) && k == 3
    ensures Words(a + (" " + (b + (" " + (c + end)))), k) == [a, b, c]
  {
    var afterB := " " + (c + end);
    var afterA := " " + (b + afterB);
    var none := Words(end, k - 3);
    NextWord(a, afterA, k);
    WordAfterSpace(b, afterB, k - 1);
    WordAfterSpace(c, end, k - 2);
    Joined(a, b, c, none);
  }

  lemma Joined(a: string, b: string, c: string, rest: seq<string>)
    requires rest == []
    ensures [a] + ([b] + ([c] + rest)) == [a, b, c]
  {
  }

  /** The three words scanned from a printed request. */
  lemma WordsOfPrinted(r: Request)
    requires r.WellFormed()
    ensures Words(r.Print(), 3) == [r.verb, r.Url(), r.protocol] && TokensFit(r.Print(), 3)
  {
    UrlIsWord(r);
    ThreeWords(r.verb, r.Url(), r.protocol, "\r\n" + r.headers, 3);
  }

  // ---------- finding host and port ----------

  lemma DigitsScan(digits: string, rest: string)
    requires digits != "" && AllDigits(digits) && (rest != "" ==> !IsDigit(rest[0]))
    ensures ScanDigits(digits + rest) == Some(Value(digits))
  {
    SpanIs(digits, rest, IsDigit);
    assert (digits + rest)[..|digits|] == digits;
  }

  lemma ScanPort(port: string, path: string)
    requires port != "" && AllDigits(port) && (path != "" ==> path[0] == '/')
    ensures ScanInt(port + path) == Some(Value(port))
  {
    var s := port + path;
    assert IsDigit(port[0]) && s[0] == port[0] && s[0..] == s;
    DigitsScan(port, path);
  }

  lemma AuthorityPrinted(host: string, port: Option<string>, path: string)
    requires IsWord(host) && |host| <= 255 && forall i :: 0 <= i < |host| ==> NotColonSlash(host[i])
    requires port.Some? ==> port.value != "" && AllDigits(port.value)
    requires path != "" ==> path[0] == '/'
    ensures var portText := if port.None? then "" else ":" + port.value;
      ParseAuthority(host + (portText + path)) == Target(host, if port.None? then 80 else Value(port.value))
  {
    if port.Some? {
      var rest := ":" + port.value + path;
      assert rest[1..] == port.value + path;
      WithPort(host, port.value, path, rest);
    } else {
      WithoutPort(host, path);
      assert "" + path == path;
    }
  }

  lemma HostScan(host: string, rest: string, p: char -> bool)
    requires host != "" && |host| <= 255 && forall i :: 0 <= i < |host| ==> p(host[i])
    requires rest != "" ==> !p(rest[0])
    ensures ScanSet(host + rest, p) == Some(host)
  {
    SpanIs(host, rest, p);
    assert (host + rest)[..|host|] == host;
  }

  lemma WithPort(host: string, port: string, path: string, rest: string)
    requires IsWord(host) && |host| <= 255 && forall i :: 0 <= i < |host| ==> NotColonSlash(host[i])
    requires port != "" && AllDigits(port) && (path != "" ==> path[0] == '/')
    requires rest != "" && rest[0] == ':' && rest[1..] == port + path
    ensures ParseAuthority(host + rest) == Target(host, Value(port))
  {
    var s := host + rest;
    HostScan(host, rest, NotColonSlash);
    AfterHost(host, rest);
    assert ScanInt(s[|host| + 1..]) == Some(Value(port)) by { ScanPort(port, path); }
  }

  lemma AfterHost(host: string, rest: string)
    requires rest != ""
    ensures (host + rest)[|host|] == rest[0] && (host + rest)[|host| + 1..] == rest[1..]
  {
  }

  lemma WithoutPort(host: string, path: string)
    requires IsWord(host) && |host| <= 255 && forall i :: 0 <= i < |host| ==> NotColonSlash(host[i])
    requires path != "" ==> path[0] == '/'
    ensures ParseAuthority(host + path) == Target(host, 80)
  {
    HostScan(host, path, NotColonSlash);
    HostScan(host, path, NotSlash);
  }

  lemma UrlParts(r: Request)
    ensures StartsWith(r.Url(), "http://") && r.Url()[7..] == r.host + (r.PortText() + r.path)
  {
    assert r.Url() == "http://" + (r.host + (r.PortText() + r.path));
  }

  /** Parsing the printed request gives back its host and port, 80 if it has none. */
  lemma ParsePrinted(r: Request)
    requires r.WellFormed()
    ensures TokensFit(r.Print(), 3)
    ensures ParseTarget(r.Print()) == Target(r.host, if r.port.None? then 80 else Value(r.port.value))
  {
    WordsOfPrinted(r);
    UrlParts(r);
    AuthorityPrinted(r.host, r.port, r.path);
  }

  // ---------- rewriting ----------

  lemma {:induction false} FindCrLfIs(a: string, b: string)
    requires forall i :: 0 <= i < |a| ==> a[i] != '\r'
    ensures FindCrLf(a + ("\r\n" + b)) == Some(|a|)
  {
    var s := a + ("\r\n" + b);
    if a == [] {
      assert s == "\r\n" + b;
    } else {
      FindCrLfIs(a[1..], b);
      assert s[1..] == a[1..] + ("\r\n" + b);
    }
  }

  lemma PathOfPrinted(r: Request)
    requires r.WellFormed()
    ensures PathOf(r.Url()) == if r.path == "" then "/" else r.path
  {
    UrlParts(r);
    var before := r.host + r.PortText();
    forall i | 0 <= i < |before| ensures NotSlash(before[i]) {
      if i > |r.host| { assert IsDigit(r.port.value[i - |r.host| - 1]); }
    }
    assert r.Url()[7..] == before + r.path;
    PathAfter(r.Url(), before, r.path);
  }

  lemma PathAfter(url: string, before: string, path: string)
    requires |url| >= 7 && url[7..] == before + path && |path| <= 1023
    requires forall i :: 0 <= i < |before| ==> NotSlash(before[i])
    requires path != "" ==> path[0] == '/'
    ensures PathOf(url) == if path == "" then "/" else path
  {
    SpanIs(before, path, NotSlash);
    assert url[7 + |before|..] == path;
  }

  /** The request line of the printed request, up to its line end. */
  function PrintedLine(r: Request): string {
    r.verb + (" " + (r.Url() + (" " + r.protocol)))
  }

  lemma LineEndOfPrinted(r: Request)
    requires r.WellFormed()
    ensures FindCrLf(r.Print()) == Some(|PrintedLine(r)|)
    ensures r.Print()[|PrintedLine(r)| + 2..] == r.headers
  {
    UrlIsWord(r);
    var line := PrintedLine(r);
    LineRegroups(r.verb, r.Url(), r.protocol, "\r\n" + r.headers);
    NoSpaceNoCr(r.verb);
    NoSpaceNoCr(r.Url());
    NoSpaceNoCr(r.protocol);
    FindCrLfIs(line, r.headers);
    assert r.Print() == line + ("\r\n" + r.headers);
  }

  lemma NoSpaceNoCr(s: string)
    requires IsWord(s)
    ensures forall i :: 0 <= i < |s| ==> s[i] != '\r'
  {
    forall i | 0 <= i < |s| ensures s[i] != '\r' { assert NotSpace(s[i]); }
  }

  lemma LineRegroups(a: string, b: string, c: string, end: string)
    ensures a + (" " + (b + (" " + (c + end)))) == (a + (" " + (b + (" " + c)))) + end
  {
  }

  /** The rewritten request is at least 7 bytes shorter than the printed one. */
  lemma OriginShorter(r: Request)
    requires r.WellFormed()
    ensures |r.Origin()| + 7 <= |r.Print()|
  {
  }

  /** Rewriting the printed request drops nothing: it yields verb, path and protocol in origin-form,
      and the header block byte for byte, all of it within the buffer. */
  lemma RewritePrinted(r: Request)
    requires r.WellFormed()
    ensures TokensFit(r.Print(), 3) && Rewrite(r.Print()) == Some(r.Origin())
    ensures |r.Origin()| + 7 <= |r.Print()| < BUFFER_SIZE
  {
    var line := OriginLine([r.verb, r.Url(), r.protocol]);
    PathOfPrinted(r);
    UrlParts(r);
    assert line + r.headers == r.Origin();
    OriginShorter(r);
    HeadersOfPrinted(r, line);
    WordsOfPrinted(r);
  }

  lemma HeadersOfPrinted(r: Request, line: string)
    requires r.WellFormed() && |line| + |r.headers| < BUFFER_SIZE
    ensures WithHeaders(Snprintf(BUFFER_SIZE, line), r.Print()) == line + r.headers
  {
    LineEndOfPrinted(r);
    HeadersFollow(line, r.Print(), |PrintedLine(r)|, r.headers);
  }

  lemma HeadersFollow(line: string, buffer: string, lineEnd: nat, headers: string)
    requires FindCrLf(buffer) == Some(lineEnd) && lineEnd + 2 <= |buffer| && buffer[lineEnd + 2..] == headers
    requires |line| + |headers| < BUFFER_SIZE
    ensures WithHeaders(Snprintf(BUFFER_SIZE, line), buffer) == line + headers
  {
    assert Take(line, BUFFER_SIZE - 1) == line && Take(headers, BUFFER_SIZE - |line| - 1) == headers;
  }

  // ---------- the port text ----------

  /** snprintf of the port into the 6 characters of port_str. */
  function PortString(port: int): string {
    Snprintf(6, IntText(port))
  }

  /** The port text reads back as the port exactly when it is not cut: for all ports of at most five
      characters, so for every port of the 16-bit range. */
  lemma PortReadsBack(port: int)
    ensures ScanInt(PortString(port)) == Some(port) <==> -9999 <= port <= 99999
  {
    if port >= 0 { NatPortReadsBack(port); } else { NegativePortReadsBack(port); }
  }

  lemma Pow10s()
    ensures Pow10(4) == 10000 && Pow10(5) == 100000
  {
    assert Pow10(3) == 1000;
  }

  lemma ScanNegative(s: string)
    requires s != "" && AllDigits(s)
    ensures ScanInt("-" + s) == Some(-(Value(s) as int))
  {
    SignedScan(s);
    NoSpaceFirst("-" + s);
  }

  lemma SignedScan(s: string)
    requires s != "" && AllDigits(s)
    ensures ScanSigned("-" + s) == Some(-(Value(s) as int))
  {
    DigitsScan(s, "");
    assert ("-" + s)[1..] == s == s + "";
  }

  lemma NoSpaceFirst(s: string)
    requires s != "" && NotSpace(s[0])
    ensures ScanInt(s) == ScanSigned(s)
  {
    assert s[0..] == s;
  }

  lemma TakeDigits(n: nat, k: nat)
    requires k > 0
    ensures var s := Take(Text(n), k); AllDigits(s) && s != "" && (Value(s) == n <==> n < Pow10(k))
  {
    TextReadsBack(n);
    TextLength(n, k);
    var s := Take(Text(n), k);
    if |Text(n)| > k { ValueBound(s); } else { assert s == Text(n); }
  }

  lemma NatPortReadsBack(port: nat)
    ensures ScanInt(PortString(port)) == Some(port) <==> port <= 99999
  {
    var s := Take(Text(port), 5);
    TakeDigits(port, 5);
    ScanPort(s, "");
    assert s + "" == s == PortString(port);
    Pow10s();
  }

  lemma NegativePortReadsBack(port: int)
    requires port < 0
    ensures ScanInt(PortString(port)) == Some(port) <==> -9999 <= port
  {
    var s := Take(Text(-port), 4);
    TakeDigits(-port, 4);
    ScanNegative(s);
    assert PortString(port) == "-" + s;
    Pow10s();
  }

  // ---------- the functions of the proxy ----------

  ghost predicate AllNulFree(words: seq<string>) {
    forall i :: 0 <= i < |words| ==> NulFree(words[i])
  }

  lemma MoreNulFree(word: string, words: seq<string>)
    requires NulFree(word) && AllNulFree(words)
    ensures AllNulFree([word] + words)
  {
  }

  lemma PartNulFree(s: string, lo: nat, hi: nat)
    requires NulFree(s) && lo <= hi <= |s|
    ensures NulFree(s[lo..hi])
  {
  }

  lemma {:induction false} WordsNulFree(s: string, k: nat)
    requires NulFree(s)
    ensures AllNulFree(Words(s, k))
    decreases k
  {
    if k > 0 {
      var from := Span(s, IsSpace);
      var t := s[from..];
      var n := Span(t, NotSpace);
      PartNulFree(s, from, |s|);
      PartNulFree(t, 0, n);
      PartNulFree(t, n, |t|);
      WordsNulFree(t[n..], k - 1);
      MoreNulFree(t[..n], Words(t[n..], k - 1));
    }
  }

  /** The two attempts to scan host and port from what follows "http://". */
  method ScanAuthority(s: string, hostname: array<char>) returns (ok: bool, port: int)
    requires hostname.Length == 256 && NulFree(s)
    modifies hostname
    ensures var target := ParseAuthority(s);
      && (ok <==> target.Target?)
      && (ok ==> CString(hostname[..]) == target.host && port == target.port)
  {
    port := 80;
    var host := ScanSet(s, NotColonSlash);
    if host.Some? {
      Store(hostname, host.value);
      var number := PortAfter(s, |host.value|);
      if number.Some? {
        return true, number.value;
      }
    }
    host := ScanSet(s, NotSlash);
    if host.Some? {
      Store(hostname, host.value);
    }
    ok := host.Some?;
  }

  method ParseHttpRequest(buffer: array<char>, hostname: array<char>) returns (ok: bool, port: int)
    requires buffer != hostname && hostname.Length == 256
    requires TokensFit(CString(buffer[..]), 2)
    modifies hostname
    ensures var target := ParseTarget(CString(old(buffer[..])));
      && (ok <==> target.Target?)
      && (ok ==> CString(hostname[..]) == target.host && port == target.port)
    ensures var url := Words(CString(old(buffer[..])), 3)[1];
      ok <==> StartsWith(url, "http://") && |url| > 7 && url[7] != '/'
  {
    var text := CString(buffer[..]);
    TargetMeans(text);
    var words := Words(text, 3);
    WordsNulFree(text, 3);
    var url := new char[1024];
    Store(url, words[1]);
    ok, port := false, 80;
    if StartsWith(CString(url[..]), "http://") {
      ok, port := ScanAuthority(CString(url[..])[7..], hostname);
    }
  }

  /** The path part of the URL, or "/". */
  method FillPath(url: string, path: array<char>)
    requires |url| >= 7 && NulFree(url) && path.Length == 1024
    modifies path
    ensures CString(path[..]) == PathOf(url)
  {
    var start := 7 + Span(url[7..], NotSlash);
    if start < |url| {
      Store(path, Take(url[start..], 1023));
    } else {
      Store(path, "/");
    }
  }

  lemma OriginLineNulFree(w: seq<string>)
    requires |w| == 3 && |w[1]| >= 7 && forall i :: 0 <= i < 3 ==> NulFree(w[i])
    ensures NulFree(Snprintf(BUFFER_SIZE, OriginLine(w)))
  {
    var parts := [w[0], " ", PathOf(w[1]), " ", w[2], "\r\n"];
    NulFreeConcat(parts[0], parts[1]);
    NulFreeConcat(parts[0] + parts[1], parts[2]);
    NulFreeConcat(parts[0] + parts[1] + parts[2], parts[3]);
    NulFreeConcat(parts[0] + parts[1] + parts[2] + parts[3], parts[4]);
    NulFreeConcat(parts[0] + parts[1] + parts[2] + parts[3] + parts[4], parts[5]);
  }

  lemma NulFreeConcat(a: string, b: string)
    requires NulFree(a) && NulFree(b)
    ensures NulFree(a + b)
  {
  }

  /** Returns what is handed to send, None if the target is not absolute-form. */
  method ForwardRequest(buffer: array<char>) returns (sent: Option<string>)
    requires TokensFit(CString(buffer[..]), 3)
    ensures sent == Rewrite(CString(buffer[..]))
    ensures sent.Some? <==> StartsWith(Words(CString(buffer[..]), 3)[1], "http://")
    ensures sent.Some? ==> |sent.value| < BUFFER_SIZE
  {
    var text := CString(buffer[..]);
    var words := Words(text, 3);
    WordsNulFree(text, 3);
    if !StartsWith(words[1], "http://") {
      return None;
    }
    var path := new char[1024];
    FillPath(words[1], path);
    var line := words[0] + " " + CString(path[..]) + " " + words[2] + "\r\n";
    assert line == OriginLine(words);
    OriginLineNulFree(words);
    var modified := AddHeaders(Snprintf(BUFFER_SIZE, line), text);
    sent := Some(modified);
  }

  /** Fills modified_request. */
  method AddHeaders(line: string, text: string) returns (r: string)
    requires |line| < BUFFER_SIZE && NulFree(line) && NulFree(text)
    ensures r == WithHeaders(line, text)
  {
    var modified := new char[BUFFER_SIZE];
    Store(modified, line);
    var lineEnd := FindCrLf(text);
    if lineEnd.Some? {
      var tail := Take(text[lineEnd.value + 2..], BUFFER_SIZE - |line| - 1);
      assert NulFree(tail) by { PartNulFree(text, lineEnd.value + 2, lineEnd.value + 2 + |tail|); }
      Append(modified, tail);
    }
    r := CString(modified[..]);
  }
}
