/** A printed HTTP response is read back whole. */
module HttpRoundTrip {
  import opened Bytes
  import opened CText
  import opened HttpModel
  import opened Wrappers

  const CRLF := "\r\n"

  /** A header line that fits its slot. */
  predicate FormedLine(h: string, max: nat) {
    |h| <= max && forall i :: 0 <= i < |h| ==> !EndsLine(h[i])
  }

  predicate Formed(r: Response) {
    && FormedLine(r.text, MAX_TEXT)
    && |r.headers| <= MAX_HEADERS
    && (forall i :: 0 <= i < |r.headers| ==> r.headers[i] != "" && FormedLine(r.headers[i], MAX_HEADER_LEN - 1))
    && |r.body| < MAX_BODY_LEN
  }

  function HeaderLines(headers: seq<string>): string {
    if headers == [] then "" else headers[0] + CRLF + HeaderLines(headers[1..])
  }

  function Print(r: Response): string {
    "HTTP/1.1 " + (Digits(r.status) + (" " + (r.text + (CRLF + (HeaderLines(r.headers) + (CRLF + r.body))))))
  }

  // ---- Lines ----

  lemma {:induction false} LineLenIs(h: string, rest: string, max: nat)
    requires FormedLine(h, max) && EndsLine(Peek(rest))
    ensures LineLen(h + rest, max) == |h|
  {
    if h == "" {
      assert h + rest == rest;
    } else {
      assert (h + rest)[1..] == h[1..] + rest;
      assert !EndsLine(h[0]);
      LineLenIs(h[1..], rest, max - 1);
    }
  }

  lemma SkipCrlf(t: string)
    ensures SkipEol(CRLF + t) == t
  {
    assert (CRLF + t)[1..] == "\n" + t;
    assert ("\n" + t)[1..] == t;
  }

  // ---- The content length of a header line does not depend on what follows the line ----

  lemma {:induction false} StartsCiLine(h: string, rest: string, prefix: string)
    requires Peek(rest) == '\r'
    requires forall i :: 0 <= i < |prefix| ==> prefix[i] != '\r'
    ensures StartsCi(h + rest, prefix) == StartsCi(h, prefix)
    decreases |prefix|
  {
    if prefix == "" {
    } else if h == "" {
      assert h + rest == rest;
      assert LowerChar(prefix[0]) != '\r';
    } else {
      assert (h + rest)[1..] == h[1..] + rest;
      StartsCiLine(h[1..], rest, prefix[1..]);
    }
  }

  /** A text that starts with a prefix holds the characters of the prefix that have no case. */
  lemma {:induction false} StartsHas(h: string, prefix: string, k: nat)
    requires StartsCi(h, prefix) && k < |prefix| && !IsAlpha(prefix[k])
    ensures k < |h| && h[k] == prefix[k]
    decreases |prefix|
  {
    if k > 0 {
      StartsHas(h[1..], prefix[1..], k - 1);
    }
  }

  lemma {:induction false} SkipToLine(h: string, rest: string, c: char)
    requires c in h && forall i :: 0 <= i < |h| ==> h[i] != '\0'
    ensures SkipTo(h + rest, c) == SkipTo(h, c) + rest && Peek(SkipTo(h, c)) == c && SkipTo(h, c) != ""
  {
    if h[0] != c {
      assert (h + rest)[1..] == h[1..] + rest;
      SkipToLine(h[1..], rest, c);
    }
  }

  lemma {:induction false} SkipSpacesLine(u: string, rest: string)
    requires Peek(rest) == '\r'
    ensures SkipSpaces(u + rest) == SkipSpaces(u) + rest
  {
    if u == "" {
      assert u + rest == rest;
    } else if u[0] == ' ' {
      assert (u + rest)[1..] == u[1..] + rest;
      SkipSpacesLine(u[1..], rest);
    }
  }

  lemma {:induction false} ReadWordLine(u: string, rest: string, n: nat)
    requires !IsDigit(Peek(rest))
    ensures ReadWord(u + rest, n) == ReadWord(u, n)
  {
    if u == "" {
      assert u + rest == rest;
    } else if IsDigit(u[0]) {
      assert (u + rest)[1..] == u[1..] + rest;
      ReadWordLine(u[1..], rest, (n * 10 + DigitValue(u[0])) % WORD);
    }
  }

  lemma NameHasColon(h: string)
    requires StartsCi(h, LENGTH_NAME)
    ensures ':' in h
  {
    hide StartsCi;
    StartsHas(h, LENGTH_NAME, 14);
  }

  lemma LengthLine(h: string, rest: string, n: nat)
    requires FormedLine(h, MAX_HEADER_LEN - 1) && Peek(rest) == '\r'
    ensures LengthAfter(h + rest, n) == LengthAfter(h, n)
  {
    hide StartsCi, SkipTo, SkipSpaces, ReadWord;
    StartsCiLine(h, rest, LENGTH_NAME);
    if StartsCi(h, LENGTH_NAME) {
      NameHasColon(h);
      SkipToLine(h, rest, ':');
      var u := SkipTo(h, ':');
      assert (u + rest)[1..] == u[1..] + rest && Peek(u + rest) == ':';
      SkipSpacesLine(u[1..], rest);
      ReadWordLine(SkipSpaces(u[1..]), rest, n);
    }
  }

  // ---- The headers ----

  /** What the header lines make of the content length, one after the other. */
  function LengthOf(headers: seq<string>, n: nat): nat {
    if headers == [] then n else LengthOf(headers[1..], LengthAfter(headers[0], n))
  }

  predicate FormedHeaders(headers: seq<string>) {
    forall i :: 0 <= i < |headers| ==> headers[i] != "" && FormedLine(headers[i], MAX_HEADER_LEN - 1)
  }

  lemma {:induction false} HeadersRead(headers: seq<string>, body: string, count: nat, n: nat)
    requires FormedHeaders(headers) && count + |headers| <= MAX_HEADERS
    ensures Headers(HeaderLines(headers) + (CRLF + body), count, n) == (headers, LengthOf(headers, n), CRLF + body)
    decreases |headers|
  {
    hide Headers, LengthAfter, FormedLine;
    if headers == [] {
      assert HeaderLines(headers) + (CRLF + body) == CRLF + body;
      HeadersEnd(body, count, n);
    } else {
      var h, rest := headers[0], HeaderLines(headers[1..]) + (CRLF + body);
      FirstLine(h, HeaderLines(headers[1..]), CRLF + body);
      HeaderRead(h, rest, count, n);
      HeadersRead(headers[1..], body, count + 1, LengthAfter(h, n));
      assert headers == [h] + headers[1..];
    }
  }

  lemma HeadersEnd(body: string, count: nat, n: nat)
    ensures Headers(CRLF + body, count, n) == ([], n, CRLF + body)
  {
    assert Peek(CRLF + body) == '\r';
  }

  lemma FirstLine(h: string, lines: string, rest: string)
    ensures h + CRLF + lines + rest == h + (CRLF + (lines + rest))
  {
  }

  lemma HeaderRead(h: string, rest: string, count: nat, n: nat)
    requires h != "" && FormedLine(h, MAX_HEADER_LEN - 1) && count < MAX_HEADERS
    ensures var r := Headers(rest, count + 1, LengthAfter(h, n));
      Headers(h + (CRLF + rest), count, n) == ([h] + r.0, r.1, r.2)
  {
    hide LengthAfter, LineLen, SkipEol;
    var t := h + (CRLF + rest);
    assert Peek(t) == h[0];
    LineLenIs(h, CRLF + rest, MAX_HEADER_LEN - 1);
    assert t[|h|..] == CRLF + rest && t[..|h|] == h;
    SkipCrlf(rest);
    LengthLine(h, CRLF + rest, n);
  }

  // ---- The whole response ----

  lemma {:induction false} SkipToIn(a: string, c: char, t: string)
    requires forall i :: 0 <= i < |a| ==> a[i] != c && a[i] != '\0'
    requires c != '\0'
    ensures SkipTo(a + ([c] + t), c) == [c] + t
  {
    if a == "" {
      assert a + ([c] + t) == [c] + t;
    } else {
      assert (a + ([c] + t))[1..] == a[1..] + ([c] + t);
      SkipToIn(a[1..], c, t);
    }
  }

  lemma StatusRead(status: nat, t: string)
    ensures ReadNum(Digits(status) + (" " + t), 0) == (status, " " + t)
  {
    ReadDigits(status, " " + t);
    assert (" " + t)[0] == ' ';
  }

  /** Parsing a printed response gives back the status, the text, the headers and the body, NULs in the body included;
      only a response of less than sixteen characters in all is refused. */
  lemma ParsePrinted(r: Response)
    requires Formed(r)
    ensures Parse(Print(r)) == if |Print(r)| < MIN_RAW then None else Some(r.(contentLength := LengthOf(r.headers, 0)))
  {
    hide Digits, ReadNum, SkipTo, LineLen, Headers, SkipEol, HeaderLines, LengthOf;
    var body := CRLF + r.body;
    var lines := HeaderLines(r.headers) + body;
    var line := r.text + (CRLF + lines);
    var number := Digits(r.status) + (" " + line);
    assert Print(r) == "HTTP/1.1" + ([' '] + number) by {
      assert "HTTP/1.1 " == "HTTP/1.1" + [' '];
    }
    SkipToIn("HTTP/1.1", ' ', number);
    assert ([' '] + number)[1..] == number;
    StatusRead(r.status, line);
    assert (" " + line)[1..] == line;
    LineLenIs(r.text, CRLF + lines, MAX_TEXT);
    assert line[|r.text|..] == CRLF + lines && line[..|r.text|] == r.text;
    SkipCrlf(lines);
    HeadersRead(r.headers, r.body, 0, 0);
    SkipCrlf(r.body);
  }

  // ---- The content length ----

  /** A header that carries a content length: its name in any case, spaces, the number, and no digit behind it. */
  predicate CarriesLength(h: string, name: string, spaces: string, n: nat, tail: string) {
    && h == name + (":" + (spaces + (Digits(n) + tail)))
    && StartsCi(h, LENGTH_NAME) && |name| == 14
    && (forall i :: 0 <= i < |name| ==> name[i] != ':' && name[i] != '\0')
    && (forall i :: 0 <= i < |spaces| ==> spaces[i] == ' ')
    && !IsDigit(Peek(tail))
  }

  lemma {:induction false} ReadWordDigits(n: nat, rest: string, m: nat)
    ensures ReadWord(Digits(n) + rest, m) == ReadWord(rest, (m * Power(|Digits(n)|) + n) % WORD)
  {
    if n < 10 {
      assert ([DigitChar(n)] + rest)[1..] == rest;
    } else {
      var last := [DigitChar(n % 10)];
      assert Digits(n) + rest == Digits(n / 10) + (last + rest);
      ReadWordDigits(n / 10, last + rest, m);
      assert (last + rest)[1..] == rest;
      var a := m * Power(|Digits(n / 10)|) + n / 10;
      assert |Digits(n)| == |Digits(n / 10)| + 1;
      PowerNext(m, |Digits(n / 10)|);
      DigitCarried(a, n % 10);
      assert a * 10 + n % 10 == m * Power(|Digits(n)|) + n;
    }
  }

  function Power(k: nat): nat {
    if k == 0 then 1 else 10 * Power(k - 1)
  }

  lemma PowerNext(m: nat, k: nat)
    ensures m * Power(k + 1) == m * Power(k) * 10
  {
  }

  lemma {:induction false} SpacesSkipped(spaces: string, t: string)
    requires (forall i :: 0 <= i < |spaces| ==> spaces[i] == ' ') && Peek(t) != ' '
    ensures SkipSpaces(spaces + t) == t
  {
    if spaces == "" {
      assert spaces + t == t;
    } else {
      assert (spaces + t)[1..] == spaces[1..] + t;
      SpacesSkipped(spaces[1..], t);
    }
  }

  /** One more content-length header appends its digits to the value so far. */
  lemma LengthAppends(h: string, name: string, spaces: string, n: nat, tail: string, m: nat)
    requires CarriesLength(h, name, spaces, n, tail)
    ensures LengthAfter(h, m) == (m * Power(|Digits(n)|) + n) % WORD
  {
    hide StartsCi, SkipTo, SkipSpaces, ReadWord, Digits, Power;
    var digits := Digits(n) + tail;
    SkipToIn(name, ':', spaces + digits);
    assert ([':'] + (spaces + digits))[1..] == spaces + digits;
    assert digits[0] == Digits(n)[0];
    SpacesSkipped(spaces, digits);
    ReadWordDigits(n, tail, m);
    WordEnds(tail, (m * Power(|Digits(n)|) + n) % WORD);
  }

  lemma WordEnds(t: string, n: nat)
    requires !IsDigit(Peek(t))
    ensures ReadWord(t, n) == n
  {
  }

  lemma {:induction false} NoLength(headers: seq<string>, n: nat)
    requires forall i :: 0 <= i < |headers| ==> !StartsCi(headers[i], LENGTH_NAME)
    ensures LengthOf(headers, n) == n
    decreases |headers|
  {
    hide StartsCi;
    if headers != [] {
      NoLength(headers[1..], n);
    }
  }

  lemma {:induction false} LengthSplit(a: seq<string>, b: seq<string>, n: nat)
    ensures LengthOf(a + b, n) == LengthOf(b, LengthOf(a, n))
    decreases |a|
  {
    hide LengthAfter;
    if a == [] {
      assert a + b == b;
    } else {
      assert (a + b)[1..] == a[1..] + b;
      LengthSplit(a[1..], b, LengthAfter(a[0], n));
    }
  }

  /** With a single content-length header the parsed length is its number, in 32 bits. */
  lemma SingleLength(before: seq<string>, h: string, after: seq<string>, name: string, spaces: string, n: nat, tail: string)
    requires CarriesLength(h, name, spaces, n, tail)
    requires forall g :: g in before || g in after ==> !StartsCi(g, LENGTH_NAME)
    ensures LengthOf(before + [h] + after, 0) == n % WORD
  {
    hide StartsCi, LengthAfter, CarriesLength, LengthOf;
    LengthSplit(before + [h], after, 0);
    LengthSplit(before, [h], 0);
    NoLength(before, 0);
    LengthOne(h, 0);
    LengthAppends(h, name, spaces, n, tail, 0);
    NoLength(after, n % WORD);
  }

  lemma LengthOne(h: string, n: nat)
    ensures LengthOf([h], n) == LengthAfter(h, n)
  {
    hide LengthAfter;
    assert [h][1..] == [];
  }

  /** A second content-length header does not replace the first one: its digits are appended to it. The two may differ
      in letter case, spaces and what follows the number, and stand anywhere between other headers. */
  lemma LengthsRunTogether(before: seq<string>, g: string, between: seq<string>, h: string, after: seq<string>,
    name: string, spaces: string, n: nat, tail: string, name': string, spaces': string, m: nat, tail': string)
    requires CarriesLength(g, name, spaces, n, tail) && CarriesLength(h, name', spaces', m, tail') && n < WORD
    requires forall o :: o in before || o in between || o in after ==> !StartsCi(o, LENGTH_NAME)
    ensures LengthOf(before + [g] + between + [h] + after, 0) == (n * Power(|Digits(m)|) + m) % WORD
  {
    hide StartsCi, LengthAfter, CarriesLength, LengthOf, Power, Digits;
    LengthSplit(before + [g] + between + [h], after, 0);
    LengthSplit(before + [g] + between, [h], 0);
    LengthSplit(before + [g], between, 0);
    LengthSplit(before, [g], 0);
    NoLength(before, 0);
    LengthOne(g, 0);
    LengthAppends(g, name, spaces, n, tail, 0);
    NoLength(between, n);
    LengthOne(h, n);
    LengthAppends(h, name', spaces', m, tail', n);
    NoLength(after, (n * Power(|Digits(m)|) + m) % WORD);
  }

  function Twice(n: nat, k: nat): nat
    decreases k
  {
    if k == 0 then n else Twice(2 * n, k - 1)
  }

  /** That is the second number, in 32 bits, exactly when the first one, doubled once for each digit of the second, is a
      multiple of 2^32: for a first number below 2^22 before one of at most ten digits, only when it is 0. */
  lemma LastLengthIff(n: nat, m: nat)
    ensures (n * Power(|Digits(m)|) + m) % WORD == m % WORD <==> Twice(n, |Digits(m)|) % WORD == 0
    ensures n < 0x40_0000 && |Digits(m)| <= 10 ==> (Twice(n, |Digits(m)|) % WORD == 0 <==> n == 0)
  {
    hide Digits, Power, Twice;
    SumIff(n * Power(|Digits(m)|), m);
    TensAreTwos(n, |Digits(m)|);
    if n < 0x40_0000 && |Digits(m)| <= 10 {
      TenTimes(n);
      TwiceBelow(n, |Digits(m)|, 10);
    }
  }

  lemma SumIff(a: nat, m: nat)
    ensures (a + m) % WORD == m % WORD <==> a % WORD == 0
  {
  }

  /** Factors of five do not matter for powers of two. */
  lemma {:induction false} TensAreTwos(n: nat, k: nat)
    ensures n * Power(k) % WORD == 0 <==> Twice(n, k) % WORD == 0
    decreases k
  {
    if k > 0 {
      assert n * Power(k) == 5 * ((2 * n) * Power(k - 1));
      FiveTimes((2 * n) * Power(k - 1));
      TensAreTwos(2 * n, k - 1);
    }
  }

  lemma FiveTimes(x: nat)
    ensures 5 * x % WORD == 0 <==> x % WORD == 0
  {
    if 5 * x % WORD == 0 {
      var q := 5 * x / WORD;
      assert x == WORD * (3435973837 * q - 4 * x);
      MultipleIsZero(x, 3435973837 * q - 4 * x);
    } else if x % WORD == 0 {
      MultipleIsZero(5 * x, 5 * (x / WORD));
    }
  }

  lemma MultipleIsZero(x: nat, k: int)
    requires x == WORD * k
    ensures x % WORD == 0
  {
  }

  lemma {:induction false} TwiceBelow(n: nat, k: nat, most: nat)
    requires k <= most
    ensures n <= Twice(n, k) <= Twice(n, most)
    ensures Twice(n, most) < WORD ==> (Twice(n, k) % WORD == 0 <==> n == 0)
    decreases most
  {
    if k > 0 {
      TwiceBelow(2 * n, k - 1, most - 1);
    } else if most > 0 {
      TwiceBelow(2 * n, 0, most - 1);
    }
  }

  lemma TenTimes(n: nat)
    ensures Twice(n, 10) == 1024 * n
  {
    assert Twice(n, 10) == Twice(4 * n, 8);
    assert Twice(4 * n, 8) == Twice(16 * n, 6);
    assert Twice(16 * n, 6) == Twice(64 * n, 4);
    assert Twice(64 * n, 4) == Twice(256 * n, 2);
    assert Twice(256 * n, 2) == 1024 * n;
  }
}
