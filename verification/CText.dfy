/** C strings: a pointer into a text is modelled by the characters from the pointer up to the
    terminating NUL, so `p++` is `p[1..]`, `*p == 0` is `p == ""`, and a test against a literal
    prefix is Dafny's prefix order on strings. */
module CText {

  predicate IsDigit(c: char) {
    '0' <= c <= '9'
  }

  predicate IsAlpha(c: char) {
    'a' <= c <= 'z' || 'A' <= c <= 'Z' || c == '_'
  }

  predicate IsAlnum(c: char) {
    IsAlpha(c) || IsDigit(c)
  }

  predicate IsBlank(c: char) {
    c == ' ' || c == '\t'
  }

  predicate AllBlank(t: string) {
    forall i | 0 <= i < |t| :: IsBlank(t[i])
  }

  /** At most n characters of the text. */
  function Take(t: string, n: nat): (r: string)
    ensures |r| <= n
  {
    if |t| <= n then t else t[..n]
  }

  function SkipSpaces(t: string): (r: string)
    ensures |r| <= |t|
    ensures r != "" ==> r[0] != ' '
    ensures t != "" && t[0] == ' ' ==> |r| < |t|
  {
    if t != "" && t[0] == ' ' then SkipSpaces(t[1..]) else t
  }

  function SkipWs(t: string): (r: string)
    ensures |r| <= |t|
    ensures r != "" ==> !IsBlank(r[0])
  {
    if t != "" && IsBlank(t[0]) then SkipWs(t[1..]) else t
  }

  method SkipBlanks(t: string) returns (p: string)
    ensures p == SkipWs(t)
  {
    p := t;
    while p != "" && IsBlank(p[0])
      invariant SkipWs(t) == SkipWs(p)
      decreases |p|
    {
      p := p[1..];
    }
  }

  lemma {:induction false} SkipPad(pad: string, t: string)
    requires AllBlank(pad)
    ensures SkipWs(pad + t) == SkipWs(t)
  {
    if pad == "" {
      assert pad + t == t;
    } else {
      assert (pad + t)[1..] == pad[1..] + t;
      SkipPad(pad[1..], t);
    }
  }

  /** The decimal value of a digit, and back. */
  function DigitValue(c: char): int {
    c as int - '0' as int
  }

  function DigitChar(d: nat): (c: char)
    requires d < 10
    ensures IsDigit(c) && DigitValue(c) == d
  {
    ('0' as int + d) as char
  }

  function Digits(n: nat): (t: string)
    ensures t != "" && forall i | 0 <= i < |t| :: IsDigit(t[i])
  {
    if n < 10 then [DigitChar(n)] else Digits(n / 10) + [DigitChar(n % 10)]
  }

  function Itoa(n: int): string {
    if n < 0 then "-" + Digits(-n) else Digits(n)
  }

  /** Reads a run of digits, accumulating into n. */
  function ReadNum(t: string, n: int): (r: (int, string))
    ensures |r.1| <= |t|
  {
    if t != "" && IsDigit(t[0]) then ReadNum(t[1..], n * 10 + DigitValue(t[0])) else (n, t)
  }

  /** Reading a printed number, whatever follows, carries on with its value accumulated. */
  lemma {:induction false} ReadDigits(n: nat, rest: string)
    ensures ReadNum(Digits(n) + rest, 0) == ReadNum(rest, n)
  {
    if n < 10 {
      assert ([DigitChar(n)] + rest)[1..] == rest;
    } else {
      var last := [DigitChar(n % 10)];
      assert Digits(n) + rest == Digits(n / 10) + (last + rest);
      ReadDigits(n / 10, last + rest);
      assert (last + rest)[1..] == rest;
    }
  }

  // ---- case-insensitive comparison ----

  function UpperChar(c: char): char {
    if 'a' <= c <= 'z' then (c as int - 32) as char else c
  }

  function Upper(t: string): (u: string)
    ensures |u| == |t|
  {
    if t == "" then "" else [UpperChar(t[0])] + Upper(t[1..])
  }

  /** The comparison loop shared by the file system and MAKE: zero exactly for texts that agree up to
      letter case. */
  method StrCmp(a: string, b: string) returns (d: int)
    ensures d == 0 <==> Upper(a) == Upper(b)
  {
    var i := 0;
    while i < |a| && i < |b|
      invariant i <= |a| && i <= |b|
      invariant Upper(a) == Upper(b) <==> Upper(a[i..]) == Upper(b[i..])
    {
      var ca, cb := UpperChar(a[i]), UpperChar(b[i]);
      assert Upper(a[i..])[0] == ca && Upper(b[i..])[0] == cb;
      if ca != cb {
        return ca as int - cb as int;
      }
      assert a[i..][1..] == a[i + 1..] && b[i..][1..] == b[i + 1..];
      assert Upper(a[i..])[1..] == Upper(a[i + 1..]) && Upper(b[i..])[1..] == Upper(b[i + 1..]);
      i := i + 1;
    }
    d := if i < |a| || i < |b| then 1 else 0;
  }
}
