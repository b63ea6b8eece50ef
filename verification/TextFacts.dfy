/** What the C string helpers compute, said without them: positions, digits and the two cases of a letter. */
module TextFacts {
  import opened CText

  // ---- letter case ----

  /** The small and the capital form of one letter. */
  predicate Cases(small: char, capital: char) {
    'a' <= small <= 'z' && 'A' <= capital <= 'Z' && small as int - 'a' as int == capital as int - 'A' as int
  }

  predicate SameLetter(c: char, d: char) {
    c == d || Cases(c, d) || Cases(d, c)
  }

  /** Two texts agree up to letter case. */
  predicate Agree(a: string, b: string) {
    |a| == |b| && forall i | 0 <= i < |a| :: SameLetter(a[i], b[i])
  }

  lemma UpperCharIff(c: char, d: char)
    ensures UpperChar(c) == UpperChar(d) <==> SameLetter(c, d)
  {
  }

  /** Upper-casing two texts makes them equal exactly when they agree up to letter case. */
  lemma {:induction false} UpperIff(a: string, b: string)
    ensures Upper(a) == Upper(b) <==> Agree(a, b)
  {
    if a != "" && b != "" {
      UpperCharIff(a[0], b[0]);
      UpperIff(a[1..], b[1..]);
      assert Upper(a) == [UpperChar(a[0])] + Upper(a[1..]) && Upper(b) == [UpperChar(b[0])] + Upper(b[1..]);
      AgreeStep(a, b);
      HeadsAndTails(UpperChar(a[0]), Upper(a[1..]), UpperChar(b[0]), Upper(b[1..]));
    }
  }

  /** Upper-casing gives the text without small letters that agrees with it. */
  lemma {:induction false} UpperIs(t: string)
    ensures Agree(t, Upper(t)) && forall i | 0 <= i < |t| :: !('a' <= Upper(t)[i] <= 'z')
  {
    if t != "" {
      var u := Upper(t);
      UpperIs(t[1..]);
      assert u[1..] == Upper(t[1..]);
      AgreeStep(t, u);
      assert forall i | 0 < i < |t| :: u[i] == u[1..][i - 1];
    }
  }

  lemma AgreeStep(a: string, b: string)
    requires a != "" && b != ""
    ensures Agree(a, b) <==> SameLetter(a[0], b[0]) && Agree(a[1..], b[1..])
  {
    if SameLetter(a[0], b[0]) && Agree(a[1..], b[1..]) {
      forall i | 0 <= i < |a|
        ensures SameLetter(a[i], b[i])
      {
        assert i > 0 ==> a[i] == a[1..][i - 1] && b[i] == b[1..][i - 1];
      }
    }
  }

  lemma HeadsAndTails(c: char, s: string, d: char, t: string)
    ensures [c] + s == [d] + t <==> c == d && s == t
  {
    if [c] + s == [d] + t {
      assert ([c] + s)[0] == c && ([d] + t)[0] == d;
      assert ([c] + s)[1..] == s && ([d] + t)[1..] == t;
    }
  }

  // ---- cutting and skipping ----

  /** Cutting keeps the front. */
  lemma TakeIsFront(t: string, n: nat)
    ensures Take(t, n) <= t && |Take(t, n)| == if |t| <= n then |t| else n
  {
  }

  /** Skipping drops blanks and tabs at the front and nothing else. */
  lemma {:induction false} SkipWsIs(t: string)
    ensures var k := |t| - |SkipWs(t)|;
      && SkipWs(t) == t[k..] && (forall i | 0 <= i < k :: t[i] == ' ' || t[i] == '\t')
      && (k < |t| ==> t[k] != ' ' && t[k] != '\t')
  {
    if t != "" && IsBlank(t[0]) {
      SkipWsIs(t[1..]);
      var k := |t[1..]| - |SkipWs(t[1..])|;
      assert forall i | 0 < i < 1 + k :: t[i] == t[1..][i - 1];
    }
  }

  lemma {:induction false} SkipSpacesIs(t: string)
    ensures var k := |t| - |SkipSpaces(t)|;
      && SkipSpaces(t) == t[k..] && (forall i | 0 <= i < k :: t[i] == ' ') && (k < |t| ==> t[k] != ' ')
  {
    if t != "" && t[0] == ' ' {
      SkipSpacesIs(t[1..]);
      var k := |t[1..]| - |SkipSpaces(t[1..])|;
      assert forall i | 0 < i < 1 + k :: t[i] == t[1..][i - 1];
    }
  }

  // ---- character classes ----

  /** By their ASCII codes. */
  lemma ClassesAre(c: char)
    ensures var n := c as int;
      && (IsDigit(c) <==> 48 <= n <= 57)
      && (IsAlpha(c) <==> 65 <= n <= 90 || 97 <= n <= 122 || n == 95)
      && (IsAlnum(c) <==> 48 <= n <= 57 || 65 <= n <= 90 || 97 <= n <= 122 || n == 95)
      && (IsBlank(c) <==> n == 32 || n == 9)
  {
  }

  // ---- decimal numbers ----

  /** The number a run of decimal digits stands for. */
  function Decimal(t: string): int {
    if t == "" then 0 else 10 * Decimal(t[..|t| - 1]) + (t[|t| - 1] as int - '0' as int)
  }

  predicate AllDigits(t: string) {
    forall i | 0 <= i < |t| :: '0' <= t[i] <= '9'
  }

  /** A number is printed as the decimal digits that stand for it, without zeros in front. */
  lemma {:induction false} DigitsAre(n: nat)
    ensures var t := Digits(n); Decimal(t) == n && AllDigits(t) && t != "" && (t[0] == '0' ==> n == 0 && t == "0")
  {
    var t := Digits(n);
    if n >= 10 {
      DigitsAre(n / 10);
      assert t[..|t| - 1] == Digits(n / 10) && t[|t| - 1] == DigitChar(n % 10);
    } else {
      assert t[..0] == "" && t == [DigitChar(n)];
    }
  }

  /** Digits are read as the number they stand for, up to what follows. */
  lemma {:induction false} ReadNumCarries(t: string, rest: string)
    requires AllDigits(t)
    ensures ReadNum(t + rest, 0) == ReadNum(rest, Decimal(t))
    decreases |t|
  {
    if t == "" {
      assert t + rest == rest;
    } else {
      var front, last := t[..|t| - 1], [t[|t| - 1]];
      ReadNumCarries(front, last + rest);
      assert t + rest == front + (last + rest) && (last + rest)[1..] == rest;
    }
  }

  lemma ReadNumIs(t: string, rest: string)
    requires AllDigits(t) && (rest != "" ==> !('0' <= rest[0] <= '9'))
    ensures ReadNum(t + rest, 0) == (Decimal(t), rest)
  {
    ReadNumCarries(t, rest);
  }

  /** And a negative one with a minus sign in front. */
  lemma ItoaIs(n: int)
    ensures n >= 0 ==> AllDigits(Itoa(n)) && Decimal(Itoa(n)) == n
    ensures n < 0 ==> Itoa(n)[0] == '-' && AllDigits(Itoa(n)[1..]) && Decimal(Itoa(n)[1..]) == -n
  {
    hide Digits, Decimal;
    DigitsAre(if n < 0 then -n else n);
    assert n < 0 ==> Itoa(n)[1..] == Digits(-n);
  }
}
