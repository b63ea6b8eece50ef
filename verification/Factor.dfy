/** The FACTOR command: trial division in 32-bit arithmetic. */
module Factor {
  import opened Bytes
  import opened CText
  import opened TextFacts

  predicate Divides(d: nat, n: nat)
    requires d > 0
  {
    n % d == 0
  }

  predicate Prime(p: nat) {
    p >= 2 && forall k | 2 <= k < p :: !Divides(k, p)
  }

  function Product(s: seq<nat>): nat {
    if s == [] then 1 else s[0] * Product(s[1..])
  }

  /** A non-decreasing list of primes. */
  predicate PrimeList(s: seq<nat>) {
    (forall i | 0 <= i < |s| :: Prime(s[i])) && forall i, j | 0 <= i < j < |s| :: s[i] <= s[j]
  }

  // ---- divisibility ----

  lemma Quotient(d: nat, n: nat) returns (q: nat)
    requires d > 0 && Divides(d, n)
    ensures n == d * q && q == n / d
  {
    q := n / d;
  }

  lemma Grows(d: int, k: int)
    requires d > 0
    ensures (k > 0 ==> d * k >= d) && (k < 0 ==> d * k <= -d)
  {
  }

  lemma DivisionUnique(n: nat, d: nat, q: nat, r: nat)
    requires d > 0 && n == d * q + r && r < d
    ensures n / d == q && n % d == r
  {
    var k := n / d - q;
    assert d * k == r - n % d;
    Grows(d, k);
  }

  lemma MultipleDivides(d: nat, q: nat)
    requires d > 0
    ensures Divides(d, d * q)
  {
    DivisionUnique(d * q, d, q, 0);
  }

  lemma DividesTransitive(k: nat, d: nat, n: nat)
    requires k > 0 && d > 0 && Divides(k, d) && Divides(d, n)
    ensures Divides(k, n)
  {
    var a := Quotient(k, d);
    var b := Quotient(d, n);
    assert n == k * (a * b) by {
      assert n == (k * a) * b;
    }
    MultipleDivides(k, a * b);
  }

  lemma DividesProduct(k: nat, a: nat, b: nat)
    requires k > 0 && Divides(k, a)
    ensures Divides(k, a * b)
  {
    var q := Quotient(k, a);
    assert a * b == k * (q * b);
    MultipleDivides(k, q * b);
  }

  predicate NoDivisorBelow(n: nat, d: nat) {
    forall k | 2 <= k < d :: !Divides(k, n)
  }

  lemma SmallestIsPrime(n: nat, d: nat)
    requires d >= 2 && Divides(d, n) && NoDivisorBelow(n, d)
    ensures Prime(d)
  {
    forall k | 2 <= k < d
      ensures !Divides(k, d)
    {
      if Divides(k, d) {
        DividesTransitive(k, d, n);
      }
    }
  }

  lemma QuotientKeeps(n: nat, d: nat, below: nat)
    requires n > 0 && d >= 2 && Divides(d, n) && NoDivisorBelow(n, below)
    ensures NoDivisorBelow(n / d, below) && 0 < n / d < n
  {
    var q := Quotient(d, n);
    forall k | 2 <= k < below
      ensures !Divides(k, q)
    {
      assert n == q * d;
      if Divides(k, q) {
        DividesProduct(k, q, d);
      }
    }
    ProperFactor(d, q);
  }

  lemma ProperFactor(d: nat, q: nat)
    requires d >= 2 && d * q > 0
    ensures 0 < q < d * q
  {
    assert q > 0;
    assert d * q >= 2 * q;
  }

  /** Without divisors below d, a number less than d * d is prime. */
  lemma BigIsPrime(n: nat, d: nat)
    requires n >= 2 && d >= 2 && NoDivisorBelow(n, d) && n < d * d
    ensures Prime(n)
  {
    forall k | 2 <= k < n
      ensures !Divides(k, n)
    {
      if Divides(k, n) {
        var m := Quotient(k, n);
        Cofactor(n, k, m);
        if k >= d && m >= d {
          Monotone(k, m, d);
        }
      }
    }
  }

  lemma Cofactor(n: nat, k: nat, m: nat)
    requires n == k * m && 2 <= k < n
    ensures 2 <= m < n && Divides(m, n)
  {
    ProperFactor(k, m);
    assert n == m * k;
    MultipleDivides(m, k);
    assert m == 1 ==> k * m == k;
  }

  lemma Monotone(k: nat, m: nat, d: nat)
    requires k >= d && m >= d
    ensures k * m >= d * d
  {
    assert k * m >= d * m;
    assert d * m >= d * d;
  }

  lemma {:induction false} ProductAppend(s: seq<nat>, p: nat)
    ensures Product(s + [p]) == Product(s) * p
  {
    if s == [] {
      assert [] + [p] == [p];
    } else {
      assert (s + [p])[1..] == s[1..] + [p];
      ProductAppend(s[1..], p);
      assert Product(s) * p == s[0] * (Product(s[1..]) * p);
    }
  }

  // ---- the command ----

  /** The argument: digits accumulated modulo 2^32. */
  method StrToInt(t: string) returns (n: nat)
    ensures n == ReadNumNat(t, 0) % WORD
  {
    n := 0;
    var p := t;
    ghost var exact: nat := 0;
    while p != "" && IsDigit(p[0])
      invariant n == exact % WORD
      invariant ReadNumNat(t, 0) == ReadNumNat(p, exact)
      decreases |p|
    {
      DigitCarried(exact, DigitValue(p[0]));
      exact := exact * 10 + DigitValue(p[0]);
      n := (n * 10 + DigitValue(p[0])) % WORD;
      p := p[1..];
    }
  }

  /** The digits in front, read as a decimal number. */
  lemma {:induction false} ArgumentIs(t: string, rest: string)
    requires AllDigits(t) && (rest != "" ==> !('0' <= rest[0] <= '9'))
    ensures ReadNumNat(t + rest, 0) == Decimal(t)
  {
    hide Decimal;
    ReadNumIs(t, rest);
    SameNumber(t + rest, 0);
  }

  lemma {:induction false} SameNumber(t: string, n: nat)
    ensures ReadNumNat(t, n) == ReadNum(t, n).0
  {
    if t != "" && IsDigit(t[0]) {
      SameNumber(t[1..], n * 10 + DigitValue(t[0]));
    }
  }

  function ReadNumNat(t: string, n: nat): nat {
    if t != "" && IsDigit(t[0]) then ReadNumNat(t[1..], n * 10 + DigitValue(t[0])) else n
  }

  /** The printed factors of a 32-bit number: the loop test squares d modulo 2^32, so for large numbers
      it goes on past the square root, and still ends with the right list. */
  method Factorize(n0: nat) returns (factors: seq<nat>)
    requires n0 < WORD
    ensures PrimeList(factors)
    ensures n0 >= 1 ==> Product(factors) == n0
    ensures n0 == 0 ==> factors == []
  {
    factors := [];
    var n, d := n0, 2;
    while (d * d) % WORD <= n0 && n > 1
      invariant n0 == 0 ==> n == 0 && factors == []
      invariant n0 >= 1 ==> 1 <= n <= n0 && Product(factors) * n == n0
      invariant PrimeList(factors)
      invariant n > 1 ==> 2 <= d <= n && NoDivisorBelow(n, d) && forall i | 0 <= i < |factors| :: factors[i] < d
      decreases if n > 1 then n0 + 1 - d else 0
    {
      n, factors := DivideOut(n0, n, d, factors);
      if n > 1 {
        NextDivisor(n, d);
      }
      d := (d + 1) % WORD;
    }
    if n > 1 {
      RestIsPrime(n0, n, d);
      ProductAppend(factors, n);
      factors := factors + [n];
    }
  }

  /** Leaving the loop early means that d * d exceeds the number, wrapped or not. */
  lemma RestIsPrime(n0: nat, n: nat, d: nat)
    requires 1 < n <= n0 < WORD && d >= 2 && NoDivisorBelow(n, d) && (d * d) % WORD > n0
    ensures Prime(n)
  {
    assert d * d >= (d * d) % WORD;
    BigIsPrime(n, d);
  }

  lemma NextDivisor(n: nat, d: nat)
    requires n > 1 && d >= 2 && NoDivisorBelow(n, d) && !Divides(d, n)
    ensures NoDivisorBelow(n, d + 1) && d + 1 <= n
  {
    assert Divides(n, n) by {
      assert n % n == 0;
    }
  }

  lemma StepOut(n: nat, d: nat, factors: seq<nat>)
    requires n >= 1 && d >= 2 && Divides(d, n) && NoDivisorBelow(n, d)
    ensures Prime(d) && NoDivisorBelow(n / d, d) && 0 < n / d < n
    ensures Product(factors + [d]) * (n / d) == Product(factors) * n
  {
    SmallestIsPrime(n, d);
    QuotientKeeps(n, d, d);
    ProductAppend(factors, d);
    var q := Quotient(d, n);
    var p := Product(factors);
    assert (p * d) * q == p * (d * q);
  }

  /** The inner loop. */
  method DivideOut(n0: nat, start: nat, d: nat, before: seq<nat>) returns (n: nat, factors: seq<nat>)
    requires 1 < start <= n0 && 2 <= d && NoDivisorBelow(start, d)
    requires PrimeList(before) && Product(before) * start == n0 && forall i | 0 <= i < |before| :: before[i] < d
    ensures 1 <= n <= start && NoDivisorBelow(n, d) && !Divides(d, n)
    ensures PrimeList(factors) && Product(factors) * n == n0 && forall i | 0 <= i < |factors| :: factors[i] <= d
  {
    n, factors := start, before;
    while n % d == 0
      invariant 1 <= n <= start && NoDivisorBelow(n, d)
      invariant PrimeList(factors) && Product(factors) * n == n0
      invariant forall i | 0 <= i < |factors| :: factors[i] <= d
      decreases n
    {
      StepOut(n, d, factors);
      factors := factors + [d];
      n := n / d;
    }
  }

  // ---- the list is the factorization ----

  /** A prime that divides a product divides a factor. */
  lemma {:induction false} Euclid(p: nat, a: nat, b: nat)
    requires Prime(p) && Divides(p, a * b) && !Divides(p, a)
    ensures Divides(p, b)
    decreases a
  {
    if a >= p {
      var r, q := a % p, a / p;
      assert a == p * q + r;
      RemainderDivides(p, a, b, q, r);
      Euclid(p, r, b);
    } else if a > 1 {
      var r, q := p % a, p / a;
      assert p == a * q + r;
      assert r != 0 by { assert !Divides(a, p); }
      assert !Divides(p, r) by { SmallNotDivided(p, r); }
      OtherRemainder(p, a, b, q, r);
      Euclid(p, r, b);
    } else {
      assert a == 1 || a == 0;
      assert 0 % p == 0;
      assert 1 * b == b;
    }
  }

  lemma SmallNotDivided(p: nat, r: nat)
    requires 0 < r < p
    ensures !Divides(p, r)
  {
  }

  /** p | a*b with a = p*q + r gives p | r*b; and r is no more divisible than a. */
  lemma RemainderDivides(p: nat, a: nat, b: nat, q: nat, r: nat)
    requires p >= 2 && a == p * q + r && r < p && Divides(p, a * b) && !Divides(p, a)
    ensures Divides(p, r * b) && !Divides(p, r)
  {
    var m := Quotient(p, a * b);
    var k := m - q * b;
    assert r * b == p * k by {
      assert a * b == p * (q * b) + r * b;
    }
    NonNegativeFactor(p, k);
    MultipleDivides(p, k);
    DivisionUnique(a, p, q, r);
    assert r != 0;
    SmallNotDivided(p, r);
  }

  lemma NonNegativeFactor(p: nat, k: int)
    requires p > 0 && p * k >= 0
    ensures k >= 0
  {
    Grows(p, k);
  }

  lemma OtherRemainder(p: nat, a: nat, b: nat, q: nat, r: nat)
    requires p >= 2 && p == a * q + r && Divides(p, a * b)
    ensures Divides(p, r * b)
  {
    var m := Quotient(p, a * b);
    var k := b - m * q;
    assert r * b == p * k by {
      assert r * b == p * b - (a * q) * b;
      assert (a * q) * b == (a * b) * q;
      assert (p * m) * q == p * (m * q);
    }
    NonNegativeFactor(p, k);
    MultipleDivides(p, k);
  }

  /** A prime divides the product of a prime list exactly when it is in the list. */
  lemma {:induction false} PrimeInProduct(p: nat, s: seq<nat>)
    requires Prime(p) && forall i | 0 <= i < |s| :: Prime(s[i])
    ensures Divides(p, Product(s)) <==> p in s
  {
    if p in s {
      var i :| 0 <= i < |s| && s[i] == p;
      MemberDivides(s, i);
    } else if s == [] {
      SmallNotDivided(p, 1);
    } else if Divides(p, Product(s)) {
      assert !Divides(p, s[0]) by { NoOther(p, s[0]); }
      Euclid(p, s[0], Product(s[1..]));
      PrimeInProduct(p, s[1..]);
    }
  }

  lemma NoOther(p: nat, q: nat)
    requires Prime(p) && Prime(q) && p != q
    ensures !Divides(p, q)
  {
    if Divides(p, q) {
      OnlyItself(p, q);
    }
  }

  lemma OnlyItself(p: nat, q: nat)
    requires Prime(p) && Prime(q) && Divides(p, q)
    ensures p == q
  {
    if p > q {
      SmallNotDivided(p, q);
    }
  }

  lemma {:induction false} MemberDivides(s: seq<nat>, i: nat)
    requires i < |s| && s[i] > 0
    ensures Divides(s[i], Product(s))
  {
    if i == 0 {
      MultipleDivides(s[0], Product(s[1..]));
    } else {
      MemberDivides(s[1..], i - 1);
      DividesProduct(s[i], Product(s[1..]), s[0]);
      assert Product(s) == Product(s[1..]) * s[0];
    }
  }

  lemma {:induction false} ProductPositive(s: seq<nat>)
    requires forall i | 0 <= i < |s| :: s[i] > 0
    ensures Product(s) > 0
  {
    if s != [] {
      ProductPositive(s[1..]);
    }
  }

  /** Two prime lists with one product are the same list: FACTOR's output is the prime factorization. */
  lemma {:induction false} FactorizationUnique(a: seq<nat>, b: seq<nat>)
    requires PrimeList(a) && PrimeList(b) && Product(a) == Product(b)
    ensures a == b
    decreases |a|
  {
    if a == [] || b == [] {
      EmptyProduct(if a == [] then b else a);
    } else {
      MemberDivides(a, 0);
      MemberDivides(b, 0);
      PrimeInProduct(a[0], b);
      PrimeInProduct(b[0], a);
      HeadSmallest(a, b[0]);
      HeadSmallest(b, a[0]);
      ProductPositive(a);
      Cancel(a[0], Product(a[1..]), Product(b[1..]));
      FactorizationUnique(a[1..], b[1..]);
      assert a == [a[0]] + a[1..] && b == [b[0]] + b[1..];
    }
  }

  lemma HeadSmallest(s: seq<nat>, x: nat)
    requires PrimeList(s) && x in s
    ensures s[0] <= x
  {
    var i :| 0 <= i < |s| && s[i] == x;
    assert i > 0 ==> s[0] <= s[i];
  }

  lemma Cancel(p: nat, x: nat, y: nat)
    requires p > 0 && p * x == p * y
    ensures x == y
  {
    DivisionUnique(p * x, p, x, 0);
    DivisionUnique(p * y, p, y, 0);
  }

  lemma EmptyProduct(s: seq<nat>)
    requires PrimeList(s) && Product(s) == 1
    ensures s == []
  {
    if s != [] {
      MemberDivides(s, 0);
      SmallNotDivided(s[0], 1);
    }
  }
}
