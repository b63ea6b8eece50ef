/** Bytes, and 32-bit numbers as four of them, the lowest first. */
module Bytes {
  type byte = n: int | 0 <= n < 256

  /** Unsigned 32-bit arithmetic wraps here. */
  const WORD := 0x1_0000_0000

  /** Reading one more decimal digit may reduce at once. */
  lemma DigitCarried(a: nat, d: nat)
    ensures (a % WORD * 10 + d) % WORD == (a * 10 + d) % WORD
  {
    var q := a / WORD;
    assert a * 10 + d == (a % WORD * 10 + d) + q * 10 * WORD;
  }

  function Bytes4(n: nat): seq<byte> {
    [n % 256, n / 256 % 256, n / 256 / 256 % 256, n / 256 / 256 / 256 % 256]
  }

  function Number4(a: byte, b: byte, c: byte, d: byte): nat {
    a as int + 0x100 * b as int + 0x1_0000 * c as int + 0x100_0000 * d as int
  }

  lemma NumberReads(n: nat)
    requires n < WORD
    ensures var t := Bytes4(n); Number4(t[0], t[1], t[2], t[3]) == n
  {
    Lowest(n);
    Lowest(n / 256);
    Lowest(n / 256 / 256);
  }

  lemma Lowest(n: nat)
    ensures n == n % 256 + 256 * (n / 256)
  {
  }
}
