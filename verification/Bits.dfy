/** Bytes, and the most-significant-bit-first order in which the driver shifts them. */
module Bits {

  type byte = x: int | 0 <= x < 256

  function Pow2(n: nat): (p: nat)
    ensures p >= 1
  {
    if n == 0 then 1 else 2 * Pow2(n - 1)
  }

  /** The C expression `(value >> i) & 1`. */
  predicate BitAt(value: nat, i: nat) {
    value / Pow2(i) % 2 == 1
  }

  /** The low `len` bits of `value`, highest first. */
  function MsbFirst(value: nat, len: nat): (bits: seq<bool>)
    ensures |bits| == len
  {
    if len == 0 then [] else [BitAt(value, len - 1)] + MsbFirst(value, len - 1)
  }

  /** The number a most-significant-first bit string denotes. */
  function Number(bits: seq<bool>): (n: nat)
    ensures n < Pow2(|bits|)
  {
    if bits == [] then 0
    else (if bits[0] then Pow2(|bits| - 1) else 0) + Number(bits[1..])
  }

  lemma SmallPowers()
    ensures Pow2(0) == 1 && Pow2(1) == 2 && Pow2(2) == 4 && Pow2(3) == 8 && Pow2(4) == 16
    ensures Pow2(8) == 256
  {
    assert Pow2(4) == 16;
    assert Pow2(6) == 64;
  }

  lemma Pow2Monotone(m: nat, n: nat)
    requires m <= n
    ensures Pow2(m) <= Pow2(n)
    decreases n
  {
    if m < n {
      Pow2Monotone(m, n - 1);
    }
  }

  /** Splitting off one binary digit: v mod 2p is the digit at p plus v mod p. */
  lemma SplitDigit(v: nat, p: nat)
    requires p > 0
    ensures v % (2 * p) == v / p % 2 * p + v % p
  {
    var q, r := v / p, v % p;
    var k, b := q / 2, q % 2;
    calc {
      v;
      q * p + r;
      { assert q == 2 * k + b; }
      (2 * k + b) * p + r;
      (2 * p) * k + (b * p + r);
    }
    assert 0 <= b * p + r < 2 * p by {
      if b == 0 {
        assert b * p == 0;
      } else {
        assert b * p == p;
      }
    }
    ModUnique(v, 2 * p, k, b * p + r);
  }

  lemma ModUnique(v: int, d: int, q: int, r: int)
    requires 0 <= r < d && v == d * q + r
    ensures v % d == r
  {
    var k := q - v / d;
    assert d * k == v % d - r by {
      assert d * k == d * q - d * (v / d);
    }
    if k >= 1 {
      AtLeastOnce(d, k);
    } else if k <= -1 {
      AtLeastOnce(d, -k);
    }
  }

  lemma AtLeastOnce(d: int, k: int)
    requires d > 0 && k >= 1
    ensures d * k >= d
  {
    assert d * k == d * (k - 1) + d;
  }

  /** Shifting a value out and reading the wire as a number gives the value back, cut to `len` bits. */
  lemma {:induction false} ShiftRoundTrip(value: nat, len: nat)
    ensures Number(MsbFirst(value, len)) == value % Pow2(len)
  {
    if len == 0 {
    } else {
      ShiftRoundTrip(value, len - 1);
      var bits := MsbFirst(value, len);
      assert bits[1..] == MsbFirst(value, len - 1);
      SplitDigit(value, Pow2(len - 1));
    }
  }
}
