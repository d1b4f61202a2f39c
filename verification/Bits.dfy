/** Bitwise operations on unsigned words, as arithmetic. */
module Bits {
  import opened VmTypes

  function Pow2(n: nat): (p: nat)
    ensures p > 0
  {
    if n == 0 then 1 else 2 * Pow2(n - 1)
  }

  /** Bitwise `a & b`. */
  function And(a: nat, b: nat): nat {
    if a == 0 || b == 0 then 0 else (a % 2) * (b % 2) + 2 * And(a / 2, b / 2)
  }

  /** Bitwise `a | b`. */
  function Or(a: nat, b: nat): nat
    decreases a + b
  {
    if a == 0 then b else if b == 0 then a
    else (if a % 2 == 1 || b % 2 == 1 then 1 else 0) + 2 * Or(a / 2, b / 2)
  }

  /** Or-ing in a bit above every bit of `a` adds it. */
  lemma {:induction false} OrTopBit(a: nat, n: nat)
    requires a < Pow2(n)
    ensures Or(a, Pow2(n)) == a + Pow2(n)
  {
    if a > 0 {
      assert Pow2(n) == 2 * Pow2(n - 1);
      OrTopBit(a / 2, n - 1);
    }
  }

  lemma {:induction false} AndLow(a: nat, s: nat)
    ensures And(a, Pow2(s) - 1) == a % Pow2(s)
  {
    if s > 0 {
      AndLow(a / 2, s - 1);
      HalfMod(a, Pow2(s - 1));
      assert (Pow2(s) - 1) / 2 == Pow2(s - 1) - 1;
    }
  }

  lemma HalfMod(a: nat, p: nat)
    requires p > 0
    ensures a % (2 * p) == a % 2 + 2 * (a / 2 % p)
  {
    var q := a / 2 / p;
    assert a / 2 == q * p + a / 2 % p;
    assert a == 2 * (a / 2) + a % 2;
    assert a == q * (2 * p) + (2 * (a / 2 % p) + a % 2) by {
      assert 2 * (q * p) == q * (2 * p);
    }
    ModUnique(a, 2 * p, q, 2 * (a / 2 % p) + a % 2);
  }

  lemma ModUnique(a: nat, m: nat, q: nat, r: nat)
    requires m > 0 && r < m && a == q * m + r
    ensures a % m == r && a / m == q
  {
    var d := a / m;
    assert d < q ==> (d + 1) * m <= q * m;
    assert q < d ==> (q + 1) * m <= d * m;
  }

  /** Masking off the low `s` bits of a `w`-bit word. */
  lemma {:induction false} AndHigh(a: nat, s: nat, w: nat)
    requires s <= w && a < Pow2(w)
    ensures Pow2(s) <= Pow2(w)
    ensures And(a, Pow2(w) - Pow2(s)) == a - a % Pow2(s)
    decreases w
  {
    if s == 0 {
      AndLow(a, w);
      ModUnique(a, Pow2(w), 0, a);
    } else {
      AndHigh(a / 2, s - 1, w - 1);
      HalfMod(a, Pow2(s - 1));
      assert (Pow2(w) - Pow2(s)) / 2 == Pow2(w - 1) - Pow2(s - 1);
      assert (Pow2(w) - Pow2(s)) % 2 == 0;
    }
  }

  lemma Pow2Word()
    ensures Pow2(31) == 0x8000_0000 && Pow2(32) == WORD
  {
    assert Pow2(8) == 256;
    assert Pow2(16) == 0x1_0000;
    assert Pow2(24) == 0x100_0000;
  }
}
