/** Bytes as bounded integers, and the bitwise operators of Go's unsigned integers as
    functions on naturals, defined bit by bit. */
module Bits {

  type Byte = x: int | 0 <= x < 256
  type Bytes = seq<Byte>

  function Pow2(n: nat): (p: nat)
    ensures p >= 1
  {
    if n == 0 then 1 else 2 * Pow2(n - 1)
  }

  function Or(a: nat, b: nat): nat {
    if a == 0 && b == 0 then 0
    else 2 * Or(a / 2, b / 2) + if a % 2 == 1 || b % 2 == 1 then 1 else 0
  }

  function And(a: nat, b: nat): nat {
    if a == 0 || b == 0 then 0
    else 2 * And(a / 2, b / 2) + if a % 2 == 1 && b % 2 == 1 then 1 else 0
  }

  function Xor(a: nat, b: nat): nat {
    if a == 0 && b == 0 then 0
    else 2 * Xor(a / 2, b / 2) + if a % 2 != b % 2 then 1 else 0
  }

  /** `uint64(v) << s` */
  function Shl64(v: nat, s: nat): nat {
    (v * Pow2(s)) % Pow2(64)
  }

  lemma {:induction false} OrZero(a: nat)
    ensures Or(0, a) == a && Or(a, 0) == a
  {
    if a > 0 {
      OrZero(a / 2);
    }
  }

  lemma {:induction false} OrIsZero(a: nat, b: nat)
    ensures Or(a, b) == 0 <==> a == 0 && b == 0
  {
    if a != 0 || b != 0 {
      OrIsZero(a / 2, b / 2);
    }
  }

  lemma {:induction false} XorIsZero(a: nat, b: nat)
    ensures Xor(a, b) == 0 <==> a == b
  {
    if a != 0 || b != 0 {
      XorIsZero(a / 2, b / 2);
    }
  }

  /** Setting bits above the ones already in use adds them. */
  lemma {:induction false} OrAddsHighBits(a: nat, v: nat, s: nat)
    requires a < Pow2(s)
    ensures Or(a, v * Pow2(s)) == a + v * Pow2(s)
  {
    if s == 0 {
      OrZero(v);
    } else {
      var p := Pow2(s - 1);
      var b := v * p;
      assert v * Pow2(s) == 2 * b;
      OrAddsHighBits(a / 2, v, s - 1);
    }
  }

  lemma AndUnfold(a: nat, b: nat)
    ensures And(a, b) == 2 * And(a / 2, b / 2) + if a % 2 == 1 && b % 2 == 1 then 1 else 0
  {}

  lemma {:induction false} AndLowBits(b: nat, s: nat)
    ensures And(b, Pow2(s) - 1) == b % Pow2(s)
  {
    if s > 0 {
      var p := Pow2(s - 1);
      assert Pow2(s) == 2 * p;
      AndLowBits(b / 2, s - 1);
      hide And, Pow2;
      AndUnfold(b, 2 * p - 1);
      assert (2 * p - 1) / 2 == p - 1 && (2 * p - 1) % 2 == 1;
      ModOfDouble(b, p);
    }
  }

  lemma {:induction false} AndOneBit(b: nat, s: nat)
    ensures And(b, Pow2(s)) == if b / Pow2(s) % 2 == 1 then Pow2(s) else 0
  {
    if s == 0 {
      assert b / 1 == b;
      AndUnfold(b, 1);
    } else {
      var p := Pow2(s - 1);
      assert Pow2(s) == 2 * p;
      AndOneBit(b / 2, s - 1);
      hide And, Pow2;
      AndUnfold(b, 2 * p);
      assert (2 * p) / 2 == p && (2 * p) % 2 == 0;
      DivOfDouble(b, p);
    }
  }

  lemma ModOfSmall(a: nat, m: nat)
    requires a < m
    ensures a % m == a
  {}

  /** The quotient and remainder with `q * m + r == a` are the only ones. */
  lemma DivModUnique(a: int, m: nat, q: int, r: int)
    requires m > 0 && a == q * m + r && 0 <= r < m
    ensures a / m == q && a % m == r
  {
    var d := a / m - q;
    assert a == a / m * m + a % m;
    assert d * m == r - a % m by {
      assert d * m == a / m * m - q * m;
    }
    assert d == 0;
  }

  lemma ModOfDouble(b: nat, p: nat)
    requires p > 0
    ensures b % (2 * p) == 2 * (b / 2 % p) + b % 2
  {
    var h := b / 2;
    var q := h / p;
    assert h == q * p + h % p;
    assert b == q * (2 * p) + (2 * (h % p) + b % 2) by {
      assert q * (2 * p) == 2 * (q * p);
    }
    DivModUnique(b, 2 * p, q, 2 * (h % p) + b % 2);
  }

  lemma DivOfDouble(b: nat, p: nat)
    requires p > 0
    ensures b / 2 / p == b / (2 * p)
  {
    var h := b / 2;
    var q := h / p;
    assert h == q * p + h % p;
    assert b == q * (2 * p) + (2 * (h % p) + b % 2) by {
      assert q * (2 * p) == 2 * (q * p);
    }
    DivModUnique(b, 2 * p, q, 2 * (h % p) + b % 2);
  }
}
