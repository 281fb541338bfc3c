/** Bitwise operators on unsigned words, and when they agree with arithmetic. */
module Bits {
  /** `a | b` */
  function Or(a: nat, b: nat): (r: nat)
    ensures r >= a && r >= b && r <= a + b
    decreases a + b
  {
    if a == 0 then b else if b == 0 then a
    else (if a % 2 == 1 || b % 2 == 1 then 1 else 0) + 2 * Or(a / 2, b / 2)
  }

  function Pow2(k: nat): (r: nat)
    ensures r > 0
  {
    if k == 0 then 1 else 2 * Pow2(k - 1)
  }

  lemma OrStep(a: nat, b: nat)
    ensures Or(a, b) == (if a % 2 == 1 || b % 2 == 1 then 1 else 0) + 2 * Or(a / 2, b / 2)
  {
  }

  lemma OrEven(a: nat, b: nat)
    requires b % 2 == 0
    ensures Or(a, b) == a % 2 + 2 * Or(a / 2, b / 2)
  {
    OrStep(a, b);
  }

  /** `|` adds when the left operand is a multiple of 2^k and the right one is below 2^k. */
  lemma {:induction false} OrDisjoint(a: nat, b: nat, k: nat)
    requires b < Pow2(k)
    ensures Or(a * Pow2(k), b) == a * Pow2(k) + b
    decreases k
  {
    if k > 0 {
      var x := a * Pow2(k - 1);
      Doubled(a, k);
      OrStep(2 * x, b);
      assert (2 * x) / 2 == x && (2 * x) % 2 == 0;
      OrDisjoint(a, b / 2, k - 1);
      assert b == 2 * (b / 2) + b % 2;
    }
  }

  lemma Doubled(a: nat, k: nat)
    requires k > 0
    ensures a * Pow2(k) == 2 * (a * Pow2(k - 1)) && Pow2(k) == 2 * Pow2(k - 1)
  {
  }

  lemma OrOne(v: nat)
    ensures Or(v, 1) == 2 * (v / 2) + 1
  {
    OrStep(v, 1);
  }

  /** Setting bit `k` keeps the bits below it. */
  lemma {:induction false} OrBit(v: nat, k: nat) returns (low: nat, high: nat)
    ensures low < Pow2(k) && v == low + high * Pow2(k)
    ensures Or(v, Pow2(k)) == low + (2 * (high / 2) + 1) * Pow2(k)
    decreases k
  {
    hide *;
    Pow2Half(k);
    if k == 0 {
      low, high := 0, v;
      OrOne(v);
    } else {
      var l, h := OrBit(v / 2, k - 1);
      low, high := v % 2 + 2 * l, h;
      var odd := 2 * (h / 2) + 1;
      Doubled(h, k);
      Doubled(odd, k);
      OrEven(v, Pow2(k));
      Half(v);
    }
  }

  lemma Half(v: nat)
    ensures v == 2 * (v / 2) + v % 2
  {
  }

  lemma Pow2Half(k: nat)
    ensures if k == 0 then Pow2(k) == 1 else Pow2(k) % 2 == 0 && Pow2(k) / 2 == Pow2(k - 1) && Pow2(k) == 2 * Pow2(k - 1)
  {
  }

  lemma Residue128(low: nat, q: nat)
    requires low < 128
    ensures (low + 128 * q) % 128 == low
  {
  }

  lemma Residue256(low: nat, q: nat)
    requires low < 256
    ensures (low + 256 * q) % 256 == low
  {
  }

  lemma Pow2Of7()
    ensures Pow2(7) == 128
  {
    assert Pow2(2) == 4;
    assert Pow2(4) == 16;
    assert Pow2(6) == 64;
  }

  /** The continuation bit, set on a number that is then truncated to a byte. */
  lemma OrContinue(v: nat)
    ensures Or(v, 0x80) % 0x100 == v % 0x80 + 0x80
  {
    hide *;
    Pow2Of7();
    var low, high := OrBit(v, 7);
    Residue128(low, high);
    Residue256(low + 128, high / 2);
  }
}
