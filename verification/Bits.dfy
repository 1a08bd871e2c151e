/** Bitwise operations on non-negative integers, and what they mean arithmetically. */
module Bits {

  type Byte = x: nat | x < 256

  function Pow2(k: nat): (p: nat)
    ensures p > 0
  {
    if k == 0 then 1 else 2 * Pow2(k - 1)
  }

  /** Bitwise conjunction. */
  function BitAnd(x: nat, y: nat): nat {
    if x == 0 || y == 0 then 0 else 2 * BitAnd(x / 2, y / 2) + (if x % 2 == 1 && y % 2 == 1 then 1 else 0)
  }

  /** Bitwise disjunction. */
  function BitOr(x: nat, y: nat): nat
    decreases x + y
  {
    if x == 0 then y else if y == 0 then x
    else 2 * BitOr(x / 2, y / 2) + (if x % 2 == 1 || y % 2 == 1 then 1 else 0)
  }

  lemma {:induction false} Pow2Add(a: nat, b: nat)
    ensures Pow2(a + b) == Pow2(a) * Pow2(b)
  {
    if a > 0 { Pow2Add(a - 1, b); }
  }

  /** The powers of two that word sizes and limb sizes are made of. */
  lemma Pow2Values()
    ensures Pow2(1) == 2 && Pow2(2) == 4 && Pow2(6) == 64 && Pow2(8) == 256 && Pow2(12) == 0x1000
    ensures Pow2(14) == 0x4000 && Pow2(16) == 0x1_0000 && Pow2(18) == 0x4_0000 && Pow2(20) == 0x10_0000
    ensures Pow2(24) == 0x100_0000 && Pow2(26) == 0x400_0000 && Pow2(28) == 0x1000_0000
    ensures Pow2(32) == 0x1_0000_0000
  {
    Pow2Add(1, 1); Pow2Add(2, 2); Pow2Add(2, 4); Pow2Add(4, 4); Pow2Add(4, 8); Pow2Add(2, 12);
    Pow2Add(8, 8); Pow2Add(2, 16); Pow2Add(4, 16); Pow2Add(8, 16); Pow2Add(2, 24); Pow2Add(4, 24);
    Pow2Add(16, 16);
  }

  lemma {:induction false} BitAndSelf(x: nat)
    ensures BitAnd(x, x) == x
  {
    if x != 0 { BitAndSelf(x / 2); }
  }

  lemma AndStep(x: nat, y: nat)
    ensures BitAnd(x, y) == 2 * BitAnd(x / 2, y / 2) + (if x % 2 == 1 && y % 2 == 1 then 1 else 0)
  {
  }

  /** A mask of `k` ones keeps the low `k` bits. */
  lemma {:induction false} AndOnes(x: nat, k: nat)
    ensures BitAnd(x, Pow2(k) - 1) == x % Pow2(k)
    decreases k
  {
    if k == 0 {
      AndZero(x);
    } else {
      hide BitAnd;
      var p := Pow2(k - 1);
      assert Pow2(k) == 2 * p;
      hide Pow2;
      AndOnes(x / 2, k - 1);
      AndStep(x, 2 * p - 1);
      HalveMod(x, p);
      assert (2 * p - 1) / 2 == p - 1 && (2 * p - 1) % 2 == 1;
    }
  }

  lemma AndZero(x: nat)
    ensures BitAnd(x, 0) == 0 && BitOr(x, 0) == x && BitOr(0, x) == x
  {
  }

  lemma HalveMod(x: nat, p: nat)
    requires p > 0
    ensures x % (2 * p) == 2 * ((x / 2) % p) + x % 2
    ensures x / (2 * p) == (x / 2) / p
  {
    var q, r := (x / 2) / p, (x / 2) % p;
    assert x / 2 == q * p + r;
    assert q * (2 * p) == 2 * (q * p);
    DivModUnique(x, 2 * p, q, 2 * r + x % 2);
  }

  lemma MulAtLeast(a: int, d: int)
    requires a >= 1 && d > 0
    ensures a * d >= d
  {
  }

  lemma DivModUnique(x: int, d: int, q: int, r: int)
    requires d > 0 && 0 <= r < d && x == q * d + r
    ensures x / d == q && x % d == r
  {
    var q', r' := x / d, x % d;
    assert x == q' * d + r';
    assert (q - q') * d == q * d - q' * d;
    assert (q' - q) * d == q' * d - q * d;
    if q > q' { MulAtLeast(q - q', d); }
    if q < q' { MulAtLeast(q' - q, d); }
  }

  /** A conjunction splits at any bit position. */
  lemma {:induction false} AndSplit(k: nat, q: nat, r: nat, hi: nat, lo: nat)
    requires r < Pow2(k) && lo < Pow2(k)
    ensures BitAnd(q * Pow2(k) + r, hi * Pow2(k) + lo) == BitAnd(q, hi) * Pow2(k) + BitAnd(r, lo)
    decreases k
  {
    hide BitAnd;
    if k == 0 {
      AndZero(r);
    } else {
      var p := Pow2(k - 1);
      AndSplit(k - 1, q, r / 2, hi, lo / 2);
      MulDouble(q, p);
      MulDouble(hi, p);
      MulDouble(BitAnd(q, hi), p);
      AndDouble(q * p + r / 2, r % 2, hi * p + lo / 2, lo % 2);
      AndDouble(r / 2, r % 2, lo / 2, lo % 2);
    }
  }

  lemma MulDouble(a: nat, b: nat)
    ensures a * (2 * b) == 2 * (a * b) && a * b >= 0
  {
  }

  lemma AndDouble(x: nat, b: nat, y: nat, c: nat)
    requires b < 2 && c < 2
    ensures BitAnd(2 * x + b, 2 * y + c) == 2 * BitAnd(x, y) + (if b == 1 && c == 1 then 1 else 0)
  {
    AndStep(2 * x + b, 2 * y + c);
  }

  /** A disjunction of numbers without common bits is their sum. */
  lemma {:induction false} OrDisjoint(a: nat, b: nat, k: nat)
    requires a < Pow2(k)
    ensures BitOr(a, b * Pow2(k)) == a + b * Pow2(k)
    decreases k
  {
    if k > 0 && a > 0 && b > 0 {
      var p := Pow2(k - 1);
      assert b * Pow2(k) == 2 * (b * p);
      OrDisjoint(a / 2, b, k - 1);
    }
  }

  /** Dividing by a product is dividing twice. */
  lemma DivModTwice(x: nat, a: nat, b: nat)
    requires a > 0 && b > 0
    ensures a * b > 0 && x % (a * b) == x % a + a * (x / a % b) && x / (a * b) == x / a / b
  {
    var q, r, s := x / a / b, x / a % b, x % a;
    assert x == a * (x / a) + s;
    assert x / a == q * b + r;
    MulRegroup(a, b, q, r);
    MulBelow(a, r, b);
    DivModUnique(x, a * b, q, s + a * r);
  }

  lemma MulRegroup(a: nat, b: nat, q: nat, r: nat)
    ensures a * (q * b + r) == q * (a * b) + a * r
  {
  }

  lemma MulBelow(a: nat, r: nat, b: nat)
    requires a > 0 && r < b
    ensures 0 <= a * r && a * r + a <= a * b
  {
    MulAtLeast(b - r, a);
    MulSplit(a, r, b - r);
  }

  lemma MulSplit(a: nat, r: nat, t: nat)
    ensures a * (r + t) == a * r + t * a && a * r >= 0
  {
  }
}
