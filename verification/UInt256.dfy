/**
256-bit arithmetic on limbs.

A 256-bit number is eight 32-bit words, least significant first; some operations
view it as four 64-bit words.  Each operation is proved against arithmetic on the
number the words stand for, modulo 2^256, and division is proved to be exact on the
range where the bit count does not wrap.
*/
module UInt256 {
  import opened Bits

  const TWO_32: nat := 0x1_0000_0000
  const TWO_64: nat := 0x1_0000_0000_0000_0000
  const TWO_255: nat := 0x8000_0000_0000_0000_0000_0000_0000_0000_0000_0000_0000_0000_0000_0000_0000_0000
  const TWO_256: nat := 0x1_0000_0000_0000_0000_0000_0000_0000_0000_0000_0000_0000_0000_0000_0000_0000_0000

  type Word = x: nat | x < 0x1_0000_0000

  /** The number a sequence of words stands for. */
  function Num(w: seq<Word>): nat {
    if w == [] then 0 else Num(w[..|w| - 1]) + w[|w| - 1] * Pow2(32 * (|w| - 1))
  }

  lemma PowWord(k: nat)
    ensures Pow2(32 * (k + 1)) == Pow2(32 * k) * 0x1_0000_0000
  {
    Pow2Values();
    Pow2Add(32 * k, 32);
  }

  lemma {:induction false} NumBound(w: seq<Word>)
    ensures Num(w) < Pow2(32 * |w|)
  {
    if w != [] {
      var n := |w| - 1;
      NumBound(w[..n]);
      hide Pow2;
      PowWord(n);
      TimesBelow(w[n], Pow2(32 * n));
    }
  }

  lemma TimesBelow(x: nat, p: nat)
    requires x < 0x1_0000_0000 && p > 0
    ensures x * p + p <= p * 0x1_0000_0000
  {
    MulBelow(p, x, 0x1_0000_0000);
  }

  lemma Pow256Bits()
    ensures Pow2(32 * 8) == TWO_256 && Pow2(255) == TWO_255
  {
    hide Pow2;
    Pow2Values();
    Pow2Add(32, 32); Pow2Add(64, 64); Pow2Add(128, 128);
    PowAt(0, 255);
  }

  lemma NumRange(w: seq<Word>)
    requires |w| == 8
    ensures Num(w) < TWO_256
  {
    NumBound(w);
    Pow256Bits();
  }

  lemma SplitTimes(s: nat, p: nat)
    ensures s % 0x1_0000_0000 * p + s / 0x1_0000_0000 * (p * 0x1_0000_0000) == s * p
  {
    var q, r := s / 0x1_0000_0000, s % 0x1_0000_0000;
    assert s == q * 0x1_0000_0000 + r;
    assert (q * 0x1_0000_0000 + r) * p == q * (p * 0x1_0000_0000) + r * p;
  }

  /** a + b modulo 2^256. */
  method Add(a: seq<Word>, b: seq<Word>) returns (r: seq<Word>)
    requires |a| == |b| == 8
    ensures |r| == 8 && Num(r) == (Num(a) + Num(b)) % TWO_256
  {
    hide Num, Summed;
    var carry: nat := 0;
    r := seq(8, _ => 0);
    SummedStart(a, b, r);
    for i := 0 to 8
      invariant |r| == 8 && carry <= 1 && Summed(a, b, r, i, carry)
    {
      var sum: nat := a[i] + b[i] + carry;
      SummedKeeps(a, b, r, i, carry);
      r := r[i := sum % 0x1_0000_0000];
      carry := sum / 0x1_0000_0000;
    }
    SummedEnd(a, b, r, carry);
  }

  /** The first `i` words of `r` and the carry hold the sum of the first `i` words of `a` and `b`. */
  ghost predicate Summed(a: seq<Word>, b: seq<Word>, r: seq<Word>, i: nat, carry: nat)
    requires |a| == |b| == |r| == 8 && i <= 8
  {
    Num(r[..i]) + carry * Pow2(32 * i) == Num(a[..i]) + Num(b[..i])
  }

  lemma SummedStart(a: seq<Word>, b: seq<Word>, r: seq<Word>)
    requires |a| == |b| == |r| == 8
    ensures Summed(a, b, r, 0, 0)
  {
    assert a[..0] == b[..0] == r[..0] == [];
  }

  lemma SummedKeeps(a: seq<Word>, b: seq<Word>, r: seq<Word>, i: nat, carry: nat)
    requires |a| == |b| == |r| == 8 && i < 8 && Summed(a, b, r, i, carry)
    ensures var sum: nat := (a[i] as nat) + b[i] + carry;
            Summed(a, b, r[i := sum % 0x1_0000_0000], i + 1, sum / 0x1_0000_0000)
  {
    hide Num, Pow2;
    var sum: nat := (a[i] as nat) + b[i] + carry;
    var r' := r[i := sum % 0x1_0000_0000];
    assert r'[..i] == r[..i];
    NumTake(a, i);
    NumTake(b, i);
    NumTake(r', i);
    PowWord(i);
    SplitTimes(sum, Pow2(32 * i));
    AddTimes3(a[i], b[i], carry, Pow2(32 * i));
  }

  lemma SummedEnd(a: seq<Word>, b: seq<Word>, r: seq<Word>, carry: nat)
    requires |a| == |b| == |r| == 8 && Summed(a, b, r, 8, carry)
    ensures Num(r) == (Num(a) + Num(b)) % TWO_256
  {
    hide Num, Pow2;
    assert r[..8] == r && a[..8] == a && b[..8] == b;
    NumRange(r);
    Pow256Bits();
    DivModUnique(Num(a) + Num(b), TWO_256, carry, Num(r));
  }

  lemma NumTake(w: seq<Word>, i: nat)
    requires i < |w|
    ensures Num(w[..i + 1]) == Num(w[..i]) + w[i] * Pow2(32 * i)
  {
    assert w[..i + 1][..i] == w[..i];
  }

  lemma AddTimes3(a: nat, b: nat, c: nat, p: nat)
    ensures (a + b + c) * p == a * p + b * p + c * p
  {
  }

  /** The bitwise complement: 2^256 - 1 - a. */
  method Neg(a: seq<Word>) returns (r: seq<Word>)
    requires |a| == 8
    ensures |r| == 8 && Num(r) == TWO_256 - 1 - Num(a)
  {
    r := seq(8, _ => 0);
    assert r[..0] == a[..0] == [];
    for i := 0 to 4
      invariant |r| == 8
      invariant Num(r[..2 * i]) + Num(a[..2 * i]) + 1 == Pow2(32 * (2 * i))
    {
      ghost var r0 := r;
      r := r[2 * i := 0xFFFF_FFFF - a[2 * i]][2 * i + 1 := 0xFFFF_FFFF - a[2 * i + 1]];
      assert r[..2 * i] == r0[..2 * i];
      ComplementStep(a, r, 2 * i);
      ComplementStep(a, r, 2 * i + 1);
    }
    assert r[..8] == r && a[..8] == a;
    Pow256Bits();
  }

  lemma ComplementStep(a: seq<Word>, r: seq<Word>, i: nat)
    requires i < |a| == |r| && r[i] == 0xFFFF_FFFF - a[i]
    requires Num(r[..i]) + Num(a[..i]) + 1 == Pow2(32 * i)
    ensures Num(r[..i + 1]) + Num(a[..i + 1]) + 1 == Pow2(32 * (i + 1))
  {
    hide Num, Pow2;
    NumTake(a, i);
    NumTake(r, i);
    PowWord(i);
    ComplementTimes(a[i], Pow2(32 * i));
  }

  lemma ComplementTimes(x: nat, p: nat)
    requires x < 0x1_0000_0000
    ensures (0xFFFF_FFFF - x) * p + x * p + p == p * 0x1_0000_0000
  {
  }

  function One(): seq<Word> {
    [1, 0, 0, 0, 0, 0, 0, 0]
  }

  lemma NumOne()
    ensures Num(One()) == 1
  {
    SmallNum(1);
  }

  lemma NumNone()
    ensures Num([]) == 0
  {
  }

  /** A number that fits the lowest word. */
  lemma SmallNum(x: Word)
    ensures Num([x, 0, 0, 0, 0, 0, 0, 0]) == x
  {
    var w: seq<Word> := [x, 0, 0, 0, 0, 0, 0, 0];
    assert w[..0] == [];
    NumTake(w, 0);
    PowZero();
    hide Num, Pow2;
    ZerosAbove(w, 0);
    assert Num(w[..0]) == 0 by { NumNone(); }
  }

  /** a - b modulo 2^256. */
  method Subtract(a: seq<Word>, b: seq<Word>) returns (r: seq<Word>)
    requires |a| == |b| == 8
    ensures |r| == 8
    ensures Num(a) >= Num(b) ==> Num(r) == Num(a) - Num(b)
    ensures Num(a) < Num(b) ==> Num(r) == Num(a) + TWO_256 - Num(b)
  {
    hide Num;
    NumRange(a); NumRange(b);
    NumOne();
    var n := Neg(b);
    var m := Add(n, One());
    r := Add(a, m);
    SubtractMod(Num(a), Num(b));
  }

  lemma SubtractMod(x: nat, y: nat)
    requires x < TWO_256 && y < TWO_256
    ensures var m := (TWO_256 - 1 - y + 1) % TWO_256;
            (x + m) % TWO_256 == if x >= y then x - y else x + TWO_256 - y
  {
  }

  /** a times a 32-bit number, modulo 2^256. */
  method MultiplyThis32(a: seq<Word>, b: Word) returns (r: seq<Word>)
    requires |a| == 8
    ensures |r| == 8 && Num(r) == (Num(a) * b) % TWO_256
  {
    hide Num, Scaled;
    var carry: Word := 0;
    r := a;
    ScaledStart(a, b);
    for i := 0 to 8
      invariant |r| == 8 && r[i..] == a[i..]
      invariant Scaled(a, b, r, i, carry)
    {
      assert r[i] == r[i..][0] == a[i];
      WordProduct(b, r[i], carry);
      var n: nat := carry + b * r[i];
      ScaledKeeps(a, b, r, i, carry);
      r := r[i := n % 0x1_0000_0000];
      carry := n / 0x1_0000_0000;
    }
    ScaledEnd(a, b, r, carry);
  }

  /** The first `i` words of `r` and the carry hold the product of the first `i` words of `a`. */
  ghost predicate Scaled(a: seq<Word>, b: nat, r: seq<Word>, i: nat, carry: nat)
    requires |a| == |r| == 8 && i <= 8
  {
    Num(r[..i]) + carry * Pow2(32 * i) == Num(a[..i]) * b
  }

  lemma ScaledStart(a: seq<Word>, b: nat)
    requires |a| == 8
    ensures Scaled(a, b, a, 0, 0)
  {
    assert a[..0] == [];
  }

  lemma ScaledKeeps(a: seq<Word>, b: Word, r: seq<Word>, i: nat, carry: Word)
    requires |a| == |r| == 8 && i < 8 && Scaled(a, b, r, i, carry)
    ensures b * a[i] >= 0
    ensures var n := carry + b * a[i]; Scaled(a, b, r[i := n % 0x1_0000_0000], i + 1, n / 0x1_0000_0000)
  {
    hide Num, Pow2;
    WordProduct(b, a[i], carry);
    var n: nat := carry + b * a[i];
    var r' := r[i := n % 0x1_0000_0000];
    assert r'[..i] == r[..i];
    NumTake(a, i);
    NumTake(r', i);
    PowWord(i);
    SplitTimes(n, Pow2(32 * i));
    ScaleStep(Num(a[..i]), a[i], b, carry, Pow2(32 * i));
  }

  lemma ScaledEnd(a: seq<Word>, b: nat, r: seq<Word>, carry: nat)
    requires |a| == |r| == 8 && Scaled(a, b, r, 8, carry)
    ensures Num(r) == (Num(a) * b) % TWO_256
  {
    assert r[..8] == r && a[..8] == a;
    NumRange(r);
    Pow256Bits();
    hide Num, Pow2;
    DivModUnique(Num(a) * b, TWO_256, carry, Num(r));
  }

  lemma WordProduct(b: nat, x: nat, c: nat)
    requires b < 0x1_0000_0000 && x < 0x1_0000_0000 && c < 0x1_0000_0000
    ensures b * x >= 0 && c + b * x < TWO_64 && (c + b * x) / 0x1_0000_0000 < 0x1_0000_0000
  {
    assert b * x <= 0xFFFF_FFFF * x;
  }

  lemma ScaleStep(low: nat, x: nat, b: nat, c: nat, p: nat)
    ensures (low + x * p) * b + c * p == low * b + (c + b * x) * p
  {
  }

  // ------------------------------------------------------------ the 64-bit view

  type Half = x: nat | x < 0x1_0000_0000_0000_0000

  function Join(lo: nat, hi: nat): nat {
    lo + 0x1_0000_0000 * hi
  }

  /** The same number as four 64-bit words. */
  function Halves(w: seq<Word>): (q: seq<Half>)
    requires |w| == 8
    ensures |q| == 4
  {
    [Join(w[0], w[1]), Join(w[2], w[3]), Join(w[4], w[5]), Join(w[6], w[7])]
  }

  function FromHalves(q: seq<Half>): (w: seq<Word>)
    requires |q| == 4
    ensures |w| == 8 && Halves(w) == q
  {
    [q[0] % 0x1_0000_0000, q[0] / 0x1_0000_0000, q[1] % 0x1_0000_0000, q[1] / 0x1_0000_0000,
     q[2] % 0x1_0000_0000, q[2] / 0x1_0000_0000, q[3] % 0x1_0000_0000, q[3] / 0x1_0000_0000]
  }

  function Quad(q0: nat, q1: nat, q2: nat, q3: nat): nat {
    q0 + 0x1_0000_0000_0000_0000 * q1 + 0x1_0000_0000_0000_0000_0000_0000_0000_0000 * q2 +
    0x1_0000_0000_0000_0000_0000_0000_0000_0000_0000_0000_0000_0000 * q3
  }

  function QuadOf(q: seq<Half>): nat
    requires |q| == 4
  {
    Quad(q[0], q[1], q[2], q[3])
  }

  lemma PowWords()
    ensures Pow2(0) == 1 && Pow2(32) == 0x1_0000_0000 && Pow2(64) == 0x1_0000_0000_0000_0000
    ensures Pow2(96) == 0x1_0000_0000_0000_0000_0000_0000
    ensures Pow2(128) == 0x1_0000_0000_0000_0000_0000_0000_0000_0000
    ensures Pow2(160) == 0x1_0000_0000_0000_0000_0000_0000_0000_0000_0000_0000
    ensures Pow2(192) == 0x1_0000_0000_0000_0000_0000_0000_0000_0000_0000_0000_0000_0000
    ensures Pow2(224) == 0x1_0000_0000_0000_0000_0000_0000_0000_0000_0000_0000_0000_0000_0000_0000
  {
    Pow2Values();
    PowWord(1); PowWord(2); PowWord(3); PowWord(4); PowWord(5); PowWord(6);
  }

  lemma NumHalves(w: seq<Word>)
    requires |w| == 8
    ensures Num(w) == QuadOf(Halves(w))
  {
    hide Pow2, Num;
    PowWords();
    NumNone();
    assert w[..0] == [] && w[..8] == w;
    NumTakeBy(w, 0, 1);
    NumTakeBy(w, 1, 0x1_0000_0000);
    NumTakeBy(w, 2, 0x1_0000_0000_0000_0000);
    NumTakeBy(w, 3, 0x1_0000_0000_0000_0000_0000_0000);
    NumTakeBy(w, 4, 0x1_0000_0000_0000_0000_0000_0000_0000_0000);
    NumTakeBy(w, 5, 0x1_0000_0000_0000_0000_0000_0000_0000_0000_0000_0000);
    NumTakeBy(w, 6, 0x1_0000_0000_0000_0000_0000_0000_0000_0000_0000_0000_0000_0000);
    NumTakeBy(w, 7, 0x1_0000_0000_0000_0000_0000_0000_0000_0000_0000_0000_0000_0000_0000_0000);
  }

  lemma NumTakeBy(w: seq<Word>, i: nat, p: nat)
    requires i < |w| && p == Pow2(32 * i)
    ensures Num(w[..i + 1]) == Num(w[..i]) + w[i] * p
  {
    hide Num, Pow2;
    NumTake(w, i);
  }

  // ---------------------------------------------------------------- shifting

  /** The bits of `x` that a left shift by `t` moves out, and those it leaves in the word. */
  function Out(x: nat, t: nat): nat
    requires t < 64
  {
    DivNat(x, Pow2(64 - t));
    x / Pow2(64 - t)
  }

  function In(x: nat, t: nat): nat
    requires t < 64
  {
    MulNat(x, Pow2(t));
    (x * Pow2(t)) % 0x1_0000_0000_0000_0000
  }

  lemma DivNat(x: nat, c: nat)
    requires c > 0
    ensures x / c >= 0
  {
  }

  lemma MulNat(x: nat, c: nat)
    ensures x * c >= 0
  {
  }

  /** With s * c = 2^64, multiplying by `s` moves out what dividing by `c` keeps. */
  lemma ScaleParts(x: nat, s: nat, c: nat)
    requires x < 0x1_0000_0000_0000_0000 && s > 0 && c > 0 && s * c == 0x1_0000_0000_0000_0000
    ensures (x * s) % 0x1_0000_0000_0000_0000 == x % c * s
    ensures x * s == x / c * 0x1_0000_0000_0000_0000 + x % c * s
    ensures 0 <= x / c < s && 0 <= x % c * s <= 0x1_0000_0000_0000_0000 - s
  {
    var q, m := x / c, x % c;
    DivNat(x, c);
    assert x == q * c + m;
    Regroup(q, c, s);
    AddTimes3(q * c, m, 0, s);
    MulBelow(s, m, c);
    Regroup(1, m, s);
    DivModUnique(x * s, 0x1_0000_0000_0000_0000, q, m * s);
    DivBelow(x, c, s);
  }

  lemma ShiftSum(x: Half, t: nat)
    requires t < 64
    ensures x * Pow2(t) == Out(x, t) * 0x1_0000_0000_0000_0000 + In(x, t)
  {
    ShiftScale(t);
    hide Pow2;
    ScaleParts(x, Pow2(t), Pow2(64 - t));
  }

  lemma ShiftParts(x: Half, t: nat)
    requires t < 64
    ensures x * Pow2(t) == Out(x, t) * 0x1_0000_0000_0000_0000 + In(x, t)
    ensures Out(x, t) < Pow2(t) <= 0x8000_0000_0000_0000 && In(x, t) + Pow2(t) <= 0x1_0000_0000_0000_0000
    ensures forall h: nat | h < Pow2(t) :: BitOr(h, In(x, t)) == h + In(x, t)
  {
    ShiftScale(t);
    hide Pow2, BitOr;
    ScaleParts(x, Pow2(t), Pow2(64 - t));
    var m := x % Pow2(64 - t);
    forall h: nat | h < Pow2(t) ensures BitOr(h, In(x, t)) == h + In(x, t) {
      OrDisjoint(h, m, t);
    }
  }

  lemma ShiftScale(t: nat)
    requires t < 64
    ensures Pow2(t) * Pow2(64 - t) == 0x1_0000_0000_0000_0000 && Pow2(t) <= 0x8000_0000_0000_0000
  {
    Pow2Add(t, 64 - t);
    Pow2Add(t, 63 - t);
    PowTop();
    hide Pow2;
    MulAtLeast(Pow2(63 - t), Pow2(t));
    Regroup(1, Pow2(63 - t), Pow2(t));
  }

  lemma PowTop()
    ensures Pow2(64) == 0x1_0000_0000_0000_0000 && Pow2(63) == 0x8000_0000_0000_0000
  {
    PowWords();
    PowAt(0, 63);
  }

  lemma Regroup(q: nat, c: nat, s: nat)
    ensures q * c * s == q * (s * c)
  {
  }

  lemma DivBelow(x: nat, c: nat, s: nat)
    requires c > 0 && x < s * c
    ensures x / c < s
  {
    if x / c >= s { MulMono(s, x / c, c); }
  }

  lemma MulMono(a: nat, b: nat, c: nat)
    requires a <= b
    ensures a * c <= b * c
  {
  }

  /** Word `j` of a left shift by 64k + t once the first `i` words have been moved. */
  function LeftPart(q: seq<Half>, k: nat, t: nat, i: nat, j: nat): nat
    requires |q| == 4 && t < 64 && i <= 4 && j < 4
  {
    (if k < j <= k + i then Out(q[j - k - 1], t) else 0) + (if k <= j < k + i then In(q[j - k], t) else 0)
  }

  /** a times 2^n modulo 2^256. */
  method ShiftLeft(a: seq<Word>, n: nat) returns (r: seq<Word>)
    requires |a| == 8 && n < 256
    ensures |r| == 8 && Num(r) == (Num(a) * Pow2(n)) % TWO_256
  {
    hide Num, Pow2, BitOr, Halves, Out, In;
    var q := Halves(a);
    var d: seq<Half> := [0, 0, 0, 0];
    var k, t := n / 64, n % 64;
    for i := 0 to 4
      invariant |d| == 4 && forall j | 0 <= j < 4 :: d[j] == LeftPart(q, k, t, i, j)
    {
      ShiftParts(q[i], t);
      if i > 0 { ShiftParts(q[i - 1], t); }
      PowZero();
      OrZero(Out(q[i], t)); OrZero(In(q[i], t));
      if i + k + 1 < 4 && t != 0 {
        d := d[i + k + 1 := BitOr(d[i + k + 1], Out(q[i], t))];
      }
      if i + k < 4 {
        d := d[i + k := BitOr(d[i + k], In(q[i], t))];
      }
    }
    r := FromHalves(d);
    NumHalves(r);
    NumHalves(a);
    ShiftParts(q[0], t); ShiftParts(q[1], t); ShiftParts(q[2], t); ShiftParts(q[3], t);
    PowSplit(n);
    NumRange(r);
    LeftValue(q, k, t, d);
  }

  lemma OrZero(x: nat)
    ensures BitOr(0, x) == x
  {
  }

  lemma PowZero()
    ensures Pow2(0) == 1
  {
  }

  lemma PowSplit(n: nat)
    requires n < 256
    ensures Pow2(n) == Pow2(64 * (n / 64)) * Pow2(n % 64)
  {
    Pow2Add(64 * (n / 64), n % 64);
  }

  lemma QuadTimes(q0: nat, q1: nat, q2: nat, q3: nat, s: nat)
    ensures Quad(q0, q1, q2, q3) * s == Quad(q0 * s, q1 * s, q2 * s, q3 * s)
  {
  }

  lemma LeftValue(q: seq<Half>, k: nat, t: nat, d: seq<Half>)
    requires |q| == |d| == 4 && k < 4 && t < 64
    requires forall j | 0 <= j < 4 :: d[j] == LeftPart(q, k, t, 4, j)
    requires QuadOf(d) < TWO_256
    ensures QuadOf(d) == (QuadOf(q) * (Pow2(64 * k) * Pow2(t))) % TWO_256
  {
    ShiftSum(q[0], t); ShiftSum(q[1], t); ShiftSum(q[2], t); ShiftSum(q[3], t);
    hide Pow2, Out, In, LeftPart;
    var o0, o1, o2, o3 := Out(q[0], t), Out(q[1], t), Out(q[2], t), Out(q[3], t);
    var i0, i1, i2, i3 := In(q[0], t), In(q[1], t), In(q[2], t), In(q[3], t);
    QuadTimes(q[0], q[1], q[2], q[3], Pow2(t));
    var x := QuadOf(q) * Pow2(t);
    LeftCarry(q[0] * Pow2(t), q[1] * Pow2(t), q[2] * Pow2(t), q[3] * Pow2(t), o0, o1, o2, o3, i0, i1, i2, i3);
    Regroup(QuadOf(q), Pow2(t), Pow2(64 * k));
    var over :=
      if k == 0 then o3
      else if k == 1 then o2 + i3 + 0x1_0000_0000_0000_0000 * o3
      else if k == 2 then Quad(o1 + i2, o2 + i3, o3, 0)
      else Quad(o0 + i1, o1 + i2, o2 + i3, o3);
    assert x * Pow2(64 * k) == QuadOf(d) + TWO_256 * over by { LeftCases(q, k, t, d, x, over); }
    DivModUnique(x * Pow2(64 * k), TWO_256, over, QuadOf(d));
  }

  lemma LeftCarry(x0: nat, x1: nat, x2: nat, x3: nat, o0: nat, o1: nat, o2: nat, o3: nat,
                  i0: nat, i1: nat, i2: nat, i3: nat)
    requires x0 == o0 * 0x1_0000_0000_0000_0000 + i0 && x1 == o1 * 0x1_0000_0000_0000_0000 + i1
    requires x2 == o2 * 0x1_0000_0000_0000_0000 + i2 && x3 == o3 * 0x1_0000_0000_0000_0000 + i3
    ensures Quad(x0, x1, x2, x3) == Quad(i0, o0 + i1, o1 + i2, o2 + i3) + TWO_256 * o3
  {
  }

  lemma LeftCases(q: seq<Half>, k: nat, t: nat, d: seq<Half>, x: nat, over: nat)
    requires |q| == |d| == 4 && k < 4 && t < 64
    requires forall j | 0 <= j < 4 :: d[j] == LeftPart(q, k, t, 4, j)
    requires x ==
      Quad(In(q[0], t), Out(q[0], t) + In(q[1], t), Out(q[1], t) + In(q[2], t), Out(q[2], t) + In(q[3], t)) +
      TWO_256 * Out(q[3], t)
    requires over ==
      if k == 0 then Out(q[3], t)
      else if k == 1 then Out(q[2], t) + In(q[3], t) + 0x1_0000_0000_0000_0000 * Out(q[3], t)
      else if k == 2 then Quad(Out(q[1], t) + In(q[2], t), Out(q[2], t) + In(q[3], t), Out(q[3], t), 0)
      else Quad(Out(q[0], t) + In(q[1], t), Out(q[1], t) + In(q[2], t), Out(q[2], t) + In(q[3], t), Out(q[3], t))
    ensures x * Pow2(64 * k) == QuadOf(d) + TWO_256 * over
  {
    hide Out, In, Pow2, Quad;
    PowWords();
    assert d[0] == LeftPart(q, k, t, 4, 0) && d[1] == LeftPart(q, k, t, 4, 1);
    assert d[2] == LeftPart(q, k, t, 4, 2) && d[3] == LeftPart(q, k, t, 4, 3);
    var c1, c2, c3 := Out(q[0], t) + In(q[1], t), Out(q[1], t) + In(q[2], t), Out(q[2], t) + In(q[3], t);
    var o3 := Out(q[3], t);
    if k == 0 {
      assert Pow2(64 * k) == 1;
    } else if k == 1 {
      assert Pow2(64 * k) == Pow2(64);
      LeftBy1(In(q[0], t), c1, c2, c3, o3);
    } else if k == 2 {
      assert Pow2(64 * k) == Pow2(128);
      LeftBy2(In(q[0], t), c1, c2, c3, o3);
    } else {
      assert Pow2(64 * k) == Pow2(192);
      LeftBy3(In(q[0], t), c1, c2, c3, o3);
    }
  }

  lemma LeftBy1(c0: nat, c1: nat, c2: nat, c3: nat, o: nat)
    ensures (Quad(c0, c1, c2, c3) + TWO_256 * o) * 0x1_0000_0000_0000_0000 ==
            Quad(0, c0, c1, c2) + TWO_256 * (c3 + 0x1_0000_0000_0000_0000 * o)
  {
  }

  lemma LeftBy2(c0: nat, c1: nat, c2: nat, c3: nat, o: nat)
    ensures (Quad(c0, c1, c2, c3) + TWO_256 * o) * 0x1_0000_0000_0000_0000_0000_0000_0000_0000 ==
            Quad(0, 0, c0, c1) + TWO_256 * Quad(c2, c3, o, 0)
  {
  }

  lemma LeftBy3(c0: nat, c1: nat, c2: nat, c3: nat, o: nat)
    ensures (Quad(c0, c1, c2, c3) + TWO_256 * o) * 0x1_0000_0000_0000_0000_0000_0000_0000_0000_0000_0000_0000_0000 ==
            Quad(0, 0, 0, c0) + TWO_256 * Quad(c1, c2, c3, o)
  {
  }

  /** What a right shift by `t` leaves in a word, and what it hands to the word below. */
  function Keep(x: nat, t: nat): nat
    requires t < 64
  {
    DivNat(x, Pow2(t));
    x / Pow2(t)
  }

  function Down(x: nat, t: nat): nat
    requires t < 64
  {
    MulNat(x, Pow2(64 - t));
    (x * Pow2(64 - t)) % 0x1_0000_0000_0000_0000
  }

  lemma ShiftRightParts(x: Half, t: nat)
    requires t < 64
    ensures x == Keep(x, t) * Pow2(t) + x % Pow2(t) && 0 <= x % Pow2(t) < Pow2(t)
    ensures Down(x, t) * Pow2(t) == x % Pow2(t) * 0x1_0000_0000_0000_0000
    ensures Keep(x, t) < Pow2(64 - t) && Down(x, t) + Pow2(64 - t) <= 0x1_0000_0000_0000_0000
    ensures Down(x, t) == x % Pow2(t) * Pow2(64 - t)
  {
    hide Pow2;
    ShiftScale(t);
    RightScale(x, Pow2(t), Pow2(64 - t));
  }

  /** With s * c = 2^64: dividing by `s` keeps the quotient and hands the remainder down, times `c`. */
  lemma RightScale(x: Half, s: nat, c: nat)
    requires s > 0 && c > 0 && s * c == 0x1_0000_0000_0000_0000
    ensures x == x / s * s + x % s && 0 <= x % s < s && 0 <= x / s < c
    ensures (x * c) % 0x1_0000_0000_0000_0000 == x % s * c
    ensures x % s * c * s == x % s * 0x1_0000_0000_0000_0000 && x % s * c + c <= 0x1_0000_0000_0000_0000
  {
    Regroup(1, s, c);
    ScaleParts(x, c, s);
    Regroup(x % s, c, s);
  }

  lemma OrDown(h: nat, x: Half, t: nat)
    requires t < 64 && h < Pow2(64 - t)
    ensures BitOr(h, Down(x, t)) == h + Down(x, t)
  {
    hide Pow2, BitOr, Down;
    ShiftRightParts(x, t);
    OrDisjoint(h, x % Pow2(t), 64 - t);
  }

  lemma NoShift(x: Half)
    ensures Down(x, 0) == 0 && Keep(x, 0) == x
  {
    PowZero();
    ShiftRightParts(x, 0);
  }

  /** Word `j` of a right shift by 64k + t once the first `i` words have been moved. */
  function RightPart(q: seq<Half>, k: nat, t: nat, i: nat, j: nat): nat
    requires |q| == 4 && t < 64 && i <= 4 && j < 4
  {
    (if j + k < i then Keep(q[j + k], t) else 0) + (if j + k + 1 < i then Down(q[j + k + 1], t) else 0)
  }

  /** a divided by 2^n. */
  method ShiftRight(a: seq<Word>, n: nat) returns (r: seq<Word>)
    requires |a| == 8 && n < 256
    ensures |r| == 8 && Num(r) == Num(a) / Pow2(n)
  {
    hide Num, Pow2, BitOr, Halves, Keep, Down;
    var q := Halves(a);
    var d: seq<Half> := [0, 0, 0, 0];
    var k, t := n / 64, n % 64;
    for i := 0 to 4
      invariant |d| == 4 && forall j | 0 <= j < 4 :: d[j] == RightPart(q, k, t, i, j)
    {
      if t == 0 { NoShift(q[i]); }
      ShiftRightParts(q[i], t);
      if i > 0 {
        ShiftRightParts(q[i - 1], t);
        OrDown(Keep(q[i - 1], t), q[i], t);
      }
      OrZero(Keep(q[i], t));
      if i - k - 1 >= 0 && t != 0 {
        d := d[i - k - 1 := BitOr(d[i - k - 1], Down(q[i], t))];
      }
      if i - k >= 0 {
        d := d[i - k := BitOr(d[i - k], Keep(q[i], t))];
      }
    }
    r := FromHalves(d);
    NumHalves(r);
    NumHalves(a);
    PowSplit(n);
    RightValue(q, k, t, d);
  }

  lemma RightValue(q: seq<Half>, k: nat, t: nat, d: seq<Half>)
    requires |q| == |d| == 4 && k < 4 && t < 64
    requires forall j | 0 <= j < 4 :: d[j] == RightPart(q, k, t, 4, j)
    ensures QuadOf(d) == QuadOf(q) / (Pow2(64 * k) * Pow2(t))
  {
    ShiftRightParts(q[0], t); ShiftRightParts(q[1], t); ShiftRightParts(q[2], t); ShiftRightParts(q[3], t);
    hide Pow2, BitOr, Keep, Down;
    var s := Pow2(t);
    var rem := RightRest(q, k, q[k] % s);
    RightCases(q, k, s, t, d);
    RestBelow(q, k, q[k] % s, s);
    Regroup(QuadOf(d), s, Pow2(64 * k));
    DivModUnique(QuadOf(q), Pow2(64 * k) * s, QuadOf(d), rem);
  }

  /** What a right shift drops. */
  function RightRest(q: seq<Half>, k: nat, m: nat): nat
    requires |q| == 4 && k < 4
  {
    if k == 0 then m
    else if k == 1 then Quad(q[0], m, 0, 0)
    else if k == 2 then Quad(q[0], q[1], m, 0)
    else Quad(q[0], q[1], q[2], m)
  }

  lemma RestBelow(q: seq<Half>, k: nat, m: nat, s: nat)
    requires |q| == 4 && k < 4 && m < s
    ensures RightRest(q, k, m) < Pow2(64 * k) * s
  {
    hide Pow2, Quad;
    PowWords();
    if k == 0 {
      assert Pow2(64 * k) == 1;
    } else if k == 1 {
      assert Pow2(64 * k) == Pow2(64);
      RestBelow1(q[0], m, s);
    } else if k == 2 {
      assert Pow2(64 * k) == Pow2(128);
      RestBelow2(q[0], q[1], m, s);
    } else {
      assert Pow2(64 * k) == Pow2(192);
      RestBelow3(q[0], q[1], q[2], m, s);
    }
  }

  lemma RestBelow1(q0: Half, m: nat, s: nat)
    requires m < s
    ensures Quad(q0, m, 0, 0) < 0x1_0000_0000_0000_0000 * s
  {
  }

  lemma RestBelow2(q0: Half, q1: Half, m: nat, s: nat)
    requires m < s
    ensures Quad(q0, q1, m, 0) < 0x1_0000_0000_0000_0000_0000_0000_0000_0000 * s
  {
  }

  lemma RestBelow3(q0: Half, q1: Half, q2: Half, m: nat, s: nat)
    requires m < s
    ensures Quad(q0, q1, q2, m) < 0x1_0000_0000_0000_0000_0000_0000_0000_0000_0000_0000_0000_0000 * s
  {
  }

  lemma RightCases(q: seq<Half>, k: nat, s: nat, t: nat, d: seq<Half>)
    requires |q| == |d| == 4 && k < 4 && t < 64 && s == Pow2(t)
    requires forall j | 0 <= j < 4 :: d[j] == RightPart(q, k, t, 4, j)
    requires forall i | 0 <= i < 4 ::
               && q[i] == Keep(q[i], t) * s + q[i] % s && 0 <= q[i] % s
               && Down(q[i], t) * s == q[i] % s * 0x1_0000_0000_0000_0000
    ensures QuadOf(q) == QuadOf(d) * s * Pow2(64 * k) + RightRest(q, k, q[k] % s)
  {
    var m := Remainders(q, s);
    RightTimes(q, k, s, t, d, 0); RightTimes(q, k, s, t, d, 1);
    RightTimes(q, k, s, t, d, 2); RightTimes(q, k, s, t, d, 3);
    hide Keep, Down, Pow2, Quad, RightKept, RightRest, RightPart, Remainders;
    QuadTimes(d[0], d[1], d[2], d[3], s);
    RightLinear(q, k, m);
  }

  function Remainders(q: seq<Half>, s: nat): (m: seq<nat>)
    requires |q| == 4 && s > 0
    ensures |m| == 4 && forall i | 0 <= i < 4 :: m[i] == q[i] % s && m[i] <= q[i]
  {
    Remainder(q[0], s); Remainder(q[1], s); Remainder(q[2], s); Remainder(q[3], s);
    [q[0] % s, q[1] % s, q[2] % s, q[3] % s]
  }

  lemma Remainder(x: nat, s: nat)
    requires s > 0
    ensures 0 <= x % s <= x
  {
    DivNat(x, s);
    var q := x / s;
    assert x == q * s + x % s;
    MulNat(q, s);
  }

  /** Word `j` of a right shift, times 2^t, from the words and what each hands down. */
  function RightKept(q: seq<Half>, k: nat, m: seq<nat>, j: nat): nat
    requires |q| == |m| == 4 && j < 4 && forall i | 0 <= i < 4 :: m[i] <= q[i]
  {
    (if j + k < 4 then q[j + k] - m[j + k] else 0) +
    (if j + k + 1 < 4 then m[j + k + 1] * 0x1_0000_0000_0000_0000 else 0)
  }

  lemma RightLinear(q: seq<Half>, k: nat, m: seq<nat>)
    requires |q| == |m| == 4 && k < 4 && forall i | 0 <= i < 4 :: m[i] <= q[i]
    ensures QuadOf(q) ==
            Quad(RightKept(q, k, m, 0), RightKept(q, k, m, 1), RightKept(q, k, m, 2), RightKept(q, k, m, 3)) *
              Pow2(64 * k) + RightRest(q, k, m[k])
  {
    hide Pow2, Quad;
    PowWords();
    if k == 0 {
      assert Pow2(64 * k) == 1;
      RightBy0(q[0], q[1], q[2], q[3], m[0], m[1], m[2], m[3]);
    } else if k == 1 {
      assert Pow2(64 * k) == Pow2(64);
      RightBy1(q[0], q[1], q[2], q[3], m[1], m[2], m[3]);
    } else if k == 2 {
      assert Pow2(64 * k) == Pow2(128);
      RightBy2(q[0], q[1], q[2], q[3], m[2], m[3]);
    } else {
      assert Pow2(64 * k) == Pow2(192);
      RightBy3(q[0], q[1], q[2], q[3], m[3]);
    }
  }

  lemma RightBy0(q0: nat, q1: nat, q2: nat, q3: nat, m0: nat, m1: nat, m2: nat, m3: nat)
    requires m0 <= q0 && m1 <= q1 && m2 <= q2 && m3 <= q3
    ensures Quad(q0, q1, q2, q3) ==
            Quad(q0 - m0 + m1 * 0x1_0000_0000_0000_0000, q1 - m1 + m2 * 0x1_0000_0000_0000_0000,
                 q2 - m2 + m3 * 0x1_0000_0000_0000_0000, q3 - m3) + m0
  {
  }

  lemma RightBy1(q0: nat, q1: nat, q2: nat, q3: nat, m1: nat, m2: nat, m3: nat)
    requires m1 <= q1 && m2 <= q2 && m3 <= q3
    ensures Quad(q0, q1, q2, q3) ==
            Quad(q1 - m1 + m2 * 0x1_0000_0000_0000_0000, q2 - m2 + m3 * 0x1_0000_0000_0000_0000, q3 - m3, 0) *
              0x1_0000_0000_0000_0000 + Quad(q0, m1, 0, 0)
  {
  }

  lemma RightBy2(q0: nat, q1: nat, q2: nat, q3: nat, m2: nat, m3: nat)
    requires m2 <= q2 && m3 <= q3
    ensures Quad(q0, q1, q2, q3) ==
            Quad(q2 - m2 + m3 * 0x1_0000_0000_0000_0000, q3 - m3, 0, 0) *
              0x1_0000_0000_0000_0000_0000_0000_0000_0000 + Quad(q0, q1, m2, 0)
  {
  }

  lemma RightBy3(q0: nat, q1: nat, q2: nat, q3: nat, m3: nat)
    requires m3 <= q3
    ensures Quad(q0, q1, q2, q3) ==
            Quad(q3 - m3, 0, 0, 0) * 0x1_0000_0000_0000_0000_0000_0000_0000_0000_0000_0000_0000_0000 +
            Quad(q0, q1, q2, m3)
  {
  }

  lemma RightTimes(q: seq<Half>, k: nat, s: nat, t: nat, d: seq<Half>, j: nat)
    requires |q| == |d| == 4 && k < 4 && t < 64 && j < 4 && s > 0 && d[j] == RightPart(q, k, t, 4, j)
    requires forall i | 0 <= i < 4 ::
               q[i] == Keep(q[i], t) * s + q[i] % s && Down(q[i], t) * s == q[i] % s * 0x1_0000_0000_0000_0000
    ensures d[j] * s == RightKept(q, k, Remainders(q, s), j)
  {
    hide Keep, Down, Remainders;
    if j + k + 1 < 4 { AddTimes3(Keep(q[j + k], t), Down(q[j + k + 1], t), 0, s); }
  }

  // -------------------------------------------------- comparison and bit counting

  predicate SupEq(a: seq<Word>, b: seq<Word>)
    requires |a| == |b| == 8
  {
    var p, q := Halves(a), Halves(b);
    p[3] > q[3] || (p[3] == q[3] && (p[2] > q[2] || (p[2] == q[2] && (p[1] > q[1] || (p[1] == q[1] && p[0] >= q[0])))))
  }

  lemma SupEqMeans(a: seq<Word>, b: seq<Word>)
    requires |a| == |b| == 8
    ensures SupEq(a, b) <==> Num(a) >= Num(b)
  {
    hide Num, Halves;
    NumHalves(a);
    NumHalves(b);
  }

  /** `k` is the number of significant bits of `x`. */
  ghost predicate IsBitCount(x: nat, k: nat) {
    x < Pow2(k) && (k > 0 ==> Pow2(k - 1) <= x)
  }

  lemma TopBit(w: nat, b: nat)
    requires w < Pow2(b + 1)
    ensures BitAnd(w, Pow2(b)) != 0 <==> w >= Pow2(b)
  {
    var p := Pow2(b);
    var q, r := w / p, w % p;
    assert w == q * p + r;
    assert Pow2(b + 1) == 2 * p;
    hide BitAnd, Pow2;
    DivNat(w, p);
    if q >= 2 { MulMono(2, q, p); }
    AndSplit(b, q, r, 1, 0);
    AndZero(r);
    AndOneBit(q);
  }

  lemma AndOneBit(q: nat)
    requires q < 2
    ensures BitAnd(q, 1) == q
  {
  }

  lemma TopWord(a: seq<Word>, pos: nat, b: nat)
    requires |a| == 8 && pos < 8 && b < 32 && (forall i | pos < i < 8 :: a[i] == 0)
    requires Pow2(b) <= a[pos] < Pow2(b + 1)
    ensures IsBitCount(Num(a), 32 * pos + b + 1)
  {
    hide Num, Pow2;
    ZerosAbove(a, pos);
    NumTake(a, pos);
    NumBound(a[..pos]);
    PowAt(pos, b);
    TopBounds(a[pos], Num(a[..pos]), Pow2(32 * pos), Pow2(b));
  }

  lemma PowAt(pos: nat, b: nat)
    ensures Pow2(b + 1) == 2 * Pow2(b)
    ensures Pow2(32 * pos + b) == Pow2(b) * Pow2(32 * pos)
    ensures Pow2(32 * pos + b + 1) == 2 * Pow2(32 * pos + b)
  {
    Pow2Add(b, 32 * pos);
  }

  lemma TopBounds(w: nat, low: nat, p: nat, x: nat)
    requires x <= w < 2 * x && low < p
    ensures x * p <= low + w * p < 2 * (x * p)
  {
    MulMono(x, w, p);
    MulMono(w + 1, 2 * x, p);
    AddTimes3(w, 1, 0, p);
    AddTimes3(x, x, 0, p);
  }

  lemma {:induction false} ZerosAbove(a: seq<Word>, pos: nat)
    requires |a| == 8 && pos < 8 && (forall i | pos < i < 8 :: a[i] == 0)
    ensures Num(a) == Num(a[..pos + 1])
    decreases 8 - pos
  {
    if pos == 7 {
      assert a[..8] == a;
    } else {
      NumTake(a, pos + 1);
      ZerosAbove(a, pos + 1);
    }
  }

  lemma AllZero(a: seq<Word>)
    requires |a| == 8 && forall i | 0 <= i < 8 :: a[i] == 0
    ensures Num(a) == 0
  {
    assert a == [0, 0, 0, 0, 0, 0, 0, 0];
    SmallNum(0);
  }

  /** The number of significant bits, as an 8-bit value. */
  method BitCount(a: seq<Word>) returns (n: nat)
    requires |a| == 8
    ensures n < 256 && exists k: nat :: k <= 256 && n == k % 256 && IsBitCount(Num(a), k)
  {
    hide IsBitCount, Num;
    var pos := 7;
    while pos >= 0
      invariant -1 <= pos <= 7 && forall i | pos < i < 8 :: a[i] == 0
    {
      if a[pos] != 0 {
        var b := TopBitOf(a[pos]);
        TopWord(a, pos, b);
        return (32 * pos + b + 1) % 256;
      }
      pos := pos - 1;
    }
    AllZero(a);
    BitCountZero();
    return 0;
  }

  lemma BitCountZero()
    ensures IsBitCount(0, 0)
  {
  }

  method TopBitOf(w: Word) returns (b: nat)
    requires w != 0
    ensures b < 32 && Pow2(b) <= w < Pow2(b + 1)
  {
    hide BitAnd, Pow2;
    Pow2Values();
    b := 31;
    while b > 0
      invariant b < 32 && w < Pow2(b + 1)
    {
      TopBit(w, b);
      if BitAnd(w, Pow2(b)) != 0 {
        return;
      }
      b := b - 1;
    }
    PowZero();
  }

  // ------------------------------------------------------------------ division

  /** The lowest `m` bits are zero. */
  ghost predicate LowClear(r: seq<Word>, m: nat)
    requires |r| == 8
  {
    forall i | 0 <= i < 8 :: WordClear(r[i], i, m)
  }

  /** So far as they fall into word `i`, the lowest `m` bits are zero. */
  ghost predicate WordClear(x: nat, i: nat, m: nat) {
    (32 * i + 32 <= m ==> x == 0) && (32 * i <= m < 32 * i + 32 ==> x % Pow2(m - 32 * i) == 0)
  }

  lemma {:induction false} NumUpdate(w: seq<Word>, j: nat, y: Word)
    requires j < |w|
    ensures Num(w[j := y]) + w[j] * Pow2(32 * j) == Num(w) + y * Pow2(32 * j)
    decreases |w|
  {
    var n := |w| - 1;
    hide Pow2;
    if j == n {
      assert w[j := y][..n] == w[..n];
    } else {
      assert w[j := y][..n] == w[..n][j := y];
      NumUpdate(w[..n], j, y);
    }
  }

  /** A multiple of 2p below 2pc is at least 2p away from it, and stays a multiple of p when p is added. */
  lemma EvenMultiple(x: nat, m: nat, p: nat, c: nat)
    requires p > 0 && x == m * (2 * p) && x < c * (2 * p)
    ensures x + p < c * (2 * p) && (x + p) % p == 0
  {
    if m >= c { MulMono(c, m, 2 * p); }
    MulMono(m + 1, c, 2 * p);
    AddTimes3(m, 1, 0, 2 * p);
    OddTimes(m, p);
    DivModUnique(x + p, p, 2 * m + 1, 0);
  }

  lemma OddTimes(m: nat, p: nat)
    ensures m * (2 * p) + p == (2 * m + 1) * p
  {
  }

  lemma PowWordAt(t: nat)
    requires t < 32
    ensures Pow2(31 - t) * (2 * Pow2(t)) == 0x1_0000_0000 && Pow2(t + 1) == 2 * Pow2(t)
  {
    Pow2Values();
    Pow2Add(31 - t, t + 1);
  }

  lemma OrBit(x: nat, t: nat)
    requires t < 32 && x < 0x1_0000_0000 && x % Pow2(t + 1) == 0
    ensures BitOr(x, Pow2(t)) == x + Pow2(t) < 0x1_0000_0000 && (x + Pow2(t)) % Pow2(t) == 0
  {
    hide Pow2, BitOr;
    PowWordAt(t);
    var p := Pow2(t);
    var m := x / (2 * p);
    DivNat(x, 2 * p);
    assert x == m * (2 * p);
    EvenMultiple(x, m, p, Pow2(31 - t));
    OrDisjoint(p, m, t + 1);
    OrComm(x, p);
  }

  lemma {:induction false} OrComm(x: nat, y: nat)
    ensures BitOr(x, y) == BitOr(y, x)
    decreases x + y
  {
    if x > 0 && y > 0 { OrComm(x / 2, y / 2); }
  }

  /** Word s/32 of `r` with bit s set. */
  function OrAt(r: seq<Word>, s: nat): nat
    requires |r| == 8 && s < 256
  {
    BitOr(r[s / 32], Pow2(s % 32))
  }

  /** Setting bit `s` of a number whose lower bits, and bit `s`, are clear adds 2^s. */
  lemma SetBit(r: seq<Word>, s: nat)
    requires |r| == 8 && s < 256 && LowClear(r, s + 1)
    ensures OrAt(r, s) < 0x1_0000_0000
    ensures var r' := r[s / 32 := OrAt(r, s)];
            LowClear(r', s) && Num(r') == Num(r) + Pow2(s)
  {
    var j, t := s / 32, s % 32;
    hide BitOr, Num, Pow2;
    PowZero();
    assert r[j] % Pow2(t + 1) == 0 by {
      if t == 31 { assert r[j] == 0; ZeroMod(Pow2(t + 1)); }
    }
    OrBit(r[j], t);
    NumUpdate(r, j, r[j] + Pow2(t));
    AddTimes3(r[j], Pow2(t), 0, Pow2(32 * j));
    Pow2Add(t, 32 * j);
    assert t + 32 * j == s;
  }

  lemma ZeroMod(p: nat)
    requires p > 0
    ensures 0 % p == 0
  {
  }

  lemma ClearStart(m: nat)
    ensures LowClear([0, 0, 0, 0, 0, 0, 0, 0], m)
  {
    hide Pow2;
    forall i: nat | i < 8 && 32 * i <= m < 32 * i + 32 ensures 0 % Pow2(m - 32 * i) == 0 {
      ZeroMod(Pow2(m - 32 * i));
    }
  }

  /** The divisor lined up with the dividend: shifted, it still fits and is more than half of it. */
  lemma Aligned(a: nat, b: nat, n: nat, d: nat)
    requires IsBitCount(a, n) && IsBitCount(b, d) && 0 < d <= n <= 255
    ensures b * Pow2(n - d) < TWO_255 && a < b * Pow2(n - d + 1)
  {
    hide Pow2;
    AlignPowers(n, d);
    AlignBounds(a, b, Pow2(n), Pow2(d), Pow2(d - 1), Pow2(n - d), Pow2(n - d + 1));
  }

  lemma AlignPowers(n: nat, d: nat)
    requires 0 < d <= n <= 255
    ensures Pow2(n) == Pow2(d) * Pow2(n - d) == Pow2(d - 1) * Pow2(n - d + 1) && Pow2(n) <= TWO_255
  {
    Pow2Add(d, n - d);
    Pow2Add(d - 1, n - d + 1);
    Pow2Mono(n, 255);
    Pow256Bits();
  }

  lemma AlignBounds(a: nat, b: nat, pn: nat, pd: nat, pd1: nat, s: nat, s1: nat)
    requires pn == pd * s == pd1 * s1 && s > 0 && a < pn && pd1 <= b < pd
    ensures b * s < pn && a < b * s1
  {
    MulMono(b + 1, pd, s);
    AddTimes3(b, 1, 0, s);
    MulMono(pd1, b, s1);
  }

  lemma {:induction false} Pow2Mono(a: nat, b: nat)
    requires a <= b
    ensures Pow2(a) <= Pow2(b)
  {
    Pow2Add(a, b - a);
    MulAtLeast(Pow2(b - a), Pow2(a));
  }

  /** Fewer significant bits means a smaller number. */
  lemma ShorterIsSmaller(a: nat, b: nat, n: nat, d: nat)
    requires IsBitCount(a, n) && IsBitCount(b, d) && n < d
    ensures a < b
  {
    Pow2Mono(n, d - 1);
  }

  /** Below 2^255 the 8-bit result is the bit count itself. */
  lemma CountFits(x: nat, k: nat)
    requires x < TWO_255 && IsBitCount(x, k)
    ensures k <= 255 && (k == 0 <==> x == 0)
  {
    if k > 255 {
      Pow2Mono(255, k - 1);
      Pow256Bits();
    }
    if k > 0 { Pow2Mono(0, k - 1); }
  }

  /** What the division loop keeps before it tries bit `shift` of the quotient. */
  ghost predicate Dividing(a: nat, b: nat, shift: int, num: nat, div: nat, r: seq<Word>)
    requires |r| == 8
  {
    && -1 <= shift < 256
    && (shift >= 0 ==> div == b * Pow2(shift) && div < TWO_256)
    && num < b * Pow2(shift + 1)
    && a == Num(r) * b + num
    && LowClear(r, shift + 1)
  }

  lemma QuotientBit(a: nat, b: nat, s: nat, q: nat, num: nat, p: nat, p2: nat)
    requires a == q * b + num && num < b * p2 && p2 == 2 * p
    requires num >= b * p
    ensures a == (q + p) * b + (num - b * p) && num - b * p < b * p
  {
    AddTimes3(q, p, 0, b);
  }

  lemma DivideKeeps(a: nat, b: nat, s: nat, num: nat, div: nat, r: seq<Word>, num': nat, r': seq<Word>)
    requires |r| == |r'| == 8 && Dividing(a, b, s, num, div, r) && OrAt(r, s) < 0x1_0000_0000
    requires num >= div ==> num' == num - div && r' == r[s / 32 := OrAt(r, s)]
    requires num < div ==> num' == num && r' == r
    ensures Dividing(a, b, s - 1, num', div / 2, r')
  {
    hide Num, OrAt;
    PowAt(0, s);
    if num >= div {
      SetBit(r, s);
      var p, p2 := Pow2(s), Pow2(s + 1);
      hide Pow2, LowClear;
      QuotientBit(a, b, s, Num(r), num, p, p2);
      HalfDivisor(b, s, div);
    } else {
      ClearWeaken(r, s);
      hide Pow2, LowClear;
      HalfDivisor(b, s, div);
    }
  }

  lemma HalfDivisor(b: nat, s: nat, div: nat)
    requires div == b * Pow2(s)
    ensures s > 0 ==> div / 2 == b * Pow2(s - 1)
  {
    if s > 0 {
      PowAt(0, s - 1);
      MulDouble(b, Pow2(s - 1));
    }
  }

  lemma ClearWeaken(r: seq<Word>, s: nat)
    requires |r| == 8 && s < 256 && LowClear(r, s + 1)
    ensures LowClear(r, s)
  {
    hide WordClear;
    forall i | 0 <= i < 8 ensures WordClear(r[i], i, s) {
      WordClearWeaken(r[i], i, s);
    }
  }

  lemma WordClearWeaken(x: nat, i: nat, s: nat)
    requires WordClear(x, i, s + 1)
    ensures WordClear(x, i, s)
  {
    hide Pow2;
    if 32 * i <= s < 32 * i + 32 {
      var t := s - 32 * i;
      if t == 31 {
        ZeroMod(Pow2(t));
      } else {
        PowAt(0, t);
        EvenMod(x, Pow2(t));
      }
    }
  }

  lemma EvenMod(x: nat, p: nat)
    requires p > 0 && x % (2 * p) == 0
    ensures x % p == 0
  {
    var m := x / (2 * p);
    DivNat(x, 2 * p);
    assert x == m * (2 * p);
    Regroup(m, p, 2);
    OddTimes(m, p);
    AddTimes3(2 * m, 1, 0, p);
    DivModUnique(x, p, 2 * m, 0);
  }

  /** One turn of the loop: subtract if possible, set the quotient's bit, shift back. */
  method DivideStep(num: seq<Word>, div: seq<Word>, r: seq<Word>, shift: nat, ghost a: nat, ghost b: nat)
    returns (num': seq<Word>, div': seq<Word>, r': seq<Word>)
    requires |num| == |div| == |r| == 8 && Dividing(a, b, shift, Num(num), Num(div), r)
    ensures |num'| == |div'| == |r'| == 8 && Dividing(a, b, shift - 1, Num(num'), Num(div'), r')
  {
    hide Num, LowClear, SupEq, OrAt;
    SupEqMeans(num, div);
    num', r' := num, r;
    SetBit(r, shift);
    if SupEq(num, div) {
      num' := Subtract(num, div);
      r' := r[shift / 32 := OrAt(r, shift)];
    }
    div' := ShiftRight(div, 1);
    Pow2Values();
    DivideKeeps(a, b, shift, Num(num), Num(div), r, Num(num'), r');
  }

  /** The quotient of `a` by `b`, right if and only if the dividend is below 2^255; above, its bit
      count reads as zero and so does the result.  The divisor's bit count must not read as zero. */
  method Divide(a: seq<Word>, b: seq<Word>) returns (r: seq<Word>)
    requires |a| == |b| == 8 && 0 < Num(b) < TWO_255
    ensures |r| == 8 && (Num(a) >= TWO_255 ==> Num(r) == 0)
    ensures Num(r) == Num(a) / Num(b) <==> Num(a) < TWO_255
  {
    hide Num, Dividing, IsBitCount;
    r := [0, 0, 0, 0, 0, 0, 0, 0];
    SmallNum(0);
    var numBits := BitCount(a);
    var divBits := BitCount(b);
    CountsFit(b, divBits);
    if Num(a) >= TWO_255 { CountWraps(a, Num(b), numBits); } else { CountsFit(a, numBits); }
    if divBits > numBits {
      if Num(a) < TWO_255 {
        ShorterIsSmaller(Num(a), Num(b), numBits, divBits);
        DivModUnique(Num(a), Num(b), 0, Num(a));
      }
      return;
    }
    var shift: int := numBits - divBits;
    var num := a;
    var div := ShiftLeft(b, shift);
    DivideStart(Num(a), Num(b), numBits, divBits, Num(div));
    while shift >= 0
      invariant shift >= -1 && |num| == |div| == |r| == 8 && Dividing(Num(a), Num(b), shift, Num(num), Num(div), r)
    {
      num, div, r := DivideStep(num, div, r, shift, Num(a), Num(b));
      shift := shift - 1;
    }
    DivideEnd(Num(a), Num(b), Num(num), Num(div), r);
  }

  lemma DivideStart(a: nat, b: nat, n: nat, d: nat, div: nat)
    requires IsBitCount(a, n) && IsBitCount(b, d) && 0 < d <= n <= 255
    requires div == (b * Pow2(n - d)) % TWO_256
    ensures Dividing(a, b, n - d, a, div, [0, 0, 0, 0, 0, 0, 0, 0])
  {
    Aligned(a, b, n, d);
    ClearStart(n - d + 1);
    SmallNum(0);
    hide Num, LowClear, Pow2;
  }

  lemma DivideEnd(a: nat, b: nat, num: nat, div: nat, r: seq<Word>)
    requires |r| == 8 && b > 0 && Dividing(a, b, -1, num, div, r)
    ensures Num(r) == a / b
  {
    hide Num, LowClear;
    PowZero();
    DivModUnique(a, b, Num(r), num);
  }

  lemma CountsFit(a: seq<Word>, n: nat)
    requires |a| == 8 && Num(a) < TWO_255
    requires n < 256 && exists k: nat :: k <= 256 && n == k % 256 && IsBitCount(Num(a), k)
    ensures IsBitCount(Num(a), n) && (n == 0 <==> Num(a) == 0)
  {
    hide IsBitCount;
    var k: nat :| k <= 256 && n == k % 256 && IsBitCount(Num(a), k);
    CountFits(Num(a), k);
  }

  /** From 2^255 on the 8-bit count reads as zero, although such a number holds any smaller one. */
  lemma CountWraps(a: seq<Word>, b: nat, n: nat)
    requires |a| == 8 && Num(a) >= TWO_255
    requires n < 256 && exists k: nat :: k <= 256 && n == k % 256 && IsBitCount(Num(a), k)
    ensures n == 0 && (0 < b < TWO_255 ==> Num(a) / b != 0)
  {
    hide Num;
    var k: nat :| k <= 256 && n == k % 256 && IsBitCount(Num(a), k);
    if k <= 255 {
      Pow2Mono(k, 255);
      Pow256Bits();
    }
  }
}
