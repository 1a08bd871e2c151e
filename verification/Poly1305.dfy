/**
The Poly1305 authenticator with five 26-bit limbs.

The reference is section 2.5 of RFC 7539: the message, cut into 16-byte blocks
with a one appended, is the coefficients of a polynomial that is evaluated at a
clamped `r` modulo 2^130 - 5; the tag is that value plus `s` modulo 2^128.  The
implementation keeps the accumulator in five words of 26 bits and lets carries
stand until the end.  Words are modelled with their wrap-around, and the proof
shows that none ever happens.
*/
module Poly1305 {
  import opened Bits

  // ------------------------------------------------------ the RFC 7539 reference

  const P: nat := 0x3_FFFF_FFFF_FFFF_FFFF_FFFF_FFFF_FFFF_FFFB
  const TWO_128: nat := 0x1_0000_0000_0000_0000_0000_0000_0000_0000
  const CLAMP: nat := 0x0FFF_FFFC_0FFF_FFFC_0FFF_FFFC_0FFF_FFFF

  /** Little-endian value. */
  function Le(bytes: seq<Byte>): nat {
    if bytes == [] then 0 else bytes[0] + 256 * Le(bytes[1..])
  }

  function BlockLen(data: seq<Byte>): nat {
    if |data| < 16 then |data| else 16
  }

  function Accumulate(r: nat, data: seq<Byte>, acc: nat): nat
    decreases |data|
  {
    if data == [] then acc
    else var n := BlockLen(data); Accumulate(r, data[n..], ((acc + Le(data[..n] + [1])) * r) % P)
  }

  function Tag(key: seq<Byte>, data: seq<Byte>): nat
    requires |key| == 32
  {
    (Accumulate(BitAnd(Le(key[..16]), CLAMP), data, 0) + Le(key[16..])) % TWO_128
  }

  // ------------------------------------------------------------------ machine words

  const TWO_26: nat := 0x400_0000
  const TWO_32: nat := 0x1_0000_0000
  const TWO_64: nat := 0x1_0000_0000_0000_0000

  function U32(x: nat): nat { x % TWO_32 }
  function U64(x: nat): nat { x % TWO_64 }
  function Shl(x: nat, k: nat): nat { (x * k) % TWO_32 }

  /** The value of five limbs. */
  function Val(h0: nat, h1: nat, h2: nat, h3: nat, h4: nat): nat {
    h0 + 0x400_0000 * h1 + 0x10_0000_0000_0000 * h2 + 0x4000_0000_0000_0000_0000 * h3 +
    0x1_0000_0000_0000_0000_0000_0000_00 * h4
  }

  lemma ProductBound(x: nat, y: nat, a: nat, b: nat)
    requires x <= a && y <= b
    ensures x * y <= a * b
  {
    assert x * y <= a * y;
    assert a * y <= a * b;
  }

  lemma Distribute(x: nat, r0: nat, r1: nat, r2: nat, r3: nat, r4: nat)
    ensures x * Val(r0, r1, r2, r3, r4) == Val(x * r0, x * r1, x * r2, x * r3, x * r4)
  {
  }

  // ---------------------------------------------------------- one multiplication

  datatype Limbs = Limbs(x0: nat, x1: nat, x2: nat, x3: nat, x4: nat) {
    function Value(): nat { Val(x0, x1, x2, x3, x4) }

    /** What one block leaves behind: all carried but for a little in the second limb. */
    predicate Carried() {
      x0 < TWO_26 && x1 < TWO_26 + 64 && x2 < TWO_26 && x3 < TWO_26 && x4 < TWO_26
    }

    /** After adding a block. */
    predicate Loaded() {
      x0 < 2 * TWO_26 && x1 < 2 * TWO_26 + 64 && x2 < 2 * TWO_26 && x3 < 2 * TWO_26 && x4 < 0x600_0000
    }

    /** A clamped multiplier. */
    predicate Clamped() {
      x0 < TWO_26 && x1 < TWO_26 && x2 < TWO_26 && x3 < TWO_26 && x4 < 0x10_0000
    }
  }

  /** The five column sums of a product, with columns past the fifth folded back times five. */
  function Columns(h: Limbs, r: Limbs): Limbs {
    Limbs(
      h.x0 * r.x0 + h.x1 * r.x4 * 5 + h.x2 * r.x3 * 5 + h.x3 * r.x2 * 5 + h.x4 * r.x1 * 5,
      h.x0 * r.x1 + h.x1 * r.x0 + h.x2 * r.x4 * 5 + h.x3 * r.x3 * 5 + h.x4 * r.x2 * 5,
      h.x0 * r.x2 + h.x1 * r.x1 + h.x2 * r.x0 + h.x3 * r.x4 * 5 + h.x4 * r.x3 * 5,
      h.x0 * r.x3 + h.x1 * r.x2 + h.x2 * r.x1 + h.x3 * r.x0 + h.x4 * r.x4 * 5,
      h.x0 * r.x4 + h.x1 * r.x3 + h.x2 * r.x2 + h.x3 * r.x1 + h.x4 * r.x0)
  }

  /** How often 2^130 - 5 was folded away. */
  function Folded(h: Limbs, r: Limbs): nat {
    h.x1 * r.x4 + h.x2 * r.x3 + h.x3 * r.x2 + h.x4 * r.x1 +
    0x400_0000 * (h.x2 * r.x4 + h.x3 * r.x3 + h.x4 * r.x2) +
    0x10_0000_0000_0000 * (h.x3 * r.x4 + h.x4 * r.x3) +
    0x4000_0000_0000_0000_0000 * (h.x4 * r.x4)
  }

  lemma ColumnsMeanProduct(h: Limbs, r: Limbs)
    ensures h.Value() * r.Value() == Columns(h, r).Value() + P * Folded(h, r)
  {
    var v := r.Value();
    Distribute(h.x0, r.x0, r.x1, r.x2, r.x3, r.x4);
    Distribute(h.x1, r.x0, r.x1, r.x2, r.x3, r.x4);
    Distribute(h.x2, r.x0, r.x1, r.x2, r.x3, r.x4);
    Distribute(h.x3, r.x0, r.x1, r.x2, r.x3, r.x4);
    Distribute(h.x4, r.x0, r.x1, r.x2, r.x3, r.x4);
    Distribute(v, h.x0, h.x1, h.x2, h.x3, h.x4);
    Commute(v, h.x0); Commute(v, h.x1); Commute(v, h.x2); Commute(v, h.x3); Commute(v, h.x4);
    Commute(v, h.Value());
  }

  lemma Commute(x: nat, y: nat)
    ensures x * y == y * x
  {
  }

  /** No column leaves its 64-bit word, and every carry out of one fits 32 bits. */
  lemma ColumnsFit(h: Limbs, r: Limbs)
    requires h.Loaded() && r.Clamped()
    ensures ColumnsInRange(Columns(h, r))
  {
    RowBound(h.x0, r, 2 * TWO_26);
    RowBound(h.x1, r, 2 * TWO_26 + 64);
    RowBound(h.x2, r, 2 * TWO_26);
    RowBound(h.x3, r, 2 * TWO_26);
    RowBound(h.x4, r, 0x600_0000);
  }

  lemma RowBound(x: nat, r: Limbs, b: nat)
    requires x <= b && r.Clamped()
    ensures x * r.x0 <= b * TWO_26 && x * r.x1 <= b * TWO_26 && x * r.x2 <= b * TWO_26 && x * r.x3 <= b * TWO_26
    ensures x * r.x4 <= b * 0x10_0000
  {
    ProductBound(x, r.x0, b, TWO_26);
    ProductBound(x, r.x1, b, TWO_26);
    ProductBound(x, r.x2, b, TWO_26);
    ProductBound(x, r.x3, b, TWO_26);
    ProductBound(x, r.x4, b, 0x10_0000);
  }

  /** The carry out of a column and what stays in it. */
  function Hi(x: nat): nat { x / TWO_26 }
  function Lo(x: nat): nat { x % TWO_26 }

  lemma HiLo(x: nat)
    ensures x == 0x400_0000 * Hi(x) + Lo(x) && Lo(x) < TWO_26
  {
  }

  /** The carry pass over five columns, as the source orders it. */
  function Carry(d: Limbs): Limbs {
    var d1 := U64(d.x1 + U32(Hi(d.x0)));
    var d2 := U64(d.x2 + U32(Hi(d1)));
    var d3 := U64(d.x3 + U32(Hi(d2)));
    var d4 := U64(d.x4 + U32(Hi(d3)));
    var h0 := U32(Lo(d.x0) + U32(U32(Hi(d4)) * 5));
    Limbs(Lo(h0), U32(Lo(d1) + Hi(h0)), Lo(d2), Lo(d3), Lo(d4))
  }

  lemma Small(x: nat)
    ensures x < TWO_32 ==> U32(x) == x
    ensures x < TWO_64 ==> U64(x) == x
  {
  }

  /** One carry: the column takes the carry of the one before without wrapping. */
  lemma CarryIn(d: nat, below: nat)
    requires d < 0x200_0000_0000_0000 && below < 0x201_0000_0000_0000
    ensures U64(d + U32(Hi(below))) == d + Hi(below) < 0x201_0000_0000_0000
  {
    hide U32, U64;
    Small(Hi(below));
    Small(d + Hi(below));
  }

  lemma CarriesAddUp(d: Limbs, m: Limbs, q0: nat, q1: nat, q2: nat, q3: nat, q4: nat, c: nat, g0: nat)
    requires d.x0 == 0x400_0000 * q0 + m.x0 && d.x1 + q0 == 0x400_0000 * q1 + m.x1
    requires d.x2 + q1 == 0x400_0000 * q2 + m.x2 && d.x3 + q2 == 0x400_0000 * q3 + m.x3
    requires d.x4 + q3 == 0x400_0000 * q4 + m.x4 && m.x0 + 5 * q4 == 0x400_0000 * c + g0
    ensures d.Value() == Limbs(g0, m.x1 + c, m.x2, m.x3, m.x4).Value() + P * q4
  {
  }

  /** The carry pass without wrap-around. */
  function PlainCarry(d: Limbs): Limbs {
    var d1 := d.x1 + Hi(d.x0);
    var d2 := d.x2 + Hi(d1);
    var d3 := d.x3 + Hi(d2);
    var d4 := d.x4 + Hi(d3);
    var h0 := Lo(d.x0) + Hi(d4) * 5;
    Limbs(Lo(h0), Lo(d1) + Hi(h0), Lo(d2), Lo(d3), Lo(d4))
  }

  ghost predicate ColumnsInRange(d: Limbs) {
    && d.x0 < 0x200_0000_0000_0000 && d.x1 < 0x200_0000_0000_0000 && d.x2 < 0x200_0000_0000_0000
    && d.x3 < 0x200_0000_0000_0000 && d.x4 < 0x80_0000_0000_0000
  }

  /** No word wraps around in a carry pass. */
  lemma CarryNeverWraps(d: Limbs)
    requires ColumnsInRange(d)
    ensures Carry(d) == PlainCarry(d) && Carry(d).Carried()
  {
    hide U32, U64, Hi, Lo;
    HiLo(d.x0);
    CarryIn(d.x1, d.x0);
    var d1 := d.x1 + Hi(d.x0);
    CarryIn(d.x2, d1);
    var d2 := d.x2 + Hi(d1);
    CarryIn(d.x3, d2);
    var d3 := d.x3 + Hi(d2);
    CarryIn(d.x4, d3);
    TopCarry(d.x4, d3);
    var d4 := d.x4 + Hi(d3);
    HiLo(d1); HiLo(d2); HiLo(d3); HiLo(d4);
    HiLo(Lo(d.x0) + Hi(d4) * 5);
    CarryOut(Lo(d.x0), Lo(d1), Hi(d4));
  }

  /** Folding the last carry back into the first two limbs. */
  lemma CarryOut(m0: nat, m1: nat, k: nat)
    requires m0 < TWO_26 && m1 < TWO_26 && k < 0x2100_0000
    ensures U32(m0 + U32(U32(k) * 5)) == m0 + k * 5
    ensures U32(m1 + Hi(m0 + k * 5)) == m1 + Hi(m0 + k * 5) < TWO_26 + 64
  {
    hide U32, U64;
    Small(k);
    Small(k * 5);
    Small(m0 + k * 5);
    Small(m1 + Hi(m0 + k * 5));
  }

  lemma TopCarry(d4: nat, below: nat)
    requires d4 < 0x80_0000_0000_0000 && below < 0x201_0000_0000_0000
    ensures Hi(d4 + Hi(below)) < 0x2100_0000
  {
  }

  /** A carry pass keeps the value modulo 2^130 - 5. */
  lemma CarryKeepsValue(d: Limbs) returns (k: nat)
    ensures d.Value() == PlainCarry(d).Value() + P * k
  {
    hide Limbs.Value, Hi, Lo;
    var d1 := d.x1 + Hi(d.x0);
    var d2 := d.x2 + Hi(d1);
    var d3 := d.x3 + Hi(d2);
    var d4 := d.x4 + Hi(d3);
    k := Hi(d4);
    var h0 := Lo(d.x0) + k * 5;
    HiLo(d.x0); HiLo(d1); HiLo(d2); HiLo(d3); HiLo(d4); HiLo(h0);
    var m := Limbs(Lo(d.x0), Lo(d1), Lo(d2), Lo(d3), Lo(d4));
    CarriesAddUp(d, m, Hi(d.x0), Hi(d1), Hi(d2), Hi(d3), k, Hi(h0), Lo(h0));
  }

  lemma ModOfMultiple(a: int, b: int, k: int)
    requires a == b + P * k
    ensures a % P == b % P
  {
  }

  /** A multiplication by `r` modulo 2^130 - 5. */
  lemma MultiplyStep(h: Limbs, r: Limbs)
    requires h.Loaded() && r.Clamped()
    ensures Carry(Columns(h, r)).Carried()
    ensures Carry(Columns(h, r)).Value() % P == (h.Value() * r.Value()) % P
  {
    hide Columns, Carry, PlainCarry, Limbs.Value, Limbs.Carried, Folded, ColumnsInRange;
    ColumnsFit(h, r);
    CarryNeverWraps(Columns(h, r));
    ColumnsMeanProduct(h, r);
    var d := Columns(h, r);
    var k := CarryKeepsValue(d);
    ModOfMultiple(h.Value() * r.Value(), d.Value(), Folded(h, r));
    ModOfMultiple(d.Value(), Carry(d).Value(), k);
  }

  // ------------------------------------------------------ words, blocks and the key

  /** Sixteen bytes as four 32-bit words. */
  datatype Words = Words(t0: nat, t1: nat, t2: nat, t3: nat) {
    predicate Fit() { t0 < TWO_32 && t1 < TWO_32 && t2 < TWO_32 && t3 < TWO_32 }
    function Value(): nat {
      t0 + 0x1_0000_0000 * t1 + 0x1_0000_0000_0000_0000 * t2 + 0x1_0000_0000_0000_0000_0000_0000 * t3
    }
  }

  /** The four overlapping pieces that two neighbouring words contribute to. */
  function Piece1(w: Words): nat { BitOr(w.t0 / 0x400_0000, Shl(w.t1, 0x40)) }
  function Piece2(w: Words): nat { BitOr(w.t1 / 0x10_0000, Shl(w.t2, 0x1000)) }
  function Piece3(w: Words): nat { BitOr(w.t2 / 0x4000, Shl(w.t3, 0x4_0000)) }

  lemma Pieces(w: Words)
    requires w.Fit()
    ensures Piece1(w) == w.t0 / 0x400_0000 + 0x40 * (w.t1 % 0x400_0000)
    ensures Piece2(w) == w.t1 / 0x10_0000 + 0x1000 * (w.t2 % 0x10_0000)
    ensures Piece3(w) == w.t2 / 0x4000 + 0x4_0000 * (w.t3 % 0x4000)
  {
    hide BitOr, Pow2;
    Pow2Values();
    assert Shl(w.t1, 0x40) == (w.t1 % 0x400_0000) * 0x40;
    assert Shl(w.t2, 0x1000) == (w.t2 % 0x10_0000) * 0x1000;
    assert Shl(w.t3, 0x4_0000) == (w.t3 % 0x4000) * 0x4_0000;
    OrDisjoint(w.t0 / 0x400_0000, w.t1 % 0x400_0000, 6);
    OrDisjoint(w.t1 / 0x10_0000, w.t2 % 0x10_0000, 12);
    OrDisjoint(w.t2 / 0x4000, w.t3 % 0x4000, 18);
  }

  /** The limbs of a block; a full block has a one above its 128 bits. */
  function BlockLimbs(w: Words, full: bool): Limbs {
    Limbs(BitAnd(w.t0, 0x3FF_FFFF), BitAnd(Piece1(w), 0x3FF_FFFF), BitAnd(Piece2(w), 0x3FF_FFFF),
          BitAnd(Piece3(w), 0x3FF_FFFF), BitOr(w.t3 / 0x100, if full then 0x100_0000 else 0))
  }

  lemma BlockLimbsValue(w: Words, full: bool)
    requires w.Fit()
    ensures var x := BlockLimbs(w, full);
            && x.x0 < TWO_26 && x.x1 < TWO_26 && x.x2 < TWO_26 && x.x3 < TWO_26 && x.x4 < 0x200_0000
            && x.Value() == w.Value() + (if full then TWO_128 else 0)
  {
    hide Pow2, Piece1, Piece2, Piece3, Limbs.Value, Words.Value;
    BlockLimbsParts(w, full);
    LowPart1(w.t0 / 0x400_0000, w.t1);
    LowPart2(w.t1 / 0x10_0000, w.t2);
    LowPart3(w.t2 / 0x4000, w.t3);
    Reassemble(w, BlockLimbs(w, false), w.t0 / 0x400_0000, w.t1 / 0x10_0000, w.t1 % 0x10_0000,
               w.t2 / 0x4000, w.t2 % 0x4000, w.t3 % 0x100);
    TopBit(BlockLimbs(w, false));
  }

  lemma BlockLimbsParts(w: Words, full: bool)
    requires w.Fit()
    ensures BlockLimbs(w, full) ==
            Limbs(w.t0 % 0x400_0000,
                  (w.t0 / 0x400_0000 + 0x40 * (w.t1 % 0x400_0000)) % 0x400_0000,
                  (w.t1 / 0x10_0000 + 0x1000 * (w.t2 % 0x10_0000)) % 0x400_0000,
                  (w.t2 / 0x4000 + 0x4_0000 * (w.t3 % 0x4000)) % 0x400_0000,
                  w.t3 / 0x100 + if full then 0x100_0000 else 0)
  {
    hide BitAnd, BitOr, Pow2, Piece1, Piece2, Piece3;
    Pow2Values();
    Pieces(w);
    AndOnes(w.t0, 26);
    AndOnes(Piece1(w), 26);
    AndOnes(Piece2(w), 26);
    AndOnes(Piece3(w), 26);
    OrDisjoint(w.t3 / 0x100, 1, 24);
    AndZero(w.t3 / 0x100);
  }

  lemma LowPart1(v: nat, t: nat)
    requires v < 0x40
    ensures (v + 0x40 * (t % 0x400_0000)) % 0x400_0000 == v + 0x40 * (t % 0x10_0000)
  {
  }

  lemma LowPart2(v: nat, t: nat)
    requires v < 0x1000
    ensures (v + 0x1000 * (t % 0x10_0000)) % 0x400_0000 == v + 0x1000 * (t % 0x4000)
  {
  }

  lemma LowPart3(v: nat, t: nat)
    requires v < 0x4_0000
    ensures (v + 0x4_0000 * (t % 0x4000)) % 0x400_0000 == v + 0x4_0000 * (t % 0x100)
  {
  }

  lemma Reassemble(w: Words, x: Limbs, a0: nat, a1: nat, b1: nat, a2: nat, b2: nat, b3: nat)
    requires w.t0 == 0x400_0000 * a0 + x.x0 && w.t1 == 0x10_0000 * a1 + b1 && w.t2 == 0x4000 * a2 + b2
    requires w.t3 == 0x100 * x.x4 + b3
    requires x.x1 == a0 + 0x40 * b1 && x.x2 == a1 + 0x1000 * b2 && x.x3 == a2 + 0x4_0000 * b3
    ensures x.Value() == w.Value()
  {
  }

  lemma TopBit(x: Limbs)
    ensures x.(x4 := x.x4 + 0x100_0000).Value() == x.Value() + TWO_128
  {
  }

  /** The limbs of the clamped multiplier. */
  function KeyLimbs(w: Words): Limbs {
    Limbs(BitAnd(w.t0, 0x3FF_FFFF), BitAnd(Piece1(w), 0x3FF_FF03), BitAnd(Piece2(w), 0x3FF_C0FF),
          BitAnd(Piece3(w), 0x3F0_3FFF), BitAnd(w.t3 / 0x100, 0xF_FFFF))
  }

  /** A mask of two runs of ones, the lower one of `a` bits, the upper one of `b` bits from bit `k`. */
  function RunMask(k: nat, a: nat, b: nat): nat {
    NatTimes(Pow2(b) - 1, Pow2(k));
    (Pow2(b) - 1) * Pow2(k) + (Pow2(a) - 1)
  }

  lemma NatTimes(x: nat, y: nat)
    ensures x * y >= 0
  {
  }

  lemma TwoRuns(x: nat, k: nat, a: nat, b: nat)
    requires a <= k && Pow2(a) <= Pow2(k)
    ensures BitAnd(x, RunMask(k, a, b)) == (x / Pow2(k)) % Pow2(b) * Pow2(k) + x % Pow2(k) % Pow2(a)
  {
    hide BitAnd, Pow2;
    var p := Pow2(k);
    AndSplit(k, x / p, x % p, Pow2(b) - 1, Pow2(a) - 1);
    AndOnes(x / p, b);
    AndOnes(x % p, a);
    assert x / p * p + x % p == x;
  }

  lemma KeyMasks(w: Words)
    requires w.Fit()
    ensures var r := KeyLimbs(w);
            && r.x0 == w.t0 % 0x400_0000
            && r.x1 == Piece1(w) / 0x100 % 0x4_0000 * 0x100 + Piece1(w) % 0x100 % 4
            && r.x2 == Piece2(w) / 0x4000 % 0x1000 * 0x4000 + Piece2(w) % 0x4000 % 0x100
            && r.x3 == Piece3(w) / 0x10_0000 % 0x40 * 0x10_0000 + Piece3(w) % 0x10_0000 % 0x4000
            && r.x4 == w.t3 / 0x100 % 0x10_0000
  {
    hide BitAnd, Pow2, Piece1, Piece2, Piece3;
    Pow2Values();
    AndOnes(w.t0, 26);
    TwoRuns(Piece1(w), 8, 2, 18);
    TwoRuns(Piece2(w), 14, 8, 12);
    TwoRuns(Piece3(w), 20, 14, 6);
    AndOnes(w.t3 / 0x100, 20);
  }

  lemma PieceBits1(v: nat, t: nat)
    requires v < 0x40
    ensures var x := v + 0x40 * (t % 0x400_0000); x / 0x100 % 0x4_0000 == t / 4 % 0x4_0000 && x % 0x100 % 4 == v % 4
  {
    var x := v + 0x40 * (t % 0x400_0000);
    DivModUnique(x, 0x40, t % 0x400_0000, v);
    DivModTwice(x, 0x40, 4);
    DivModTwice(t, 4, 0x100_0000);
    DivModTwice(t / 4, 0x4_0000, 0x40);
  }

  lemma PieceBits2(v: nat, t: nat)
    requires v < 0x1000
    ensures var x := v + 0x1000 * (t % 0x10_0000);
            x / 0x4000 % 0x1000 == t / 4 % 0x1000 && x % 0x4000 % 0x100 == v % 0x100
  {
    var x := v + 0x1000 * (t % 0x10_0000);
    DivModUnique(x, 0x1000, t % 0x10_0000, v);
    DivModTwice(x, 0x1000, 4);
    DivModTwice(t, 4, 0x4_0000);
    DivModTwice(t / 4, 0x1000, 0x40);
    LowBitsOf(v, 0x100, 0x10 * (x / 0x1000 % 4));
  }

  lemma PieceBits3(v: nat, t: nat)
    requires v < 0x4_0000
    ensures var x := v + 0x4_0000 * (t % 0x4000);
            x / 0x10_0000 % 0x40 == t / 4 % 0x40 && x % 0x10_0000 % 0x4000 == v % 0x4000
  {
    var x := v + 0x4_0000 * (t % 0x4000);
    DivModUnique(x, 0x4_0000, t % 0x4000, v);
    DivModTwice(x, 0x4_0000, 4);
    DivModTwice(t, 4, 0x1000);
    DivModTwice(t / 4, 0x40, 0x40);
    LowBitsOf(v, 0x4000, 0x10 * (x / 0x4_0000 % 4));
  }

  lemma LowBitsOf(v: nat, d: nat, k: nat)
    requires d > 0
    ensures (v + d * k) % d == v % d
  {
    var q, r := v / d, v % d;
    assert v == q * d + r;
    assert (q + k) * d == q * d + d * k;
    DivModUnique(v + d * k, d, q + k, r);
  }

  /** The bits a clamped word keeps, cut where the limbs cut them. */
  lemma ClampedWord(t: nat)
    ensures t % 0x1000_0000 == t % 0x400_0000 + 0x400_0000 * (t / 0x400_0000 % 4)
    ensures t / 4 % 0x400_0000 * 4 == 4 * (t / 4 % 0x4_0000) + 0x10_0000 * (t / 0x10_0000 % 0x100)
    ensures t / 4 % 0x400_0000 * 4 == 4 * (t / 4 % 0x1000) + 0x4000 * (t / 0x4000 % 0x4000)
    ensures t / 4 % 0x400_0000 * 4 == 4 * (t / 4 % 0x40) + 0x100 * (t / 0x100 % 0x10_0000)
  {
    DivModTwice(t, 0x400_0000, 4);
    DivModTwice(t / 4, 0x4_0000, 0x100);
    DivModTwice(t, 4, 0x4_0000);
    DivModTwice(t / 4, 0x1000, 0x4000);
    DivModTwice(t, 4, 0x1000);
    DivModTwice(t / 4, 0x40, 0x10_0000);
    DivModTwice(t, 4, 0x40);
  }

  lemma KeyLimbsParts(w: Words)
    requires w.Fit()
    ensures KeyLimbs(w) ==
            Limbs(w.t0 % 0x400_0000,
                  w.t1 / 4 % 0x4_0000 * 0x100 + w.t0 / 0x400_0000 % 4,
                  w.t2 / 4 % 0x1000 * 0x4000 + w.t1 / 0x10_0000 % 0x100,
                  w.t3 / 4 % 0x40 * 0x10_0000 + w.t2 / 0x4000 % 0x4000,
                  w.t3 / 0x100 % 0x10_0000)
  {
    hide KeyLimbs, Piece1, Piece2, Piece3;
    KeyMasks(w);
    Pieces(w);
    PieceBits1(w.t0 / 0x400_0000, w.t1);
    PieceBits2(w.t1 / 0x10_0000, w.t2);
    PieceBits3(w.t2 / 0x4000, w.t3);
  }

  function ClampedWords(w: Words): Words {
    Words(w.t0 % 0x1000_0000, w.t1 / 4 % 0x400_0000 * 4, w.t2 / 4 % 0x400_0000 * 4, w.t3 / 4 % 0x400_0000 * 4)
  }

  lemma AndClampWord(t: nat)
    ensures BitAnd(t, 0xFFF_FFFF) == t % 0x1000_0000
    ensures BitAnd(t, 0xFFF_FFFC) == t / 4 % 0x400_0000 * 4
  {
    hide BitAnd, Pow2;
    Pow2Values();
    AndOnes(t, 28);
    AndSplit(2, t / 4, t % 4, 0x3FF_FFFF, 0);
    AndOnes(t / 4, 26);
    AndZero(t % 4);
  }

  /** Masking the low word and the rest separately. */
  lemma AndLowWord(t: nat, rest: nat, m: nat, mrest: nat)
    requires t < TWO_32 && m < TWO_32
    ensures BitAnd(rest * 0x1_0000_0000 + t, mrest * 0x1_0000_0000 + m) ==
            BitAnd(rest, mrest) * 0x1_0000_0000 + BitAnd(t, m)
  {
    hide BitAnd, Pow2;
    Pow2Values();
    AndSplit(32, rest, t, mrest, m);
  }

  lemma ClampIsWordwise(w: Words)
    requires w.Fit()
    ensures BitAnd(w.Value(), CLAMP) == ClampedWords(w).Value()
  {
    hide BitAnd;
    AndClampWord(w.t0); AndClampWord(w.t1); AndClampWord(w.t2); AndClampWord(w.t3);
    var q2 := w.t3 * 0x1_0000_0000 + w.t2;
    var q1 := q2 * 0x1_0000_0000 + w.t1;
    AndLowWord(w.t2, w.t3, 0xFFF_FFFC, 0xFFF_FFFC);
    AndLowWord(w.t1, q2, 0xFFF_FFFC, 0xFFF_FFFC_0FFF_FFFC);
    AndLowWord(w.t0, q1, 0xFFF_FFFF, 0xFFF_FFFC_0FFF_FFFC_0FFF_FFFC);
    assert w.Value() == q1 * 0x1_0000_0000 + w.t0;
  }

  /** The limbs hold exactly the clamped multiplier of RFC 7539. */
  lemma KeyLimbsValue(w: Words)
    requires w.Fit()
    ensures KeyLimbs(w).Clamped() && KeyLimbs(w).Value() == BitAnd(w.Value(), CLAMP)
  {
    hide BitAnd, KeyLimbs, CLAMP;
    KeyLimbsParts(w);
    ClampIsWordwise(w);
    ClampedWord(w.t0); ClampedWord(w.t1); ClampedWord(w.t2); ClampedWord(w.t3);
    var c := ClampedWords(w);
    assert c.t0 == w.t0 % 0x400_0000 + 0x400_0000 * (w.t0 / 0x400_0000 % 4);
    assert c.t1 == 4 * (w.t1 / 4 % 0x4_0000) + 0x10_0000 * (w.t1 / 0x10_0000 % 0x100);
    assert c.t2 == 4 * (w.t2 / 4 % 0x1000) + 0x4000 * (w.t2 / 0x4000 % 0x4000);
    assert c.t3 == 4 * (w.t3 / 4 % 0x40) + 0x100 * (w.t3 / 0x100 % 0x10_0000);
  }

  // --------------------------------------------------------------- the final steps

  /** Carries everything, folding the last carry back times five. */
  function FullCarry(h: Limbs): Limbs {
    var h2 := U32(h.x2 + h.x1 / TWO_26);
    var h3 := U32(h.x3 + h2 / TWO_26);
    var h4 := U32(h.x4 + h3 / TWO_26);
    var h0 := U32(h.x0 + U32(h4 / TWO_26 * 5));
    Limbs(h0 % TWO_26, U32(h.x1 % TWO_26 + h0 / TWO_26), h2 % TWO_26, h3 % TWO_26, h4 % TWO_26)
  }

  predicate Full(h: Limbs) {
    h.x0 < TWO_26 && h.x1 < TWO_26 && h.x2 < TWO_26 && h.x3 < TWO_26 && h.x4 < TWO_26
  }

  lemma FullCarryValue(h: Limbs)
    requires h.Carried()
    ensures Full(FullCarry(h)) && FullCarry(h).Value() % P == h.Value() % P
  {
    hide U32, Limbs.Value, P;
    var q1 := h.x1 / TWO_26;
    assert q1 <= 1 && (q1 == 1 ==> h.x1 % TWO_26 < 64);
    Small(h.x2 + q1);
    var h2 := h.x2 + q1;
    Small(h.x3 + h2 / TWO_26);
    var h3 := h.x3 + h2 / TWO_26;
    Small(h.x4 + h3 / TWO_26);
    var h4 := h.x4 + h3 / TWO_26;
    var k := h4 / TWO_26;
    assert k <= 1 && (k == 1 ==> q1 == 1);
    Small(k * 5);
    var h0 := h.x0 + k * 5;
    Small(h0);
    Small(h.x1 % TWO_26 + h0 / TWO_26);
    var m := Limbs(h.x0, h.x1 % TWO_26, h2 % TWO_26, h3 % TWO_26, h4 % TWO_26);
    CarriesAddUp(h, m, 0, q1, h2 / TWO_26, h3 / TWO_26, k, h0 / TWO_26, h0 % TWO_26);
    ModOfMultiple(h.Value(), FullCarry(h).Value(), k);
  }

  /** `h` minus 2^130 - 5, as `h` plus 5 with bit 130 taken off; the last limb wraps when negative. */
  function MinusP(h: Limbs): Limbs {
    var t0 := U32(h.x0 + 5);
    var t1 := U32(h.x1 + t0 / TWO_26);
    var t2 := U32(h.x2 + t1 / TWO_26);
    var t3 := U32(h.x3 + t2 / TWO_26);
    Limbs(t0 % TWO_26, t1 % TWO_26, t2 % TWO_26, t3 % TWO_26, U32(h.x4 + t3 / TWO_26 + TWO_32 - TWO_26))
  }

  lemma MinusPValue(h: Limbs)
    requires Full(h)
    ensures h.Value() >= P ==> MinusP(h).x4 < 0x8000_0000 && MinusP(h).Value() == h.Value() - P && Full(MinusP(h))
    ensures h.Value() < P ==> 0x8000_0000 <= MinusP(h).x4 < TWO_32
  {
    hide U32, Limbs.Value, P;
    Small(h.x0 + 5);
    var t0 := h.x0 + 5;
    Small(h.x1 + t0 / TWO_26);
    var t1 := h.x1 + t0 / TWO_26;
    Small(h.x2 + t1 / TWO_26);
    var t2 := h.x2 + t1 / TWO_26;
    Small(h.x3 + t2 / TWO_26);
    var t3 := h.x3 + t2 / TWO_26;
    var t4 := h.x4 + t3 / TWO_26;
    WrapTop(t4);
    PlusFive(h, t0 / TWO_26, t0 % TWO_26, t1 / TWO_26, t1 % TWO_26, t2 / TWO_26, t2 % TWO_26, t3 / TWO_26, t3 % TWO_26);
    var m := Limbs(t0 % TWO_26, t1 % TWO_26, t2 % TWO_26, t3 % TWO_26, t4);
    assert MinusP(h) == m.(x4 := U32(t4 + TWO_32 - TWO_26));
    hide MinusP;
    TopDecides(h.Value(), m);
  }

  /** A value plus 5 reaches 2^130 exactly when its top limb reaches 2^26. */
  lemma TopDecides(v: nat, m: Limbs)
    requires v + 5 == m.Value() && m.x0 < TWO_26 && m.x1 < TWO_26 && m.x2 < TWO_26 && m.x3 < TWO_26 && m.x4 <= TWO_26
    ensures v >= P <==> m.x4 == TWO_26
    ensures m.x4 == TWO_26 ==> m.(x4 := 0).Value() == v - P
  {
  }

  /** Adding 5 with carries q0 to q3 leaves the limbs m0 to m3. */
  lemma PlusFive(h: Limbs, q0: nat, m0: nat, q1: nat, m1: nat, q2: nat, m2: nat, q3: nat, m3: nat)
    requires h.x0 + 5 == q0 * TWO_26 + m0 && h.x1 + q0 == q1 * TWO_26 + m1
    requires h.x2 + q1 == q2 * TWO_26 + m2 && h.x3 + q2 == q3 * TWO_26 + m3
    ensures h.Value() + 5 == Limbs(m0, m1, m2, m3, h.x4 + q3).Value()
  {
  }

  lemma WrapTop(t: nat)
    requires t <= TWO_26
    ensures t == TWO_26 ==> U32(t + TWO_32 - TWO_26) == 0
    ensures t < TWO_26 ==> U32(t + TWO_32 - TWO_26) == t + TWO_32 - TWO_26
  {
  }

  /** All ones if the top bit of `t` is clear, else zero. */
  function SelectMask(t: nat): nat {
    U32(t / 0x8000_0000 + TWO_32 - 1)
  }

  function Choose(x: nat, y: nat, b: nat): nat
    requires b < TWO_32
  {
    BitOr(BitAnd(x, TWO_32 - 1 - b), BitAnd(y, b))
  }

  lemma ChooseMeans(x: nat, y: nat, t: nat)
    requires t < TWO_32 && x < TWO_32 && y < TWO_32
    ensures SelectMask(t) < TWO_32
    ensures Choose(x, y, SelectMask(t)) == if t < 0x8000_0000 then y else x
  {
    hide BitAnd, BitOr, Pow2;
    Pow2Values();
    AndOnes(x, 32); AndOnes(y, 32);
    AndZero(x); AndZero(y);
    assert t < 0x8000_0000 ==> t / 0x8000_0000 == 0;
    assert t >= 0x8000_0000 ==> t / 0x8000_0000 == 1;
  }

  /** The value reduced below 2^130 - 5. */
  function Reduced(h: Limbs): Limbs {
    var t := MinusP(h);
    var b := SelectMask(t.x4);
    Limbs(Choose(h.x0, t.x0, b), Choose(h.x1, t.x1, b), Choose(h.x2, t.x2, b), Choose(h.x3, t.x3, b),
          Choose(h.x4, t.x4, b))
  }

  lemma ReducedValue(h: Limbs)
    requires Full(h)
    ensures Full(Reduced(h)) && Reduced(h).Value() == h.Value() % P
  {
    hide Choose, SelectMask, MinusP;
    MinusPValue(h);
    var t := MinusP(h);
    assert t.x0 < TWO_32 && t.x1 < TWO_32 && t.x2 < TWO_32 && t.x3 < TWO_32 && t.x4 < TWO_32 by { MinusPWords(h); }
    ChooseMeans(h.x0, t.x0, t.x4); ChooseMeans(h.x1, t.x1, t.x4); ChooseMeans(h.x2, t.x2, t.x4);
    ChooseMeans(h.x3, t.x3, t.x4); ChooseMeans(h.x4, t.x4, t.x4);
    assert Reduced(h) == if h.Value() >= P then t else h;
  }

  lemma MinusPWords(h: Limbs)
    ensures var t := MinusP(h); t.x0 < TWO_26 && t.x1 < TWO_26 && t.x2 < TWO_26 && t.x3 < TWO_26 && t.x4 < TWO_32
  {
  }

  /** The low 128 bits as words. */
  function Packed(h: Limbs): Words {
    Words(U32(BitOr(h.x0, Shl(h.x1, 0x400_0000))), U32(BitOr(h.x1 / 0x40, Shl(h.x2, 0x10_0000))),
          U32(BitOr(h.x2 / 0x1000, Shl(h.x3, 0x4000))), U32(BitOr(h.x3 / 0x4_0000, Shl(h.x4, 0x100))))
  }

  lemma PackedParts(h: Limbs)
    requires Full(h)
    ensures Packed(h) == Words(h.x0 + h.x1 % 0x40 * 0x400_0000, h.x1 / 0x40 + h.x2 % 0x1000 * 0x10_0000,
                               h.x2 / 0x1000 + h.x3 % 0x4_0000 * 0x4000, h.x3 / 0x4_0000 + h.x4 % 0x100_0000 * 0x100)
    ensures Packed(h).Fit()
  {
    hide BitOr, Pow2;
    Pow2Values();
    assert Shl(h.x1, 0x400_0000) == h.x1 % 0x40 * 0x400_0000;
    assert Shl(h.x2, 0x10_0000) == h.x2 % 0x1000 * 0x10_0000;
    assert Shl(h.x3, 0x4000) == h.x3 % 0x4_0000 * 0x4000;
    assert Shl(h.x4, 0x100) == h.x4 % 0x100_0000 * 0x100;
    OrDisjoint(h.x0, h.x1 % 0x40, 26);
    OrDisjoint(h.x1 / 0x40, h.x2 % 0x1000, 20);
    OrDisjoint(h.x2 / 0x1000, h.x3 % 0x4_0000, 14);
    OrDisjoint(h.x3 / 0x4_0000, h.x4 % 0x100_0000, 8);
  }

  lemma Unpack(h: Limbs, w: Words, a1: nat, b1: nat, a2: nat, b2: nat, a3: nat, b3: nat, a4: nat, b4: nat)
    requires h.x1 == 0x40 * a1 + b1 && h.x2 == 0x1000 * a2 + b2
    requires h.x3 == 0x4_0000 * a3 + b3 && h.x4 == 0x100_0000 * a4 + b4
    requires w.t0 == h.x0 + b1 * 0x400_0000 && w.t1 == a1 + b2 * 0x10_0000 && w.t2 == a2 + b3 * 0x4000
    requires w.t3 == a3 + b4 * 0x100
    ensures h.Value() == w.Value() + TWO_128 * a4
  {
  }

  lemma PackedValue(h: Limbs)
    requires Full(h)
    ensures Packed(h).Fit() && Packed(h).Value() == h.Value() % TWO_128
  {
    hide Packed, Limbs.Value, Words.Value;
    PackedParts(h);
    Unpack(h, Packed(h), h.x1 / 0x40, h.x1 % 0x40, h.x2 / 0x1000, h.x2 % 0x1000,
           h.x3 / 0x4_0000, h.x3 % 0x4_0000, h.x4 / 0x100_0000, h.x4 % 0x100_0000);
    FitBound(Packed(h));
    LowPartOf(h.Value(), Packed(h).Value(), h.x4 / 0x100_0000);
  }

  /** Addition modulo 2^128. */
  function AddWords(h: Words, s: Words): Words {
    var d0 := U64(h.t0 + s.t0);
    var d1 := U64(h.t1 + s.t1 + d0 / TWO_32);
    var d2 := U64(h.t2 + s.t2 + d1 / TWO_32);
    var d3 := U64(h.t3 + s.t3 + d2 / TWO_32);
    Words(U32(d0), U32(d1), U32(d2), U32(d3))
  }

  lemma WordCarriesAddUp(h: Words, s: Words, m: Words, q0: nat, q1: nat, q2: nat, q3: nat)
    requires h.t0 + s.t0 == 0x1_0000_0000 * q0 + m.t0 && h.t1 + s.t1 + q0 == 0x1_0000_0000 * q1 + m.t1
    requires h.t2 + s.t2 + q1 == 0x1_0000_0000 * q2 + m.t2 && h.t3 + s.t3 + q2 == 0x1_0000_0000 * q3 + m.t3
    ensures h.Value() + s.Value() == m.Value() + TWO_128 * q3
  {
  }

  lemma LowPartOf(x: nat, m: nat, q: nat)
    requires x == m + TWO_128 * q && m < TWO_128
    ensures x % TWO_128 == m
  {
  }

  lemma AddWordsValue(h: Words, s: Words)
    requires h.Fit() && s.Fit()
    ensures AddWords(h, s).Fit() && AddWords(h, s).Value() == (h.Value() + s.Value()) % TWO_128
  {
    hide U64, Words.Value;
    Small(h.t0 + s.t0);
    var d0 := h.t0 + s.t0;
    Small(h.t1 + s.t1 + d0 / TWO_32);
    var d1 := h.t1 + s.t1 + d0 / TWO_32;
    Small(h.t2 + s.t2 + d1 / TWO_32);
    var d2 := h.t2 + s.t2 + d1 / TWO_32;
    Small(h.t3 + s.t3 + d2 / TWO_32);
    var d3 := h.t3 + s.t3 + d2 / TWO_32;
    var m := AddWords(h, s);
    WordCarriesAddUp(h, s, m, d0 / TWO_32, d1 / TWO_32, d2 / TWO_32, d3 / TWO_32);
    FitBound(m);
    LowPartOf(h.Value() + s.Value(), m.Value(), d3 / TWO_32);
  }

  lemma FitBound(m: Words)
    requires m.Fit()
    ensures m.Value() < TWO_128
  {
  }

  // ----------------------------------------------------------------- bytes and words

  function Pow256(n: nat): nat {
    if n == 0 then 1 else 256 * Pow256(n - 1)
  }

  lemma Pow256Values()
    ensures Pow256(4) == 0x1_0000_0000 && Pow256(8) == 0x1_0000_0000_0000_0000
    ensures Pow256(12) == 0x1_0000_0000_0000_0000_0000_0000 && Pow256(16) == TWO_128
  {
    assert Pow256(2) == 0x1_0000;
    assert Pow256(6) == 0x1_0000_0000_0000;
    assert Pow256(10) == 0x1_0000_0000_0000_0000_0000;
    assert Pow256(14) == 0x1_0000_0000_0000_0000_0000_0000_0000;
  }

  lemma {:induction false} LeAppend(a: seq<Byte>, b: seq<Byte>)
    ensures Le(a + b) == Le(a) + Pow256(|a|) * Le(b)
  {
    if a == [] {
      assert a + b == b;
    } else {
      assert (a + b)[1..] == a[1..] + b;
      LeAppend(a[1..], b);
      LeStep(a);
      LeStep(a + b);
      hide Le, Pow256;
      MulAssoc(Pow256(|a| - 1), Le(b));
    }
  }

  lemma LeStep(a: seq<Byte>)
    requires a != []
    ensures Le(a) == a[0] + 256 * Le(a[1..]) && Pow256(|a|) == 256 * Pow256(|a| - 1)
  {
  }

  lemma MulAssoc(p: nat, l: nat)
    ensures 256 * (p * l) == (256 * p) * l
  {
  }

  lemma {:induction false} LeBound(a: seq<Byte>)
    ensures Le(a) < Pow256(|a|)
  {
    if a != [] { LeBound(a[1..]); }
  }

  function Zeros(n: nat): (z: seq<Byte>)
    ensures |z| == n
  {
    if n == 0 then [] else [0] + Zeros(n - 1)
  }

  lemma {:induction false} LeZeros(n: nat)
    ensures Le(Zeros(n)) == 0
  {
    if n > 0 {
      assert Zeros(n)[1..] == Zeros(n - 1);
      LeZeros(n - 1);
    }
  }

  /** Sixteen bytes read as four little-endian words. */
  function ReadWords(x: seq<Byte>): Words
    requires |x| == 16
  {
    Words(Le(x[..4]), Le(x[4..8]), Le(x[8..12]), Le(x[12..]))
  }

  lemma ReadWordsValue(x: seq<Byte>)
    requires |x| == 16
    ensures ReadWords(x).Fit() && ReadWords(x).Value() == Le(x)
  {
    hide Le;
    Pow256Values();
    LeBound(x[..4]); LeBound(x[4..8]); LeBound(x[8..12]); LeBound(x[12..]);
    LeAppend(x[..4], x[4..8]);
    LeAppend(x[..4] + x[4..8], x[8..12]);
    LeAppend(x[..4] + x[4..8] + x[8..12], x[12..]);
    assert x == x[..4] + x[4..8] + x[8..12] + x[12..];
  }

  function WordBytes(t: nat): (b: seq<Byte>)
    requires t < TWO_32
    ensures |b| == 4
  {
    [t % 256, t / 256 % 256, t / 0x1_0000 % 256, t / 0x100_0000]
  }

  lemma WordBytesValue(t: nat)
    requires t < TWO_32
    ensures Le(WordBytes(t)) == t
  {
    DivModTwice(t, 256, 256);
    DivModTwice(t, 0x1_0000, 256);
    LeOfFour(t % 256, t / 256 % 256, t / 0x1_0000 % 256, t / 0x100_0000);
  }

  lemma LeOfFour(a: Byte, b: Byte, c: Byte, d: Byte)
    ensures Le([a, b, c, d]) == a as nat + 256 * (b as nat + 256 * (c as nat + 256 * d as nat))
  {
    assert [a, b, c, d][1..] == [b, c, d] && [b, c, d][1..] == [c, d] && [c, d][1..] == [d];
    assert Le([d]) == d;
    assert Le([c, d]) == c as nat + 256 * d as nat;
    assert Le([b, c, d]) == b as nat + 256 * (c as nat + 256 * d as nat);
  }

  // ----------------------------------------------------------------- the authenticator

  /** Sixteen bytes for the block at the front of `data`: a short one is padded with a one and zeros. */
  function BlockBytes(data: seq<Byte>): (x: seq<Byte>)
    requires data != []
    ensures |x| == 16
  {
    if |data| < 16 then data + [1] + Zeros(15 - |data|) else data[..16]
  }

  lemma BlockBytesValue(data: seq<Byte>)
    requires data != []
    ensures Le(data[..BlockLen(data)] + [1]) == Le(BlockBytes(data)) + if |data| < 16 then 0 else TWO_128
  {
    hide Le;
    Pow256Values();
    if |data| < 16 {
      assert data[..|data|] == data;
      LeAppend(data + [1], Zeros(15 - |data|));
      LeZeros(15 - |data|);
    } else {
      LeAppend(data[..16], [1]);
      LeOne();
    }
  }

  lemma LeOne()
    ensures Le([1]) == 1
  {
  }

  /** Reducing before a step does not change it. */
  lemma ReduceFirst(a: nat, x: nat, r: nat)
    ensures ((a % P + x) * r) % P == ((a + x) * r) % P
  {
    var q, m := a / P, a % P;
    assert (a + x) * r == (m + x) * r + P * (q * r) by {
      assert a + x == (m + x) + P * q;
      AddTimes(m + x, P * q, r);
      TimesAssoc(P, q, r);
    }
    ModOfMultiple((a + x) * r, (m + x) * r, q * r);
  }

  lemma AddTimes(a: nat, b: nat, r: nat)
    ensures (a + b) * r == a * r + b * r
  {
  }

  lemma TimesAssoc(a: nat, b: nat, r: nat)
    ensures a * b * r == a * (b * r)
  {
  }

  function AddLimbs(h: Limbs, x: Limbs): Limbs {
    Limbs(U32(h.x0 + x.x0), U32(h.x1 + x.x1), U32(h.x2 + x.x2), U32(h.x3 + x.x3), U32(h.x4 + x.x4))
  }

  lemma AddLimbsValue(h: Limbs, x: Limbs)
    requires h.Carried() && x.x0 < TWO_26 && x.x1 < TWO_26 && x.x2 < TWO_26 && x.x3 < TWO_26 && x.x4 < 0x200_0000
    ensures AddLimbs(h, x).Loaded() && AddLimbs(h, x).Value() == h.Value() + x.Value()
  {
    hide U32;
    Small(h.x0 + x.x0); Small(h.x1 + x.x1); Small(h.x2 + x.x2); Small(h.x3 + x.x3); Small(h.x4 + x.x4);
  }

  /** One block of the message. */
  function BlockStep(h: Limbs, r: Limbs, data: seq<Byte>): Limbs
    requires data != []
  {
    Carry(Columns(AddLimbs(h, BlockLimbs(ReadWords(BlockBytes(data)), |data| >= 16)), r))
  }

  /** One block step refines one step of the reference. */
  lemma BlockStepRefines(h: Limbs, r: Limbs, data: seq<Byte>)
    requires h.Carried() && r.Clamped() && data != []
    ensures BlockStep(h, r, data).Carried()
    ensures Accumulate(r.Value(), data, h.Value() % P) ==
            Accumulate(r.Value(), data[BlockLen(data)..], BlockStep(h, r, data).Value() % P)
  {
    hide Limbs.Value, Limbs.Loaded, Limbs.Carried, Limbs.Clamped, Words.Value, Words.Fit;
    hide AddLimbs, Columns, Carry, BlockLimbs, ReadWords, Le, BlockBytes;
    var w := ReadWords(BlockBytes(data));
    ReadWordsValue(BlockBytes(data));
    BlockBytesValue(data);
    var x := BlockLimbs(w, |data| >= 16);
    BlockLimbsValue(w, |data| >= 16);
    AddLimbsValue(h, x);
    MultiplyStep(AddLimbs(h, x), r);
    ReduceFirst(h.Value(), x.Value(), r.Value());
  }

  function Snapshot(h: seq<nat>): Limbs
    requires |h| == 5
  {
    Limbs(h[0], h[1], h[2], h[3], h[4])
  }

  /** Runs a message, or a part of one ending at a block boundary, through the accumulator;
      the final part also yields the tag. */
  method Compress(h: array<nat>, key: seq<Byte>, data: seq<Byte>, final: bool)
    requires h.Length == 5 && |key| == 32 && Snapshot(h[..]).Carried()
    modifies h
    ensures var acc := Accumulate(BitAnd(Le(key[..16]), CLAMP), data, old(Snapshot(h[..])).Value() % P);
            if final then
              Words(h[0], h[1], h[2], h[3]).Fit() &&
              Words(h[0], h[1], h[2], h[3]).Value() == (acc + Le(key[16..])) % TWO_128
            else
              Snapshot(h[..]).Carried() && Snapshot(h[..]).Value() % P == acc
  {
    hide Limbs.Value, Limbs.Carried, Limbs.Clamped, Words.Value, Words.Fit, KeyLimbs, BlockStep, ReadWords, Le;
    hide BitAnd, FullCarry, Reduced, Packed, AddWords, Full, Accumulate;
    var w := ReadWords(key[..16]);
    ReadWordsValue(key[..16]);
    var r := KeyLimbs(w);
    KeyLimbsValue(w);
    ghost var start := Snapshot(h[..]).Value() % P;
    assert data[0..] == data;
    var i := 0;
    while i < |data|
      invariant 0 <= i && Snapshot(h[..]).Carried()
      invariant Accumulate(r.Value(), if i <= |data| then data[i..] else [], Snapshot(h[..]).Value() % P) ==
                Accumulate(r.Value(), data, start)
    {
      var g := Snapshot(h[..]);
      BlockStepRefines(g, r, data[i..]);
      ghost var n := BlockLen(data[i..]);
      assert data[i..][n..] == data[i + n..] && (n < 16 ==> data[i + n..] == []);
      Store(h, BlockStep(g, r, data[i..]));
      i := i + 16;
    }
    AccumulateNothing(r.Value(), Snapshot(h[..]).Value() % P);
    assert i <= |data| ==> data[i..] == [];
    if final {
      Finish(h, key);
    }
  }

  method Store(h: array<nat>, g: Limbs)
    requires h.Length == 5
    modifies h
    ensures Snapshot(h[..]) == g
  {
    h[0], h[1], h[2], h[3], h[4] := g.x0, g.x1, g.x2, g.x3, g.x4;
  }

  /** Reduces the accumulator and adds the second half of the key. */
  method Finish(h: array<nat>, key: seq<Byte>)
    requires h.Length == 5 && |key| == 32 && Snapshot(h[..]).Carried()
    modifies h
    ensures Words(h[0], h[1], h[2], h[3]).Fit()
    ensures Words(h[0], h[1], h[2], h[3]).Value() == (old(Snapshot(h[..])).Value() % P + Le(key[16..])) % TWO_128
  {
    hide Limbs.Value, Limbs.Carried, Words.Value, Words.Fit, ReadWords, Le, FullCarry, Reduced, Packed, AddWords, Full;
    var g := Snapshot(h[..]);
    FullCarryValue(g);
    g := FullCarry(g);
    ReducedValue(g);
    g := Reduced(g);
    PackedValue(g);
    var s := ReadWords(key[16..]);
    ReadWordsValue(key[16..]);
    AddWordsValue(Packed(g), s);
    PadLow(g.Value(), s.Value());
    var t := AddWords(Packed(g), s);
    h[0], h[1], h[2], h[3] := t.t0, t.t1, t.t2, t.t3;
  }

  /** The tag of RFC 7539, section 2.5. */
  method Poly1305(key: seq<Byte>, data: seq<Byte>) returns (mac: seq<Byte>)
    requires |key| == 32
    ensures |mac| == 16 && Le(mac) == Tag(key, data)
  {
    hide Accumulate, Le, BitAnd, Words.Value, Words.Fit, Limbs.Value, Limbs.Carried, WordBytes;
    var h := new nat[5](_ => 0);
    assert Snapshot(h[..]) == Limbs(0, 0, 0, 0, 0);
    ZeroLimbs();
    Compress(h, key, data, true);
    FitWords(Words(h[0], h[1], h[2], h[3]));
    mac := WordBytes(h[0]) + WordBytes(h[1]) + WordBytes(h[2]) + WordBytes(h[3]);
    MacValue(Words(h[0], h[1], h[2], h[3]));
  }

  lemma ZeroLimbs()
    ensures Limbs(0, 0, 0, 0, 0).Carried() && Limbs(0, 0, 0, 0, 0).Value() == 0
  {
  }

  lemma FitWords(w: Words)
    requires w.Fit()
    ensures w.t0 < TWO_32 && w.t1 < TWO_32 && w.t2 < TWO_32 && w.t3 < TWO_32
  {
  }

  lemma MacValue(w: Words)
    requires w.Fit()
    ensures Le(WordBytes(w.t0) + WordBytes(w.t1) + WordBytes(w.t2) + WordBytes(w.t3)) == w.Value()
  {
    hide Le, WordBytes;
    Pow256Values();
    var a, b, c, d := WordBytes(w.t0), WordBytes(w.t1), WordBytes(w.t2), WordBytes(w.t3);
    WordBytesValue(w.t0); WordBytesValue(w.t1); WordBytesValue(w.t2); WordBytesValue(w.t3);
    LeAppend(a, b);
    LeAppend(a + b, c);
    LeAppend(a + b + c, d);
  }

  /** Feeding a message in parts that end at block boundaries is feeding it whole. */
  lemma {:induction false} AccumulateInParts(r: nat, a: seq<Byte>, b: seq<Byte>, acc: nat)
    requires |a| % 16 == 0
    ensures Accumulate(r, a + b, acc) == Accumulate(r, b, Accumulate(r, a, acc))
    decreases |a|
  {
    if a == [] {
      assert a + b == b;
    } else {
      hide Le;
      assert (a + b)[..16] == a[..16] && (a + b)[16..] == a[16..] + b;
      AccumulateInParts(r, a[16..], b, ((acc + Le(a[..16] + [1])) * r) % P);
    }
  }

  lemma AccumulateNothing(r: nat, acc: nat)
    ensures Accumulate(r, [], acc) == acc
  {
  }

  lemma PadLow(a: nat, s: nat)
    ensures (a % TWO_128 + s) % TWO_128 == (a + s) % TWO_128
  {
  }
}
