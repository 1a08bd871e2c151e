/**
Compact targets: a 32-bit floating form of a 256-bit number.

The top byte is a size `s` in bytes, the low 23 bits a mantissa `m`, and the number is
m * 256^(s - 3).  Scaling by 256^3 = 2^24 removes the negative exponents: a pair (s, m)
represents `x` when m * 256^s <= x * 2^24 < (m + 1) * 256^s.
*/
module Compact {
  import opened Bits
  import opened UInt256

  const TWO_24: nat := 0x100_0000

  /** 256^s. */
  function Bytes(s: nat): (p: nat)
    ensures p > 0
  {
    Pow2(8 * s)
  }

  /** (s, m) with a normalised mantissa is the rounding down of `x`. */
  ghost predicate Represents(x: nat, s: nat, m: nat) {
    && 0x8000 <= m < 0x80_0000
    && m * Bytes(s) <= x * TWO_24 < (m + 1) * Bytes(s)
  }

  /** `c` is the compact form of `x`. */
  ghost predicate IsCompact(x: nat, c: nat) {
    if x == 0 then c == 0 else Represents(x, c / 0x100_0000, c % 0x100_0000)
  }

  lemma BytesStep(s: nat)
    ensures Bytes(s + 1) == 256 * Bytes(s)
  {
    Pow2Values();
    Pow2Add(8, 8 * s);
  }

  lemma BytesAdd(a: nat, b: nat)
    ensures Bytes(a + b) == Bytes(a) * Bytes(b)
  {
    Pow2Add(8 * a, 8 * b);
  }

  lemma BytesMono(a: nat, b: nat)
    requires a <= b
    ensures Bytes(a) <= Bytes(b)
  {
    Pow2Mono(8 * a, 8 * b);
  }

  lemma BytesThree()
    ensures Bytes(0) == 1 && Bytes(1) == 0x100 && Bytes(2) == 0x1_0000 && Bytes(3) == TWO_24
  {
    Pow2Values();
    PowZero();
  }

  // ------------------------------------------------- order and uniqueness

  /** A larger size represents larger numbers. */
  lemma SizeOrders(x: nat, s: nat, m: nat, y: nat, t: nat, n: nat)
    requires Represents(x, s, m) && Represents(y, t, n) && s < t
    ensures x < y
  {
    hide Bytes;
    BytesStep(s);
    BytesMono(s + 1, t);
    MulMono(m + 1, 0x80_0000, Bytes(s));
    MulMono(0x8000, n, Bytes(t));
  }

  lemma MantissaOrders(x: nat, s: nat, m: nat, y: nat, n: nat)
    requires Represents(x, s, m) && Represents(y, s, n) && m < n
    ensures x < y
  {
    MulMono(m + 1, n, Bytes(s));
  }

  /** Compact forms compare as the numbers do. */
  lemma CompactMonotone(x: nat, y: nat, c: nat, d: nat)
    requires IsCompact(x, c) && IsCompact(y, d) && x <= y
    ensures c <= d
  {
    hide Represents;
    if x != 0 {
      var s, m, t, n := c / 0x100_0000, c % 0x100_0000, d / 0x100_0000, d % 0x100_0000;
      if t < s { SizeOrders(y, t, n, x, s, m); }
      if t == s && n < m { MantissaOrders(y, t, n, x, m); }
    }
  }

  lemma CompactUnique(x: nat, c: nat, d: nat)
    requires IsCompact(x, c) && IsCompact(x, d)
    ensures c == d
  {
    CompactMonotone(x, x, c, d);
    CompactMonotone(x, x, d, c);
  }

  // ------------------------------------------------------------ expanding

  /** The size byte is read as a signed number. */
  function SizeOf(c: Word): int {
    if c < 0x8000_0000 then c / 0x100_0000 else c / 0x100_0000 - 256
  }

  /** What expanding gives; shift amounts are 8-bit values. */
  function Expanded(c: Word): nat {
    Shifted(c % 0x80_0000, SizeOf(c))
  }

  function Shifted(m: nat, size: int): nat {
    if size <= 3 then ShiftedDown(m, (8 * (3 - size)) % 256) else ShiftedUp(m, (8 * (size - 3)) % 256)
  }

  function ShiftedDown(m: nat, k: nat): nat {
    DivNat(m, Pow2(k));
    m / Pow2(k)
  }

  function ShiftedUp(m: nat, k: nat): nat {
    MulNat(m, Pow2(k));
    (m * Pow2(k)) % TWO_256
  }

  method SetCompact(c: Word) returns (r: seq<Word>)
    ensures |r| == 8 && Num(r) == Expanded(c)
  {
    var size := SizeOf(c);
    assert BitAnd(c, 0x7f_ffff) == c % 0x80_0000 by { Mantissa(c); }
    hide Num, Pow2, SizeOf, BitAnd;
    var w: seq<Word> := [BitAnd(c, 0x7f_ffff), 0, 0, 0, 0, 0, 0, 0];
    SmallNum(c % 0x80_0000);
    if size <= 3 {
      r := ShiftRight(w, (8 * (3 - size)) % 256);
    } else {
      r := ShiftLeft(w, (8 * (size - 3)) % 256);
    }
  }

  lemma Mantissa(c: nat)
    ensures BitAnd(c, 0x7f_ffff) == c % 0x80_0000
  {
    Pow2Values();
    PowAt(0, 23);
    AndOnes(c, 23);
  }

  /** A compact number whose size and mantissa keep the value below 2^255. */
  ghost predicate InRange(c: Word) {
    && c / 0x100_0000 <= 34 && c % 0x100_0000 < 0x80_0000
    && c % 0x100_0000 * Bytes(c / 0x100_0000) < TWO_255 * TWO_24
  }

  /** In range, expanding multiplies the mantissa by 256^(size - 3), rounding down. */
  lemma ExpandedMeans(c: Word)
    requires InRange(c)
    ensures c % 0x100_0000 * Bytes(c / 0x100_0000) >= 0
    ensures Expanded(c) == c % 0x100_0000 * Bytes(c / 0x100_0000) / TWO_24 < TWO_255
    ensures 3 <= c / 0x100_0000 ==> Expanded(c) * TWO_24 == c % 0x100_0000 * Bytes(c / 0x100_0000)
  {
    hide Bytes, Shifted;
    var s, m := c / 0x100_0000, c % 0x100_0000;
    LowBits(c);
    ShiftedMeans(m, s);
  }

  lemma ShiftedMeans(m: nat, s: nat)
    requires s <= 34 && m * Bytes(s) < TWO_255 * TWO_24
    ensures 0 <= m * Bytes(s) && Shifted(m, s) == m * Bytes(s) / TWO_24 < TWO_255
    ensures 3 <= s ==> Shifted(m, s) * TWO_24 == m * Bytes(s)
  {
    MulNat(m, Bytes(s));
    BytesThree();
    if s <= 3 {
      BytesAdd(s, 3 - s);
      assert Bytes(3 - s) == Pow2(8 * (3 - s)) && (8 * (3 - s)) % 256 == 8 * (3 - s);
      hide Bytes, Pow2;
      DivCancel(m, Bytes(s), Bytes(3 - s));
    } else {
      BytesAdd(3, s - 3);
      assert Bytes(s - 3) == Pow2(8 * (s - 3)) && (8 * (s - 3)) % 256 == 8 * (s - 3);
      hide Bytes, Pow2;
      ShiftUpExact(m, Bytes(s - 3), Bytes(s));
    }
  }

  lemma LowBits(c: nat)
    requires c % 0x100_0000 < 0x80_0000 && c / 0x100_0000 <= 34
    ensures c % 0x80_0000 == c % 0x100_0000 && c < 0x8000_0000 && c / 0x100_0000 >= 0
  {
  }

  lemma DivCancel(m: nat, a: nat, b: nat)
    requires a > 0 && b > 0 && a * b == TWO_24
    ensures m / b == m * a / TWO_24
    ensures b == 1 ==> m / b * TWO_24 == m * a
  {
    var q, r := m / b, m % b;
    assert m == q * b + r;
    MulBelow(a, r, b);
    ScaleQuotient(q, b, r, a);
    DivModUnique(m * a, TWO_24, q, r * a);
  }

  lemma ScaleQuotient(q: nat, b: nat, r: nat, a: nat)
    ensures (q * b + r) * a == q * (a * b) + r * a && r * a == a * r
  {
  }

  lemma ShiftUpExact(m: nat, p: nat, full: nat)
    requires full == TWO_24 * p && m * full < TWO_255 * TWO_24
    ensures 0 <= m * p < TWO_255 && m * p == m * full / TWO_24 && m * p * TWO_24 == m * full
    ensures (m * p) % TWO_256 == m * p
  {
    MulNat(m, p);
    Regroup(m, p, TWO_24);
    DivModUnique(m * full, TWO_24, m * p, 0);
  }

  // ---------------------------------------------------------- compacting

  /** The three most significant bytes of a number of `s` bytes. */
  ghost predicate TopThree(x: nat, s: nat, t: nat) {
    0x1_0000 <= t < 0x100_0000 && t * Bytes(s) <= x * TWO_24 < (t + 1) * Bytes(s)
  }

  /** Dropping the lowest byte of the three when the sign bit is taken. */
  lemma DropByte(x: nat, s: nat, t: nat)
    requires TopThree(x, s, t)
    ensures t < 0x80_0000 ==> Represents(x, s, t)
    ensures t >= 0x80_0000 ==> Represents(x, s + 1, t / 256)
  {
    hide Bytes;
    BytesStep(s);
    if t >= 0x80_0000 {
      var q, r, b := t / 256, t % 256, Bytes(s);
      MulMono(q * 256, t, b);
      MulMono(t + 1, (q + 1) * 256, b);
      Regroup(q, 256, b);
      Regroup(q + 1, 256, b);
    }
  }

  /** Bounds on a number of `n` bits, counted in whole bytes. */
  lemma ByteBounds(x: nat, n: nat, s: nat)
    requires IsBitCount(x, n) && n > 0 && s == (n + 7) / 8
    ensures s > 0 && Bytes(s - 1) <= x < Bytes(s)
  {
    Pow2Mono(n, 8 * s);
    Pow2Mono(8 * (s - 1), n - 1);
  }

  /** A short number is shifted up to three bytes. */
  lemma ShortTop(x: nat, s: nat)
    requires 0 < s <= 3 && Bytes(s - 1) <= x < Bytes(s)
    ensures 0 <= x * Bytes(3 - s) < 0x100_0000 && TopThree(x, s, x * Bytes(3 - s))
  {
    MulNat(x, Bytes(3 - s));
    BytesThree();
    hide Bytes;
    ShortTimes(x, s, Bytes(s), Bytes(3 - s), Bytes(s - 1));
  }

  lemma ShortTimes(x: nat, s: nat, b: nat, u: nat, d: nat)
    requires d <= x < b
    requires || (s == 1 && b == 0x100 && u == 0x1_0000 && d == 1)
             || (s == 2 && b == 0x1_0000 && u == 0x100 && d == 0x100)
             || (s == 3 && b == 0x100_0000 && u == 1 && d == 0x1_0000)
    ensures 0x1_0000 <= x * u < 0x100_0000 && x * u * b <= x * TWO_24 < (x * u + 1) * b
  {
  }

  /** A long number is shifted down to three bytes. */
  lemma LongTop(x: nat, s: nat)
    requires 3 < s && Bytes(s - 1) <= x < Bytes(s)
    ensures 0 <= x / Bytes(s - 3) < 0x100_0000 && TopThree(x, s, x / Bytes(s - 3))
  {
    BytesThree();
    BytesAdd(s - 3, 3);
    BytesAdd(s - 3, 2);
    hide Bytes;
    LongDivide(x, Bytes(s - 3));
  }

  lemma LongDivide(x: nat, p: nat)
    requires p > 0 && p * 0x1_0000 <= x < p * 0x100_0000
    ensures 0x1_0000 <= x / p < 0x100_0000
    ensures x / p * (p * TWO_24) <= x * TWO_24 < (x / p + 1) * (p * TWO_24)
  {
    var q, r := x / p, x % p;
    assert x == q * p + r;
    if q < 0x1_0000 { MulMono(q + 1, 0x1_0000, p); AddTimes3(q, 1, 0, p); }
    if q >= 0x100_0000 { MulMono(0x100_0000, q, p); }
    Regroup(q, p, TWO_24);
    Regroup(q + 1, p, TWO_24);
    AddTimes3(q, 1, 0, p);
  }

  lemma SignBit(t: nat)
    requires t < 0x100_0000
    ensures BitAnd(t, 0x80_0000) != 0 <==> t >= 0x80_0000
  {
    Pow2Values();
    PowAt(0, 23);
    TopBit(t, 23);
  }

  lemma Packed(x: nat, m: nat, s: nat)
    requires x > 0 && s < 0x22 && Represents(x, s, m)
    ensures BitOr(m, s * 0x100_0000) == s * 0x100_0000 + m < 0x2200_0000 && IsCompact(x, s * 0x100_0000 + m)
  {
    Pow2Values();
    OrDisjoint(m, s, 24);
    var c := s * 0x100_0000 + m;
    assert c / 0x100_0000 == s && c % 0x100_0000 == m;
  }

  /** The compact form of a number below 2^255, rounded down.  From 2^255 on the bit count reads as
      zero: the low byte has to be clear, or an assertion of the source fails, and the result is zero. */
  method GetCompact(a: seq<Word>) returns (c: Word)
    requires |a| == 8 && (Num(a) < TWO_255 || a[0] % 256 == 0)
    ensures Num(a) >= TWO_255 ==> c == 0
    ensures c < 0x2200_0000 && (IsCompact(Num(a), c) <==> Num(a) < TWO_255)
  {
    hide Num, IsBitCount, BitAnd, BitOr, Bytes, Represents, TopThree, IsCompact;
    var n := BitCount(a);
    if Num(a) >= TWO_255 { CountWraps(a, 1, n); } else { CountsFit(a, n); }
    var size := (n + 7) / 8;
    if n == 0 {
      CompactNone(a);
      var low: nat := a[0];
      return (low * 0x100_0000) % 0x1_0000_0000;
    }
    ByteBounds(Num(a), n, size);
    var t := TopBytes(a, size);
    DropByte(Num(a), size, t);
    SignBit(t);
    if BitAnd(t, 0x80_0000) != 0 {
      t := t / 256;
      size := size + 1;
    }
    Packed(Num(a), t, size);
    c := BitOr(t, size * 0x100_0000);
  }

  lemma CompactNone(a: seq<Word>)
    requires |a| == 8 && (Num(a) == 0 || (Num(a) >= TWO_255 && a[0] % 256 == 0))
    ensures ((a[0] as nat) * 0x100_0000) % 0x1_0000_0000 == 0 && (IsCompact(Num(a), 0) <==> Num(a) == 0)
  {
    hide Num, Bytes;
    if Num(a) == 0 { LowestWord(a); }
    var low: nat := a[0];
    DivModUnique(low * 0x100_0000, 0x1_0000_0000, low / 256, 0);
  }

  /** A number below 2^32 is its lowest word. */
  lemma LowestWord(a: seq<Word>)
    requires |a| == 8 && Num(a) < 0x1_0000_0000
    ensures a[0] == Num(a)
  {
    hide Num;
    NumHalves(a);
    var q := Halves(a);
    QuadSmall(q[0], q[1], q[2], q[3]);
  }

  lemma QuadSmall(q0: nat, q1: nat, q2: nat, q3: nat)
    requires Quad(q0, q1, q2, q3) < 0x1_0000_0000
    ensures q1 == q2 == q3 == 0 && Quad(q0, q1, q2, q3) == q0
  {
  }

  method TopBytes(a: seq<Word>, size: nat) returns (t: Word)
    requires |a| == 8 && 0 < size <= 32 && Bytes(size - 1) <= Num(a) < Bytes(size)
    ensures t < 0x100_0000 && TopThree(Num(a), size, t)
  {
    BytesThree();
    hide Num, TopThree, Pow2;
    if size <= 3 {
      BytesMono(size, 3);
      LowestWord(a);
      ShortTop(Num(a), size);
      t := a[0] * Pow2(8 * (3 - size));
    } else {
      LongTop(Num(a), size);
      var b := ShiftRight(a, 8 * (size - 3));
      LowestWord(b);
      t := b[0];
    }
  }

  // ------------------------------------------------------------ round trips

  /** The form `GetCompact` produces: normalised, and with no mantissa bits below the unit. */
  ghost predicate Canonical(c: Word) {
    c == 0 ||
    (InRange(c) && 0x8000 <= c % 0x100_0000 && (c % 0x100_0000 * Bytes(c / 0x100_0000)) % TWO_24 == 0)
  }

  /** For sizes below three the condition says the mantissa is a multiple of 256^(3 - size). */
  lemma CanonicalSmallSizes(c: Word)
    requires 0 < c && c / 0x100_0000 < 3 && 0x8000 <= c % 0x100_0000 < 0x80_0000
    ensures Canonical(c) <==> (c % 0x100_0000) % Bytes(3 - c / 0x100_0000) == 0
  {
    BytesThree();
    hide Bytes, Expanded;
    SmallMultiples(c % 0x100_0000);
  }

  lemma SmallMultiples(m: nat)
    requires m < 0x80_0000
    ensures m % TWO_24 == 0 <==> m == 0
    ensures (m * 0x100) % TWO_24 == 0 <==> m % 0x1_0000 == 0
    ensures (m * 0x1_0000) % TWO_24 == 0 <==> m % 0x100 == 0
  {
    ScaleMod(m, 0x100, 0x1_0000);
    ScaleMod(m, 0x1_0000, 0x100);
  }

  lemma ScaleMod(m: nat, k: nat, b: nat)
    requires k > 0 && b > 0 && k * b == TWO_24
    ensures (m * k) % TWO_24 == m % b * k
  {
    var q, r := m / b, m % b;
    assert m == q * b + r;
    ScaleQuotient(q, b, r, k);
    MulBelow(k, r, b);
    DivModUnique(m * k, TWO_24, q, r * k);
  }

  /** Compacting a canonical number's value gives the number back. */
  lemma CompactOfExpanded(c: Word)
    requires Canonical(c)
    ensures IsCompact(Expanded(c), c)
  {
    if c == 0 {
      ExpandedZero();
    } else {
      hide Expanded, Bytes;
      ExpandedMeans(c);
      var b := c % 0x100_0000 * Bytes(c / 0x100_0000);
      MulAtLeast(c % 0x100_0000, Bytes(c / 0x100_0000));
      AddTimes3(c % 0x100_0000, 1, 0, Bytes(c / 0x100_0000));
      assert Expanded(c) * TWO_24 == b;
    }
  }

  lemma ExpandedZero()
    ensures Expanded(0) == 0
  {
    BytesThree();
    DivModUnique(0, Bytes(3), 0, 0);
  }

  /** A number of at most three bytes is represented exactly. */
  lemma ShortExact(x: nat, s: nat, m: nat)
    requires Represents(x, s, m) && s <= 3
    ensures m * Bytes(s) == x * TWO_24
  {
    BytesThree();
    BytesAdd(s, 3 - s);
    var b, k := Bytes(s), Bytes(3 - s);
    hide Bytes;
    Regroup(x, b, k);
    Regroup(x, k, b);
    assert x * TWO_24 == x * k * b;
    if x * k > m { MulMono(m + 1, x * k, b); }
    if x * k < m { MulMono(x * k + 1, m, b); AddTimes3(x * k, 1, 0, b); }
  }

  /** What compacting gives is canonical, and expanding it again rounds down by less than x / 2^15. */
  lemma ExpandedOfCompact(x: nat, c: Word)
    requires IsCompact(x, c) && x < TWO_255 && c < 0x2200_0000
    ensures Canonical(c) && Expanded(c) <= x
    ensures x > 0 ==> (x - Expanded(c)) * 0x8000 < x
  {
    if x == 0 {
      ExpandedZero();
    } else {
      var s, m := c / 0x100_0000, c % 0x100_0000;
      hide Bytes, Expanded;
      ExpandedMeans(c);
      if s < 3 { ShortExact(x, s, m); }
      BytesThree();
      if s >= 3 {
        BytesAdd(s - 3, 3);
        Loss(x, m, Bytes(s - 3), Expanded(c), Bytes(s));
      }
    }
  }

  lemma Loss(x: nat, m: nat, p: nat, v: nat, b: nat)
    requires b == p * TWO_24 && v * TWO_24 == m * b && p > 0
    requires 0x8000 <= m && m * b <= x * TWO_24 < (m + 1) * b
    ensures v <= x && (x - v) * 0x8000 < x && (m * b) % TWO_24 == 0
  {
    Regroup(m, p, TWO_24);
    AddTimes3(m, 1, 0, b);
    MulMono(0x8000, m, p);
    DivModUnique(m * b, TWO_24, v, 0);
  }

  /** `SetCompact(GetCompact(a))`: never above `a`, and within one part in 2^15 of it if and only if `a` is
      below 2^255. */
  method CompactThenExpand(a: seq<Word>) returns (r: seq<Word>)
    requires |a| == 8 && (Num(a) < TWO_255 || a[0] % 256 == 0)
    ensures |r| == 8 && Num(r) <= Num(a)
    ensures Num(a) > 0 ==> ((Num(a) - Num(r)) * 0x8000 < Num(a) <==> Num(a) < TWO_255)
  {
    var c := GetCompact(a);
    hide Num, IsCompact, Canonical, Expanded;
    if Num(a) < TWO_255 { ExpandedOfCompact(Num(a), c); } else { ExpandedZero(); }
    r := SetCompact(c);
  }

  /** `GetCompact(SetCompact(c))` is `c` for every canonical `c`. */
  method ExpandThenCompact(c: Word) returns (d: Word)
    requires Canonical(c)
    ensures d == c
  {
    var a := SetCompact(c);
    assert Expanded(c) < TWO_255 by {
      if c == 0 { ExpandedZero(); } else { ExpandedMeans(c); }
    }
    hide Num, IsCompact, Canonical, Expanded;
    d := GetCompact(a);
    CompactOfExpanded(c);
    CompactUnique(Num(a), c, d);
  }
}
