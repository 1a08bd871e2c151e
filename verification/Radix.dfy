/** Positional notation: digit sequences, most significant first, in any base. */
module Radix {
  import opened Bits

  function Pow(b: nat, k: nat): nat {
    if k == 0 then 1 else b * Pow(b, k - 1)
  }

  function Value(b: nat, d: seq<nat>): nat {
    if d == [] then 0 else Value(b, d[..|d| - 1]) * b + d[|d| - 1]
  }

  predicate IsDigits(b: nat, d: seq<nat>) {
    forall i | 0 <= i < |d| :: d[i] < b
  }

  /** The digits of `v` without leading zeros; none for zero. */
  function Digits(b: nat, v: nat): seq<nat>
    requires b >= 2
    decreases v
  {
    if v == 0 then [] else
      QuotientSmaller(v, b);
      Digits(b, v / b) + [v % b]
  }

  lemma QuotientSmaller(v: nat, b: nat)
    requires v > 0 && b >= 2
    ensures 0 <= v / b < v && 0 <= v % b < b && v == v / b * b + v % b
  {
    var q := v / b;
    assert v == q * b + v % b;
    if q >= v { Grow(q, b); }
  }

  lemma Grow(q: nat, b: nat)
    requires b >= 2
    ensures q * b >= 2 * q
  {
  }

  function Zeros(n: nat): (z: seq<nat>)
    ensures |z| == n
    ensures forall i | 0 <= i < n :: z[i] == 0
  {
    if n == 0 then [] else [0] + Zeros(n - 1)
  }

  // ------------------------------------------------------------ powers

  lemma {:induction false} PowAdd(b: nat, j: nat, k: nat)
    ensures Pow(b, j + k) == Pow(b, j) * Pow(b, k)
  {
    if j > 0 {
      PowAdd(b, j - 1, k);
      Assoc(b, Pow(b, j - 1), Pow(b, k));
    }
  }

  lemma Swap(a: nat, b: nat)
    ensures a * b == b * a
  {
  }

  lemma Assoc(a: nat, b: nat, c: nat)
    ensures a * b * c == a * (b * c)
  {
  }

  lemma {:induction false} PowPositive(b: nat, k: nat)
    requires b > 0
    ensures Pow(b, k) > 0
  {
    if k > 0 {
      PowPositive(b, k - 1);
      MulAtLeast(Pow(b, k - 1), b);
    }
  }

  lemma {:induction false} PowPow(b: nat, j: nat, k: nat)
    ensures j * k >= 0 && Pow(Pow(b, j), k) == Pow(b, j * k)
    decreases k
  {
    if k > 0 {
      PowPow(b, j, k - 1);
      PowAdd(b, j, j * (k - 1));
      assert j * k == j + j * (k - 1);
    } else {
      assert j * k == 0;
    }
  }

  lemma {:induction false} PowBaseMono(a: nat, b: nat, k: nat)
    requires a <= b
    ensures Pow(a, k) <= Pow(b, k)
    decreases k
  {
    if k > 0 {
      PowBaseMono(a, b, k - 1);
      TimesMono(a, b, Pow(a, k - 1), Pow(b, k - 1));
    }
  }

  lemma TimesMono(a: nat, b: nat, x: nat, y: nat)
    requires a <= b && x <= y
    ensures a * x <= b * y
  {
    assert a * x <= a * y;
    assert a * y <= b * y;
  }

  lemma PowMono(b: nat, j: nat, k: nat)
    requires j <= k && b > 0
    ensures Pow(b, j) <= Pow(b, k)
  {
    hide Pow;
    PowAdd(b, j, k - j);
    PowPositive(b, j);
    PowPositive(b, k - j);
    Swap(Pow(b, j), Pow(b, k - j));
    MulAtLeast(Pow(b, k - j), Pow(b, j));
  }

  /** Powers reflect order. */
  lemma {:induction false} Root(x: nat, y: nat, k: nat)
    requires k > 0 && Pow(x, k) <= Pow(y, k)
    ensures x <= y
  {
    if x > y {
      PowBaseStrict(y, x, k);
    }
  }

  lemma {:induction false} PowBaseStrict(a: nat, b: nat, k: nat)
    requires a < b && k > 0
    ensures Pow(a, k) < Pow(b, k)
    decreases k
  {
    PowBaseMono(a, b, k - 1);
    PowPositive(b, k - 1);
    var x, y := Pow(a, k - 1), Pow(b, k - 1);
    hide Pow;
    TimesMono(a, a, x, y);
    MulAtLeast(b - a, y);
    assert b * y == a * y + (b - a) * y;
    PowUnfold(a, k);
    PowUnfold(b, k);
  }

  lemma PowUnfold(b: nat, k: nat)
    requires k > 0
    ensures Pow(b, k) == b * Pow(b, k - 1)
  {
  }

  /** If b^j <= c^m then b^n <= c^l whenever l/n is at least m/j. */
  lemma Capacity(b: nat, c: nat, j: nat, m: nat, n: nat, l: nat)
    requires j > 0 && b > 0 && c > 0 && Pow(b, j) <= Pow(c, m) && m * n <= l * j
    ensures Pow(b, n) <= Pow(c, l)
  {
    hide Pow;
    PowPow(b, n, j);
    PowPow(b, j, n);
    assert n * j == j * n;
    PowBaseMono(Pow(b, j), Pow(c, m), n);
    PowPow(c, m, n);
    PowMono(c, m * n, l * j);
    PowPow(c, l, j);
    Root(Pow(b, n), Pow(c, l), j);
  }

  // ------------------------------------------------------- values and digits

  lemma ValueSnoc(b: nat, d: seq<nat>, x: nat)
    ensures Value(b, d + [x]) == Value(b, d) * b + x
  {
    assert (d + [x])[..|d|] == d;
  }

  lemma {:induction false} ValueCons(b: nat, x: nat, d: seq<nat>)
    ensures Value(b, [x] + d) == x * Pow(b, |d|) + Value(b, d)
    decreases |d|
  {
    if d == [] {
      assert [x] + d == [] + [x];
      ValueSnoc(b, [], x);
      assert x * Pow(b, 0) == x;
    } else {
      var n := |d| - 1;
      ValueCons(b, x, d[..n]);
      assert [x] + d == ([x] + d[..n]) + [d[n]];
      ValueSnoc(b, [x] + d[..n], d[n]);
      ConsStep(b, x, Pow(b, n), Value(b, d[..n]));
    }
  }

  lemma ConsStep(b: nat, x: nat, p: nat, v: nat)
    ensures (x * p + v) * b == x * (b * p) + v * b
  {
  }

  lemma {:induction false} ValueBound(b: nat, d: seq<nat>)
    requires IsDigits(b, d)
    ensures Value(b, d) < Pow(b, |d|)
  {
    if d != [] {
      var n := |d| - 1;
      ValueBound(b, d[..n]);
      BelowTimes(Value(b, d[..n]), d[n], b, Pow(b, n));
    }
  }

  lemma BelowTimes(v: nat, x: nat, b: nat, p: nat)
    requires v < p && x < b
    ensures v * b + x < b * p
  {
    MulBelow(b, v, p);
  }

  lemma {:induction false} ValueZeros(b: nat, z: nat, d: seq<nat>)
    ensures Value(b, Zeros(z) + d) == Value(b, d)
    decreases z
  {
    if z == 0 {
      assert Zeros(z) + d == d;
    } else {
      ValueZeros(b, z - 1, d);
      assert Zeros(z) + d == [0] + (Zeros(z - 1) + d);
      hide Value;
      ValueCons(b, 0, Zeros(z - 1) + d);
    }
  }

  ghost predicate NoLeadingZero(d: seq<nat>) {
    d == [] || d[0] != 0
  }

  lemma {:induction false} ValueOfDigits(b: nat, v: nat)
    requires b >= 2
    ensures Value(b, Digits(b, v)) == v && IsDigits(b, Digits(b, v)) && NoLeadingZero(Digits(b, v))
    decreases v
  {
    if v > 0 {
      hide Value, Digits, IsDigits, NoLeadingZero;
      var q, r := DigitsStep(b, v);
      ValueOfDigits(b, q);
      SnocDigit(b, Digits(b, q), r, q, v);
    }
  }

  lemma DigitsStep(b: nat, v: nat) returns (q: nat, r: nat)
    requires b >= 2 && v > 0
    ensures v == q * b + r && r < b && q < v && Digits(b, v) == Digits(b, q) + [r]
    ensures Digits(b, q) == [] ==> r > 0
  {
    QuotientSmaller(v, b);
    q, r := v / b, v % b;
  }

  lemma SnocDigit(b: nat, d: seq<nat>, r: nat, q: nat, v: nat)
    requires IsDigits(b, d) && NoLeadingZero(d) && Value(b, d) == q && r < b && v == q * b + r && (d == [] ==> r > 0)
    ensures Value(b, d + [r]) == v && IsDigits(b, d + [r]) && NoLeadingZero(d + [r])
  {
    hide Value;
    ValueSnoc(b, d, r);
  }

  lemma {:induction false} DigitsOfValue(b: nat, d: seq<nat>)
    requires b >= 2 && IsDigits(b, d) && NoLeadingZero(d)
    ensures Digits(b, Value(b, d)) == d
    ensures d != [] ==> Value(b, d) > 0
  {
    if d != [] {
      var n := |d| - 1;
      DigitsOfValue(b, d[..n]);
      var v := Value(b, d[..n]);
      DivModUnique(v * b + d[n], b, v, d[n]);
      if n > 0 { MulAtLeast(v, b); }
      assert d == d[..n] + [d[n]];
    }
  }

  /** The digits of a value below b^k are at most k. */
  lemma {:induction false} DigitsLength(b: nat, v: nat, k: nat)
    requires b >= 2 && v < Pow(b, k)
    ensures |Digits(b, v)| <= k
    decreases k
  {
    if v > 0 {
      QuotientSmaller(v, b);
      var q := v / b;
      if q >= Pow(b, k - 1) {
        TimesMono(Pow(b, k - 1), q, b, b);
      }
      DigitsLength(b, q, k - 1);
    }
  }
}
