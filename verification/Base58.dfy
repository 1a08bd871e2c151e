/**
Base58 and Base58Check.

A byte string is read as a number in base 256 and written in base 58, leading zero bytes
becoming leading '1' digits.  Both directions rewrite a digit buffer in place whose size
is an estimate; the estimates are proved sufficient, so nothing is ever carried out of it.
*/
module Base58 {
  import opened Collections
  import opened Bits
  import opened Radix

  const ALPHABET: string := "123456789" + "ABCDEFGH" + "JKLMNPQRSTUVWXYZ" + "abcdefghijkmnopqrstuvwxyz"

  function CharOf(x: nat): char
    requires x < 58
  {
    ALPHABET[x]
  }

  /** The digit a character stands for, by ranges of the alphabet; anything else is not below 58. */
  function DigitOf(c: char): nat {
    var x := c as int;
    if '1' <= c <= '9' then x - '1' as int
    else if 'A' <= c <= 'H' then x + 9 - 'A' as int
    else if 'J' <= c <= 'N' then x + 17 - 'J' as int
    else if 'P' <= c <= 'Z' then x + 22 - 'P' as int
    else if 'a' <= c <= 'k' then x + 33 - 'a' as int
    else if 'm' <= c <= 'z' then x + 44 - 'm' as int
    else 0xFFFF_FFFF
  }

  lemma CharsFrom0(x: nat)
    requires 0 <= x < 9
    ensures DigitOf(CharOf(x)) == x
  {
    assert x == 0 || x == 1 || x == 2 || x == 3 || x == 4 || x == 5 || x == 6 || x == 7 ||
           x == 8;
  }

  lemma CharsFrom9(x: nat)
    requires 9 <= x < 17
    ensures DigitOf(CharOf(x)) == x
  {
    assert x == 9 || x == 10 || x == 11 || x == 12 || x == 13 || x == 14 || x == 15 || x == 16;
  }

  lemma CharsFrom17(x: nat)
    requires 17 <= x < 22
    ensures DigitOf(CharOf(x)) == x
  {
    assert x == 17 || x == 18 || x == 19 || x == 20 || x == 21;
  }

  lemma CharsFrom22(x: nat)
    requires 22 <= x < 33
    ensures DigitOf(CharOf(x)) == x
  {
    assert x == 22 || x == 23 || x == 24 || x == 25 || x == 26 || x == 27 || x == 28 || x == 29 ||
           x == 30 || x == 31 || x == 32;
  }

  lemma CharsFrom33(x: nat)
    requires 33 <= x < 44
    ensures DigitOf(CharOf(x)) == x
  {
    assert x == 33 || x == 34 || x == 35 || x == 36 || x == 37 || x == 38 || x == 39 || x == 40 ||
           x == 41 || x == 42 || x == 43;
  }

  lemma CharsFrom44(x: nat)
    requires 44 <= x < 58
    ensures DigitOf(CharOf(x)) == x
  {
    assert x == 44 || x == 45 || x == 46 || x == 47 || x == 48 || x == 49 || x == 50 || x == 51 ||
           x == 52 || x == 53 || x == 54 || x == 55 || x == 56 || x == 57;
  }

  /** The ranges of the switch and the alphabet agree. */
  lemma DigitOfChar(x: nat)
    requires x < 58
    ensures DigitOf(CharOf(x)) == x
  {
    hide CharOf, DigitOf;
    if x < 9 {
      CharsFrom0(x);
    } else if x < 17 {
      CharsFrom9(x);
    } else if x < 22 {
      CharsFrom17(x);
    } else if x < 33 {
      CharsFrom22(x);
    } else if x < 44 {
      CharsFrom33(x);
    } else {
      CharsFrom44(x);
    }
  }

  lemma DigitOfInjective(c: char, d: char)
    requires DigitOf(c) == DigitOf(d) < 58
    ensures c == d
  {
  }

  lemma CharOfDigit(c: char)
    requires DigitOf(c) < 58
    ensures CharOf(DigitOf(c)) == c
  {
    DigitOfChar(DigitOf(c));
    DigitOfInjective(c, CharOf(DigitOf(c)));
  }

  // -------------------------------------------------------------- what is computed

  function LeadingZeros(d: seq<nat>): (z: nat)
    ensures z <= |d|
  {
    if d == [] || d[0] != 0 then 0 else 1 + LeadingZeros(d[1..])
  }

  /** A digit string rewritten in another base, leading zeros kept. */
  function Convert(from: nat, to: nat, d: seq<nat>): seq<nat>
    requires to >= 2
  {
    Zeros(LeadingZeros(d)) + Digits(to, Value(from, d))
  }

  lemma {:induction false} SplitZeros(d: seq<nat>)
    ensures d == Zeros(LeadingZeros(d)) + d[LeadingZeros(d)..]
    ensures NoLeadingZero(d[LeadingZeros(d)..])
  {
    if d == [] || d[0] != 0 {
      assert d[0..] == d && Zeros(0) + d == d;
    } else {
      var t := d[1..];
      var z := LeadingZeros(t);
      SplitZeros(t);
      hide LeadingZeros;
      assert d == [0] + t;
      assert d[z + 1..] == t[z..];
      ZerosCons(z, t[z..]);
    }
  }

  lemma ZerosCons(z: nat, d: seq<nat>)
    ensures [0] + (Zeros(z) + d) == Zeros(z + 1) + d
  {
  }

  lemma {:induction false} JoinZeros(z: nat, d: seq<nat>)
    requires NoLeadingZero(d)
    ensures LeadingZeros(Zeros(z) + d) == z
  {
    if z == 0 {
      assert Zeros(z) + d == d;
    } else {
      JoinZeros(z - 1, d);
      assert (Zeros(z) + d)[1..] == Zeros(z - 1) + d;
    }
  }

  /** The significant part of a digit string is the digits of its value. */
  lemma SignificantPart(b: nat, d: seq<nat>)
    requires b >= 2 && IsDigits(b, d)
    ensures Digits(b, Value(b, d)) == d[LeadingZeros(d)..]
  {
    var z := LeadingZeros(d);
    SplitZeros(d);
    ValueZeros(b, z, d[z..]);
    DigitsOfValue(b, d[z..]);
  }

  /** Converting there and back is the identity. */
  lemma ConvertBack(from: nat, to: nat, d: seq<nat>)
    requires from >= 2 && to >= 2 && IsDigits(from, d)
    ensures IsDigits(to, Convert(from, to, d)) && Convert(to, from, Convert(from, to, d)) == d
  {
    var z, v := LeadingZeros(d), Value(from, d);
    hide Value;
    ValueOfDigits(to, v);
    JoinZeros(z, Digits(to, v));
    ValueZeros(to, z, Digits(to, v));
    SignificantPart(from, d);
    SplitZeros(d);
  }

  function Chars(d: seq<nat>): (s: string)
    requires IsDigits(58, d)
    ensures |s| == |d| && forall i | 0 <= i < |d| :: s[i] == CharOf(d[i])
  {
    if d == [] then "" else Chars(d[..|d| - 1]) + [CharOf(d[|d| - 1])]
  }

  /** The digits of a string up to the first character that is not one. */
  function DigitPrefix(s: string): (d: seq<nat>)
    ensures IsDigits(58, d) && |d| <= |s|
  {
    if s == "" || DigitOf(s[0]) >= 58 then [] else [DigitOf(s[0])] + DigitPrefix(s[1..])
  }

  ghost predicate AllDigits(s: string) {
    forall i | 0 <= i < |s| :: DigitOf(s[i]) < 58
  }

  lemma {:induction false} PrefixOfChars(d: seq<nat>)
    requires IsDigits(58, d)
    ensures DigitPrefix(Chars(d)) == d
    decreases |d|
  {
    if d != [] {
      hide DigitOf, CharOf, Chars, DigitPrefix;
      var t := d[1..];
      DigitOfChar(d[0]);
      CharsCons(d[0], t);
      assert d == [d[0]] + t;
      PrefixOfChars(t);
      PrefixCons(CharOf(d[0]), Chars(t));
    } else {
      PrefixEnd("", 0);
    }
  }

  lemma {:induction false} CharsOfPrefix(s: string)
    requires AllDigits(s)
    ensures Chars(DigitPrefix(s)) == s
    decreases |s|
  {
    if s != "" {
      hide DigitOf, CharOf, Chars, DigitPrefix;
      var t := s[1..];
      assert s == [s[0]] + t;
      CharsOfPrefix(t);
      CharOfDigit(s[0]);
      PrefixCons(s[0], t);
      CharsCons(DigitOf(s[0]), DigitPrefix(t));
    } else {
      PrefixEnd(s, 0);
    }
  }

  lemma PrefixCons(c: char, s: string)
    requires DigitOf(c) < 58
    ensures DigitPrefix([c] + s) == [DigitOf(c)] + DigitPrefix(s)
  {
    hide DigitOf;
    assert ([c] + s)[1..] == s;
  }

  lemma CharsCons(x: nat, d: seq<nat>)
    requires x < 58 && IsDigits(58, d)
    ensures IsDigits(58, [x] + d) && Chars([x] + d) == [CharOf(x)] + Chars(d)
  {
    hide CharOf;
    forall i | 0 <= i < |d| + 1 ensures Chars([x] + d)[i] == ([CharOf(x)] + Chars(d))[i] {
    }
  }

  function Encoded(data: seq<Byte>): string {
    ConvertBack(256, 58, data);
    Chars(Convert(256, 58, data))
  }

  function Decoded(s: string): (data: seq<Byte>) {
    ConvertBack(58, 256, DigitPrefix(s));
    Convert(58, 256, DigitPrefix(s))
  }

  /** Decoding undoes encoding on every byte string. */
  lemma DecodeEncoded(data: seq<Byte>)
    ensures Decoded(Encoded(data)) == data
  {
    hide Convert, Chars, DigitPrefix;
    ConvertBack(256, 58, data);
    PrefixOfChars(Convert(256, 58, data));
  }

  /** Encoding undoes decoding on a string if and only if it is all base58 digits. */
  lemma EncodeDecoded(s: string)
    ensures Encoded(Decoded(s)) == s <==> AllDigits(s)
  {
    hide Convert, Chars, DigitPrefix, AllDigits;
    EncodeDecodedPrefix(s);
    if AllDigits(s) {
      CharsOfPrefix(s);
    } else {
      CharsAreDigits(DigitPrefix(s));
    }
  }

  /** Decoding any string and encoding again gives its digits up to the first character that is not one. */
  lemma EncodeDecodedPrefix(s: string)
    ensures Encoded(Decoded(s)) == Chars(DigitPrefix(s))
  {
    hide Convert, Chars, DigitPrefix;
    ConvertBack(58, 256, DigitPrefix(s));
  }

  lemma CharsAreDigits(d: seq<nat>)
    requires IsDigits(58, d)
    ensures AllDigits(Chars(d))
  {
    hide DigitOf, CharOf;
    forall i | 0 <= i < |d| ensures DigitOf(Chars(d)[i]) < 58 {
      DigitOfChar(d[i]);
    }
  }

  /** What follows the first character that is not a digit is ignored, and so is that character. */
  lemma {:induction false} GarbageIgnored(s: string, c: char, t: string)
    requires AllDigits(s) && DigitOf(c) >= 58
    ensures DigitPrefix(s + [c] + t) == DigitPrefix(s) && Decoded(s + [c] + t) == Decoded(s)
    decreases |s|
  {
    hide DigitOf, Convert;
    if s == "" {
      assert (s + [c] + t)[0] == c;
    } else {
      var r := s[1..];
      assert AllDigits(r) by { assert forall i | 0 <= i < |r| :: r[i] == s[i + 1]; }
      GarbageIgnored(r, c, t);
      assert (s + [c] + t)[0] == s[0] && (s + [c] + t)[1..] == r + [c] + t;
    }
  }

  // ------------------------------------------------------------------ buffer sizes

  lemma SmallPowersOf58()
    ensures Pow(58, 1) == 58 && Pow(58, 2) == 3364 && Pow(58, 7) == 2207984167552
    ensures Pow(58, 8) == 128063081718016 && Pow(58, 16) == 16400152899115243850138976256
  {
    assert Pow(58, 1) == 58;
    hide Pow;
    PowAdd(58, 1, 1); PowAdd(58, 2, 2); PowAdd(58, 4, 2); PowAdd(58, 6, 1); PowAdd(58, 7, 1); PowAdd(58, 8, 8);
  }


  lemma SmallPowersOf256()
    ensures Pow(256, 3) == 16777216 && Pow(256, 4) == 4294967296
    ensures Pow(256, 16) == 340282366920938463463374607431768211456
  {
    assert Pow(256, 1) == 256;
    hide Pow;
    PowAdd(256, 1, 1); PowAdd(256, 2, 1); PowAdd(256, 2, 2); PowAdd(256, 4, 4); PowAdd(256, 8, 8);
  }

  /** 26 base58 digits hold 19 bytes, and 52 bytes hold 71 base58 digits. */
  lemma PowersCompared()
    ensures Pow(256, 19) <= Pow(58, 26) && Pow(58, 71) <= Pow(256, 52)
  {
    SmallPowersOf58();
    SmallPowersOf256();
    hide Pow;
    PowAdd(58, 16, 8); PowAdd(58, 24, 2);
    PowAdd(58, 16, 16); PowAdd(58, 32, 32); PowAdd(58, 64, 7);
    PowAdd(256, 16, 3);
    PowAdd(256, 16, 16); PowAdd(256, 32, 16); PowAdd(256, 48, 4);
  }

  /** 138/100 of the bytes, rounded down, and one more base58 digit hold every byte string. */
  lemma EncodeFits(n: nat)
    ensures Pow(256, n) <= Pow(58, n * 138 / 100 + 1)
  {
    PowersCompared();
    hide Pow;
    Capacity(256, 58, 19, 26, n, n * 138 / 100 + 1);
  }

  /** 733/1000 of the digits, rounded down, and one more byte hold every base58 string. */
  lemma DecodeFits(n: nat)
    ensures Pow(58, n) <= Pow(256, n * 733 / 1000 + 1)
  {
    PowersCompared();
    hide Pow;
    Capacity(58, 256, 71, 52, n, n * 733 / 1000 + 1);
  }

  /** Without leading zeros the estimate bounds the encoded length. */
  lemma EncodedLength(data: seq<Byte>)
    requires NoLeadingZero(data)
    ensures |Encoded(data)| <= |data| * 138 / 100 + 1
  {
    hide Pow, Value, Digits;
    JoinZeros(0, data);
    assert Zeros(0) + data == data;
    EncodeFits(|data|);
    ValueBound(256, data);
    DigitsLength(58, Value(256, data), |data| * 138 / 100 + 1);
    ConvertBack(256, 58, data);
  }

  // ------------------------------------------------------------------ the buffer

  /** The carry loop's state: the digits from `j` on hold the product, less the carry. */
  ghost predicate Carried(base: nat, factor: nat, digit: nat, was: seq<nat>, now: seq<nat>, j: nat, carry: nat)
    requires j <= |was| == |now|
  {
    && carry < factor
    && now[..j] == was[..j]
    && Value(base, now[j..]) + carry * Pow(base, |was| - j) == Value(base, was[j..]) * factor + digit
  }

  lemma CarryStep(base: nat, factor: nat, digit: nat, was: seq<nat>, now: seq<nat>, j: nat, carry: nat)
    requires 0 < j <= |was| == |now| && base > 0 && Carried(base, factor, digit, was, now, j, carry)
    requires now[j - 1] < base
    ensures now[j - 1] * factor >= 0
    ensures var sum := carry + now[j - 1] * factor;
            && sum < base * factor && 0 <= sum / base
            && Carried(base, factor, digit, was, now[j - 1 := sum % base], j - 1, sum / base)
  {
    hide Value, Pow;
    var x := now[j - 1];
    assert x == was[j - 1] by { assert now[..j][j - 1] == was[..j][j - 1]; }
    MulBelow(factor, x, base);
    Swap(x, factor);
    Swap(base, factor);
    var sum: nat := carry + x * factor;
    var q, r := sum / base, sum % base;
    assert sum == q * base + r;
    QuotientBelow(sum, base, factor);
    var now' := now[j - 1 := r];
    assert now'[j - 1..] == [r] + now[j..];
    assert was[j - 1..] == [x] + was[j..];
    assert now'[..j - 1] == was[..j - 1] by { assert now[..j][..j - 1] == was[..j][..j - 1]; }
    ValueCons(base, r, now[j..]);
    ValueCons(base, x, was[j..]);
    var p := Pow(base, |was| - j);
    PowUnfold(base, |was| - j + 1);
    CarryTimes(q, base, r, carry, x, factor, p);
    ScaleSum(x * p, Value(base, was[j..]), factor);
    Assoc(x, p, factor);
    Swap(p, factor);
    Assoc(x, factor, p);
  }

  lemma QuotientBelow(sum: nat, base: nat, factor: nat)
    requires base > 0 && sum < base * factor
    ensures 0 <= sum / base < factor
  {
    var q := sum / base;
    assert sum == q * base + sum % base;
    if q >= factor { TimesMono(factor, q, base, base); Swap(base, factor); }
  }

  lemma ScaleSum(a: nat, b: nat, f: nat)
    ensures (a + b) * f == a * f + b * f
  {
  }

  lemma CarryTimes(q: nat, b: nat, r: nat, c: nat, x: nat, f: nat, p: nat)
    requires q * b + r == c + x * f
    ensures q * (b * p) + r * p == c * p + x * f * p
  {
    Assoc(q, b, p);
    ScaleSum(q * b, r, p);
    ScaleSum(c, x * f, p);
  }

  /** Multiplies the number in the buffer by `factor` and adds `digit`, carrying from the last digit to the first. */
  method MultiplyAdd(buf: array<nat>, base: nat, factor: nat, digit: nat)
    requires base >= 2 && digit < factor && base * factor <= 0x1_0000_0000
    requires IsDigits(base, buf[..]) && Value(base, buf[..]) * factor + digit < Pow(base, buf.Length)
    modifies buf
    ensures IsDigits(base, buf[..]) && Value(base, buf[..]) == old(Value(base, buf[..])) * factor + digit
  {
    hide Value, Pow, Carried;
    ghost var was := buf[..];
    var carry: nat, j := digit, buf.Length;
    CarryStart(base, factor, digit, was);
    while j > 0
      invariant 0 <= j <= buf.Length && IsDigits(base, buf[..])
      invariant Carried(base, factor, digit, was, buf[..], j, carry)
    {
      ghost var before := buf[..];
      CarryStep(base, factor, digit, was, buf[..], j, carry);
      carry := carry + buf[j - 1] * factor;
      assert carry < 0x1_0000_0000;
      var low: nat := carry % base;
      buf[j - 1] := low;
      assert buf[..] == before[j - 1 := low];
      carry := carry / base;
      j := j - 1;
    }
    CarryEnd(base, factor, digit, was, buf[..], carry);
  }

  lemma CarryStart(base: nat, factor: nat, digit: nat, was: seq<nat>)
    requires digit < factor
    ensures Carried(base, factor, digit, was, was, |was|, digit)
  {
    assert was[|was|..] == [];
    assert digit * Pow(base, 0) == digit;
  }

  /** Nothing is carried out of a buffer that can hold the result. */
  lemma CarryEnd(base: nat, factor: nat, digit: nat, was: seq<nat>, now: seq<nat>, carry: nat)
    requires |was| == |now| && Carried(base, factor, digit, was, now, 0, carry)
    requires Value(base, was) * factor + digit < Pow(base, |was|)
    ensures carry == 0 && Value(base, now) == Value(base, was) * factor + digit
  {
    hide Value, Pow;
    assert was[0..] == was && now[0..] == now;
    if carry > 0 { MulAtLeast(carry, Pow(base, |was|)); }
  }

  /** The buffer without its leading zeros. */
  method Significant(buf: array<nat>, base: nat) returns (i: nat)
    requires base >= 2 && IsDigits(base, buf[..])
    ensures i <= buf.Length && buf[i..] == Digits(base, Value(base, buf[..]))
  {
    i := CountZeros(buf[..]);
    SignificantPart(base, buf[..]);
    assert buf[..][i..] == buf[i..];
  }

  method CountZeros(d: seq<nat>) returns (z: nat)
    ensures z == LeadingZeros(d)
  {
    z := 0;
    while z < |d| && d[z] == 0
      invariant z <= |d| && LeadingZeros(d) == z + LeadingZeros(d[z..])
    {
      assert d[z..][1..] == d[z + 1..];
      z := z + 1;
    }
  }

  // ------------------------------------------------------------------- encoding

  /** Base 58 of the number made by the bytes, in a buffer of the estimated size. */
  method FillEncode(data: seq<Byte>) returns (buf: array<nat>)
    ensures fresh(buf) && IsDigits(58, buf[..]) && Value(58, buf[..]) == Value(256, data)
  {
    hide Value, Pow;
    buf := new nat[|data| * 138 / 100 + 1](_ => 0);
    EncodeFits(|data|);
    assert buf[..] == Zeros(buf.Length) + [];
    EmptyValue(58, buf.Length);
    EmptyValue(256, 0);
    for i := 0 to |data|
      invariant IsDigits(58, buf[..]) && Value(58, buf[..]) == Value(256, data[..i])
    {
      Next(256, data, i, Pow(58, buf.Length));
      MultiplyAdd(buf, 58, 256, data[i]);
    }
    assert data[..|data|] == data;
  }

  lemma EmptyValue(b: nat, n: nat)
    ensures Value(b, Zeros(n) + []) == 0 && Value(b, []) == 0
  {
    ValueZeros(b, n, []);
  }

  /** Reading one more digit, within any bound on the whole string. */
  lemma Next(b: nat, d: seq<nat>, i: nat, bound: nat)
    requires i < |d| && b > 0 && IsDigits(b, d) && Pow(b, |d|) <= bound
    ensures Value(b, d[..i + 1]) == Value(b, d[..i]) * b + d[i] < bound
  {
    ValueSnoc(b, d[..i], d[i]);
    assert d[..i] + [d[i]] == d[..i + 1];
    hide Value, Pow;
    ValueBound(b, d[..i + 1]);
    PowMono(b, i + 1, |d|);
  }

  method Encode(data: seq<Byte>, strLen: nat) returns (r: Option<string>)
    ensures r == if |Encoded(data)| + 1 <= strLen then Some(Encoded(data)) else None
  {
    hide Value, Digits, CharOf, LeadingZeros;
    var zcount := CountZeros(data);
    SplitZeros(data);
    var buf := FillEncode(data[zcount..]);
    ValueZeros(256, zcount, data[zcount..]);
    var i := Significant(buf, 58);
    ConvertBack(256, 58, data);
    ghost var digits := Zeros(zcount) + buf[i..];
    assert digits == Convert(256, 58, data);
    var len := zcount + buf.Length - i + 1;
    if len > strLen {
      return None;
    }
    var str := Write(zcount, buf[i..]);
    return Some(str);
  }

  /** The characters written: `zcount` ones, then the digits. */
  method Write(zcount: nat, d: seq<nat>) returns (str: string)
    requires IsDigits(58, d)
    ensures IsDigits(58, Zeros(zcount) + d) && str == Chars(Zeros(zcount) + d)
  {
    hide CharOf;
    str := "";
    var n := zcount;
    while n > 0
      invariant 0 <= n <= zcount && |str| == zcount - n && forall k | 0 <= k < |str| :: str[k] == CharOf(0)
    {
      str := str + [CharOf(0)];
      n := n - 1;
    }
    var i := 0;
    while i < |d|
      invariant 0 <= i <= |d| && |str| == zcount + i
      invariant forall k | 0 <= k < zcount :: str[k] == CharOf(0)
      invariant forall k | 0 <= k < i :: str[zcount + k] == CharOf(d[k])
    {
      str := str + [CharOf(d[i])];
      i := i + 1;
    }
    assert str == Chars(Zeros(zcount) + d);
  }

  // ------------------------------------------------------------------- decoding

  lemma PrefixStep(s: string, i: nat)
    requires i < |s|
    ensures DigitPrefix(s[i..]) == if DigitOf(s[i]) >= 58 then [] else [DigitOf(s[i])] + DigitPrefix(s[i + 1..])
  {
    hide DigitOf;
    assert s[i..][1..] == s[i + 1..];
  }

  /** Base 256 of the number made by the digits of `s`, up to the first character that is not one. */
  method FillDecode(s: string) returns (buf: array<nat>)
    ensures fresh(buf) && IsDigits(256, buf[..]) && Value(256, buf[..]) == Value(58, DigitPrefix(s))
  {
    hide Value, Pow, DigitOf, DigitPrefix;
    buf := new nat[|s| * 733 / 1000 + 1](_ => 0);
    DecodeFits(|s|);
    assert buf[..] == Zeros(buf.Length) + [];
    EmptyValue(256, buf.Length);
    EmptyValue(58, 0);
    ghost var all := DigitPrefix(s);
    PowMono(58, |all|, |s|);
    assert s[0..] == s;
    var i := 0;
    while i < |s|
      invariant 0 <= i <= |all| <= |s| && IsDigits(58, all) && all[i..] == DigitPrefix(s[i..])
      invariant IsDigits(256, buf[..]) && Value(256, buf[..]) == Value(58, all[..i])
    {
      PrefixStep(s, i);
      var digit := DigitOf(s[i]);
      if digit >= 58 {
        break;
      }
      assert all[i] == all[i..][0] == digit;
      assert all[i + 1..] == all[i..][1..];
      Next(58, all, i, Pow(256, buf.Length));
      MultiplyAdd(buf, 256, 58, digit);
      i := i + 1;
    }
    PrefixEnd(s, i);
    assert all[..i] == all;
  }

  lemma PrefixEnd(s: string, i: nat)
    requires i <= |s| && (i < |s| ==> DigitOf(s[i]) >= 58)
    ensures DigitPrefix(s[i..]) == []
  {
  }

  method Decode(s: string, dataLen: nat) returns (r: Option<seq<Byte>>)
    ensures r == if |Decoded(s)| <= dataLen then Some(Decoded(s)) else None
  {
    hide Value, Digits, DigitOf, DigitPrefix, LeadingZeros;
    var zcount := CountOnes(s);
    var buf := FillDecode(s[zcount..]);
    PrefixAfterOnes(s, zcount);
    ValueZeros(58, zcount, DigitPrefix(s[zcount..]));
    var i := Significant(buf, 256);
    ConvertBack(58, 256, DigitPrefix(s));
    var data: seq<Byte> := Zeros(zcount) + buf[i..];
    assert data == Convert(58, 256, DigitPrefix(s));
    r := if zcount + buf.Length - i <= dataLen then Some(data) else None;
  }

  method CountOnes(s: string) returns (z: nat)
    ensures z <= |s| && (forall k | 0 <= k < z :: s[k] == '1') && (z < |s| ==> s[z] != '1')
  {
    z := 0;
    while z < |s| && s[z] == '1'
      invariant z <= |s| && forall k | 0 <= k < z :: s[k] == '1'
    {
      z := z + 1;
    }
  }

  lemma {:induction false} PrefixAfterOnes(s: string, z: nat)
    requires z <= |s| && (forall k | 0 <= k < z :: s[k] == '1') && (z < |s| ==> s[z] != '1')
    ensures DigitPrefix(s) == Zeros(z) + DigitPrefix(s[z..]) && LeadingZeros(DigitPrefix(s)) == z
  {
    hide DigitOf;
    if s != "" { ZeroDigit(s[0]); }
    if z == 0 {
      assert s[z..] == s;
    } else {
      var t := s[1..];
      PrefixAfterOnes(t, z - 1);
      assert t[z - 1..] == s[z..];
      assert DigitPrefix(s)[1..] == DigitPrefix(t);
    }
  }

  lemma ZeroDigit(c: char)
    ensures DigitOf(c) == 0 <==> c == '1'
  {
  }

  // ---------------------------------------------------------------- checksums

  /** The payload with the first four bytes of its hash. */
  function Checked(hash: seq<Byte> -> seq<Byte>, data: seq<Byte>): seq<Byte>
    requires |hash(data)| == 32
  {
    data + hash(data)[..4]
  }

  predicate ChecksumOk(hash: seq<Byte> -> seq<Byte>, buf: seq<Byte>)
    requires forall d :: |hash(d)| == 32
  {
    |buf| >= 4 && buf[|buf| - 4..] == hash(buf[..|buf| - 4])[..4]
  }

  function CheckDecoded(hash: seq<Byte> -> seq<Byte>, s: string): seq<Byte>
    requires forall d :: |hash(d)| == 32
  {
    var buf := Decoded(s);
    if ChecksumOk(hash, buf) then buf[..|buf| - 4] else []
  }

  method CheckEncode(hash: seq<Byte> -> seq<Byte>, data: seq<Byte>, strLen: nat) returns (r: Option<string>)
    requires forall d :: |hash(d)| == 32
    ensures var s := Encoded(Checked(hash, data)); r == if |s| + 1 <= strLen then Some(s) else None
  {
    var buf: seq<Byte> := data + hash(data);
    assert buf[..|data| + 4] == Checked(hash, data);
    r := Encode(buf[..|data| + 4], strLen);
  }

  /** A decoded string is never longer than the string. */
  lemma DecodedLength(s: string)
    ensures |Decoded(s)| <= |s|
  {
    var d := DigitPrefix(s);
    var z := LeadingZeros(d);
    SplitZeros(d);
    ValueZeros(58, z, d[z..]);
    hide Value, Digits, LeadingZeros, DigitPrefix, Pow;
    ValueBound(58, d[z..]);
    PowBaseMono(58, 256, |d[z..]|);
    DigitsLength(256, Value(58, d), |d[z..]|);
  }

  method CheckDecode(hash: seq<Byte> -> seq<Byte>, s: string, dataLen: nat) returns (r: seq<Byte>)
    requires forall d :: |hash(d)| == 32
    ensures r == if |CheckDecoded(hash, s)| <= dataLen then CheckDecoded(hash, s) else []
  {
    hide Decoded;
    DecodedLength(s);
    var decoded := Decode(s, |s|);
    var buf := decoded.value;
    var len := |buf|;
    if len >= 4 {
      len := len - 4;
      var md := hash(buf[..len]);
      if buf[len..] != md[..4] {
        len := 0;
      }
    } else {
      len := 0;
    }
    r := if len <= dataLen then buf[..len] else [];
  }

  /** The checksummed pair round-trips, whatever the hash function. */
  lemma CheckRoundTrip(hash: seq<Byte> -> seq<Byte>, data: seq<Byte>)
    requires forall d :: |hash(d)| == 32
    ensures CheckDecoded(hash, Encoded(Checked(hash, data))) == data
  {
    hide Decoded, Encoded;
    DecodeEncoded(Checked(hash, data));
    assert Checked(hash, data)[..|data|] == data;
  }

  /** A string decodes to a payload only if its digits, up to the first character that is not one, are
      the payload's encoding. */
  lemma CheckDecodeSound(hash: seq<Byte> -> seq<Byte>, s: string)
    requires (forall d :: |hash(d)| == 32) && CheckDecoded(hash, s) != []
    ensures Chars(DigitPrefix(s)) == Encoded(Checked(hash, CheckDecoded(hash, s)))
    ensures AllDigits(s) ==> s == Encoded(Checked(hash, CheckDecoded(hash, s)))
  {
    hide Decoded, Encoded, AllDigits, Chars, DigitPrefix;
    EncodeDecodedPrefix(s);
    EncodeDecoded(s);
    var buf := Decoded(s);
    assert buf == buf[..|buf| - 4] + buf[|buf| - 4..];
  }

  /** The encoding of a payload followed by anything that does not start with a digit decodes to the payload. */
  lemma CheckDecodeGarbage(hash: seq<Byte> -> seq<Byte>, data: seq<Byte>, c: char, t: string)
    requires (forall d :: |hash(d)| == 32) && DigitOf(c) >= 58
    ensures CheckDecoded(hash, Encoded(Checked(hash, data)) + [c] + t) == data
  {
    var s := Encoded(Checked(hash, data));
    hide Decoded, AllDigits, Chars, DigitPrefix, DigitOf, Checked, ChecksumOk;
    CheckRoundTrip(hash, data);
    EncodedAllDigits(Checked(hash, data));
    GarbageIgnored(s, c, t);
  }

  lemma EncodedAllDigits(data: seq<Byte>)
    ensures AllDigits(Encoded(data))
  {
    hide Convert, Chars, AllDigits;
    ConvertBack(256, 58, data);
    CharsAreDigits(Convert(256, 58, data));
  }
}
