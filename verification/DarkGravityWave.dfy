/**
Dark Gravity Wave: the difficulty target of the next block, from up to 180 blocks before it.

The loop runs on 256-bit limbs, a 32-bit signed timespan and 32-bit compact targets.  Its
result is proved to be the compact form of a plain formula over integers, so no step of
it wraps around.
*/
module DarkGravityWave {
  import opened Bits
  import opened UInt256
  import opened Compact

  const PAST_BLOCKS: nat := 180
  const START_BLOCK: nat := 338778
  const MAX_PROOF_OF_WORK: Word := 0x1e00ffff
  const TARGET_TIMESPAN: nat := 60

  datatype Block<H> = Block(prev: H, height: nat, timestamp: Word, target: Word)

  /** The blocks the loop visits: back from `h`, at most `n`, stopping at a missing block or height 0. */
  function Visited<H>(blocks: map<H, Block<H>>, h: H, n: nat): (v: seq<Block<H>>)
    ensures |v| <= n
    decreases n
  {
    if n == 0 || h !in blocks || blocks[h].height == 0 then []
    else [blocks[h]] + Visited(blocks, blocks[h].prev, n - 1)
  }

  /** The range check that a block's target has to pass. */
  predicate ValidTarget(c: Word) {
    var size, target := c / 0x100_0000, c % 0x100_0000;
    && 0 < target < 0x80_0000
    && (size < MAX_PROOF_OF_WORK / 0x100_0000 ||
        (size == MAX_PROOF_OF_WORK / 0x100_0000 && target <= MAX_PROOF_OF_WORK % 0x100_0000))
  }

  // ------------------------------------------------------------ the formula

  /** 2 t1 + t2 + ... + tk. */
  function Weighted<H>(v: seq<Block<H>>): nat {
    if v == [] then 0
    else Weighted(v[..|v| - 1]) + (if |v| == 1 then 2 else 1) * Expanded(v[|v| - 1].target)
  }

  function Average<H>(v: seq<Block<H>>): nat {
    Quotient(Weighted(v), |v| + 1)
  }

  function Quotient(x: nat, d: nat): nat
    requires d > 0
  {
    x / d
  }

  /** Two's-complement truncation to 32 bits. */
  function Signed32(x: int): int {
    var m := x % 0x1_0000_0000;
    if m < 0x8000_0000 then m else m - 0x1_0000_0000
  }

  /** The sum of the time differences, kept in 32 bits; a zero timestamp contributes no difference. */
  function Span<H>(v: seq<Block<H>>): int {
    if |v| <= 1 then 0
    else
      var n := |v| - 1;
      if v[n - 1].timestamp > 0 then Signed32(Span(v[..n]) + v[n - 1].timestamp - v[n].timestamp) else Span(v[..n])
  }

  function Target(k: nat): nat {
    k * TARGET_TIMESPAN
  }

  function Clamped(span: int, target: nat): nat {
    if span < target / 3 then target / 3 else if span > target * 3 then target * 3 else span
  }

  /** The next target before it is limited and compacted. */
  function Retarget<H>(v: seq<Block<H>>): nat
    requires |v| > 0
  {
    Quotient(Product(Average(v), Clamped(Span(v), Target(|v|))), Target(|v|))
  }

  function Product(x: nat, y: nat): nat {
    x * y
  }

  // ------------------------------------------- the formula on 256-bit words

  /** The sum of the targets as the words hold it. */
  function WordSum<H>(v: seq<Block<H>>): nat {
    Weighted(v) % TWO_256
  }

  /** A quotient as the words give it: zero from 2^255 on. */
  function WordQuotient(x: nat, d: nat): nat
    requires d > 0
  {
    if x >= TWO_255 then 0 else Quotient(x, d)
  }

  function WordProduct(x: nat, y: nat): nat {
    Product(x, y) % TWO_256
  }

  function WordAverage<H>(v: seq<Block<H>>): nat {
    WordQuotient(WordSum(v), |v| + 1)
  }

  /** The next target as the words hold it, for any targets and timestamps. */
  function WordRetarget<H>(v: seq<Block<H>>): nat
    requires |v| > 0
  {
    WordQuotient(WordProduct(WordAverage(v), Clamped(Span(v), Target(|v|))), Target(|v|))
  }

  function MaxTarget(): nat {
    Expanded(MAX_PROOF_OF_WORK)
  }

  // ------------------------------------------------------------- its meaning

  /** With nonzero timestamps close enough together, the differences telescope. */
  lemma {:induction false} SpanTelescopes<H>(v: seq<Block<H>>)
    requires |v| > 0 && forall i | 0 <= i < |v| :: v[i].timestamp > 0
    requires forall i | 0 <= i < |v| :: -0x8000_0000 <= v[0].timestamp - v[i].timestamp < 0x8000_0000
    ensures Span(v) == v[0].timestamp - v[|v| - 1].timestamp
  {
    var n := |v| - 1;
    if n > 0 {
      SpanTelescopes(v[..n]);
      SignedFits(v[0].timestamp - v[n].timestamp);
    }
  }

  lemma SignedFits(x: int)
    requires -0x8000_0000 <= x < 0x8000_0000
    ensures Signed32(x) == x
  {
  }

  /** One step changes the average at most threefold either way. */
  lemma RetargetBounds<H>(v: seq<Block<H>>)
    requires |v| > 0
    ensures Average(v) / 3 <= Retarget(v) <= 3 * Average(v)
  {
    hide Average, Span;
    var k, a, c := |v|, Average(v), Clamped(Span(v), Target(|v|));
    assert 20 * k <= c <= 180 * k;
    MulMono(20 * k, c, a);
    MulMono(c, 180 * k, a);
    BoundsDivide(a, k, a * c);
  }

  lemma BoundsDivide(a: nat, k: nat, p: nat)
    requires k > 0 && 20 * k * a <= p <= 180 * k * a
    ensures a / 3 <= p / (60 * k) <= 3 * a
  {
    var q, r := p / (60 * k), p % (60 * k);
    assert p == q * (60 * k) + r;
    DivNat(p, 60 * k);
    var t := a / 3;
    Regroup(20, k, a);
    assert 20 * k * a == 20 * (k * a) && 180 * k * a == 180 * (k * a);
    MulMono(3 * t, a, k);
    if q < t { MulMono(q + 1, t, 60 * k); AddTimes3(q, 1, 0, 60 * k); Sixty(t, k); }
    if q > 3 * a { MulMono(3 * a + 1, q, 60 * k); AddTimes3(3 * a, 1, 0, 60 * k); Sixty(3 * a, k); Regroup(3, a, k); }
  }

  lemma Sixty(t: nat, k: nat)
    ensures t * (60 * k) == 60 * (t * k) && 3 * t * k == 3 * (t * k)
  {
  }

  lemma MaxTargetSmall()
    ensures InRange(MAX_PROOF_OF_WORK) && Canonical(MAX_PROOF_OF_WORK)
    ensures MaxTarget() * TWO_24 == 0xffff * Bytes(30) && MaxTarget() * TWO_24 < TWO_256
  {
    BytesAdd(30, 2);
    BytesThree();
    Pow256Bits();
    assert Bytes(32) == TWO_256;
    hide Bytes, Expanded;
    ExpandedMeans(MAX_PROOF_OF_WORK);
    DivModUnique(0xffff * Bytes(30), TWO_24, MaxTarget(), 0);
  }

  /** The range check bounds the value of a target. */
  lemma ValidIsBounded(c: Word)
    requires ValidTarget(c)
    ensures Expanded(c) <= MaxTarget()
  {
    var s, m := c / 0x100_0000, c % 0x100_0000;
    hide Bytes, Expanded, MaxTarget;
    MaxTargetSmall();
    ScaledBound(s, m);
    assert InRange(c);
    ExpandedMeans(c);
    DivBelow(m * Bytes(s), TWO_24, MaxTarget() + 1);
  }

  lemma ScaledBound(s: nat, m: nat)
    requires (s == 30 && m <= 0xffff) || (s < 30 && m < 0x80_0000)
    ensures 0 <= m * Bytes(s) <= 0xffff * Bytes(30)
  {
    hide Bytes;
    if s == 30 {
      MulMono(m, 0xffff, Bytes(30));
    } else {
      BytesStep(29);
      BytesMono(s, 29);
      MulMono(m, 0x80_0000, Bytes(s));
    }
  }

  lemma {:induction false} WeightedBound<H>(v: seq<Block<H>>)
    requires forall i | 0 <= i < |v| :: ValidTarget(v[i].target)
    ensures Weighted(v) <= (|v| + 1) * MaxTarget()
  {
    if v != [] {
      var n := |v| - 1;
      hide ValidTarget, Expanded;
      WeightedBound(v[..n]);
      ValidIsBounded(v[n].target);
      if n == 0 { assert Weighted(v[..n]) == 0; }
      AddTimes3(|v|, 1, 0, MaxTarget());
    }
  }

  lemma AverageBound<H>(v: seq<Block<H>>)
    requires forall i | 0 <= i < |v| :: ValidTarget(v[i].target)
    ensures Average(v) <= MaxTarget()
  {
    hide Weighted, MaxTarget, ValidTarget;
    WeightedBound(v);
    DivBelow(Weighted(v), |v| + 1, MaxTarget() + 1);
  }

  // --------------------------------------------------------------- the loop

  lemma VisitedStep<H>(blocks: map<H, Block<H>>, h: H, n: nat)
    requires n > 0 && h in blocks && blocks[h].height > 0
    ensures Visited(blocks, h, n) == [blocks[h]] + Visited(blocks, blocks[h].prev, n - 1)
  {
  }

  /** Adding the target of the next visited block; the first one counts twice. */
  method AddTarget<H>(sum: seq<Word>, count: nat, ghost v: seq<Block<H>>, b: Block<H>) returns (r: seq<Word>)
    requires |sum| == 8 && Num(sum) == WordSum(v) && count == |v| + 1
    ensures |r| == 8 && Num(r) == WordSum(v + [b])
  {
    hide Num, Expanded, Weighted;
    var t := SetCompact(b.target);
    WeightedSnoc(v, b);
    if count == 1 {
      WeightedNone<H>();
      assert v == [];
      r := Add(t, t);
    } else {
      r := Add(sum, t);
      ModAdd(Weighted(v), Num(t));
    }
  }

  lemma ModAdd(x: nat, y: nat)
    ensures (x % TWO_256 + y) % TWO_256 == (x + y) % TWO_256
  {
    var q, r := x / TWO_256, x % TWO_256;
    var p, s := (r + y) / TWO_256, (r + y) % TWO_256;
    DivModUnique(x + y, TWO_256, q + p, s);
  }

  lemma WeightedNone<H>()
    ensures Weighted<H>([]) == 0
  {
  }

  lemma WeightedSnoc<H>(v: seq<Block<H>>, b: Block<H>)
    ensures Weighted(v + [b]) == Weighted(v) + (if v == [] then 2 else 1) * Expanded(b.target)
  {
    assert (v + [b])[..|v|] == v;
  }

  lemma SumFits<H>(v: seq<Block<H>>)
    requires |v| <= PAST_BLOCKS && forall i | 0 <= i < |v| :: ValidTarget(v[i].target)
    ensures Weighted(v) < TWO_255
  {
    hide Weighted, MaxTarget, ValidTarget;
    WeightedBound(v);
    MaxTargetSmall();
    MulMono(|v| + 1, 181, MaxTarget());
  }

  ghost predicate AllValid<H>(v: seq<Block<H>>) {
    forall i | 0 <= i < |v| :: ValidTarget(v[i].target)
  }

  /** What the loop has gathered from the visited blocks `v`. */
  ghost predicate Gathered<H>(v: seq<Block<H>>, sum: seq<Word>, span: int, last: nat, count: nat) {
    && |sum| == 8 && Num(sum) == WordSum(v)
    && span == Span(v)
    && last == (if v == [] then 0 else v[|v| - 1].timestamp)
    && count == |v| + 1
  }

  method GatherOne<H>(sum: seq<Word>, span: int, last: nat, count: nat, ghost v: seq<Block<H>>, b: Block<H>)
    returns (sum': seq<Word>, span': int)
    requires Gathered(v, sum, span, last, count)
    ensures Gathered(v + [b], sum', span', b.timestamp, count + 1)
  {
    hide Num, Weighted, Signed32;
    sum' := AddTarget(sum, count, v, b);
    span' := span;
    if last > 0 {
      span' := Signed32(span + last - b.timestamp);
    }
    assert (v + [b])[..|v|] == v;
  }

  lemma GatheredNone<H>(sum: seq<Word>)
    requires sum == [0, 0, 0, 0, 0, 0, 0, 0]
    ensures Gathered<H>([], sum, 0, 0, 1)
  {
    hide Num, Weighted;
    SmallNum(0);
    WeightedNone<H>();
  }

  lemma VisitedNone<H>(blocks: map<H, Block<H>>, h: H, n: nat)
    requires n == 0 || h !in blocks || blocks[h].height == 0
    ensures Visited(blocks, h, n) == []
  {
  }

  /** The loop over the past blocks. */
  method Gather<H>(blocks: map<H, Block<H>>, previous: H) returns (sum: seq<Word>, span: int, count: nat)
    ensures var v := Visited(blocks, previous, PAST_BLOCKS);
            |sum| == 8 && Num(sum) == WordSum(v) && span == Span(v) && count == |v| + 1
  {
    hide Num, Weighted, WordSum, Span, Visited;
    ghost var all := Visited(blocks, previous, PAST_BLOCKS);
    ghost var v: seq<Block<H>> := [];
    var current, last: nat := previous, 0;
    sum, span, count := [0, 0, 0, 0, 0, 0, 0, 0], 0, 1;
    GatheredNone<H>(sum);
    while current in blocks && blocks[current].height > 0 && count <= PAST_BLOCKS
      invariant Gathered(v, sum, span, last, count)
      invariant |v| <= PAST_BLOCKS && all == v + Visited(blocks, current, PAST_BLOCKS - |v|)
      decreases PAST_BLOCKS + 1 - count
    {
      var b := blocks[current];
      VisitedStep(blocks, current, PAST_BLOCKS - |v|);
      assert all == (v + [b]) + Visited(blocks, b.prev, PAST_BLOCKS - |v| - 1);
      sum, span := GatherOne(sum, span, last, count, v, b);
      last, current, count := b.timestamp, b.prev, count + 1;
      v := v + [b];
    }
    VisitedNone(blocks, current, PAST_BLOCKS - |v|);
    assert all == v;
  }

  // ------------------------------------------------------------- the result

  /** No easier than the easiest target. */
  function Limited(x: nat): nat {
    if x > MaxTarget() then MaxTarget() else x
  }

  /** Limiting the compact form is compacting the limited target. */
  lemma LimitCommutes(x: nat, c: Word)
    requires IsCompact(x, c)
    ensures IsCompact(Limited(x), if c > MAX_PROOF_OF_WORK then MAX_PROOF_OF_WORK else c)
  {
    MaxTargetSmall();
    hide Expanded, IsCompact, InRange;
    CompactOfExpanded(MAX_PROOF_OF_WORK);
    if x > MaxTarget() {
      CompactMonotone(MaxTarget(), x, MAX_PROOF_OF_WORK, c);
    } else {
      CompactMonotone(x, MaxTarget(), c, MAX_PROOF_OF_WORK);
    }
  }

  /** No 256-bit step of the formula leaves the range in which division is exact. */
  lemma StepsFit<H>(v: seq<Block<H>>)
    requires 0 < |v| <= PAST_BLOCKS && AllValid(v)
    ensures Weighted(v) < TWO_255 && Average(v) < TWO_255
    ensures 20 <= Target(|v|) / 3 <= Clamped(Span(v), Target(|v|)) <= 3 * Target(|v|) <= 32400
    ensures Product(Average(v), Clamped(Span(v), Target(|v|))) < TWO_255 && Retarget(v) < TWO_255
  {
    hide Weighted, ValidTarget, MaxTarget, Average, Span, Quotient;
    SumFits(v);
    AverageBound(v);
    MaxTargetSmall();
    var c := Clamped(Span(v), Target(|v|));
    MulMono(Average(v), MaxTarget(), c);
    MulMono(c, 32400, MaxTarget());
    assert c * MaxTarget() == MaxTarget() * c;
    RetargetBounds(v);
  }

  /** With targets in range the words hold the formula itself. */
  lemma NothingWraps<H>(v: seq<Block<H>>)
    requires 0 < |v| <= PAST_BLOCKS && AllValid(v)
    ensures WordRetarget(v) == Retarget(v)
  {
    hide Weighted, AllValid, Span, Quotient, Product;
    StepsFit(v);
  }

  lemma ClampedFits(span: int, k: nat)
    requires 0 < k <= PAST_BLOCKS
    ensures 60 <= Target(k) <= 10800 && 20 <= Clamped(span, Target(k)) <= 32400
  {
  }

  lemma WordQuotientSmall(x: nat, d: nat)
    requires d > 0
    ensures WordQuotient(x, d) < TWO_255
  {
    if x < TWO_255 { DivBelow(x, d, TWO_255); }
  }

  /** The average scaled by the clamped timespan over the target timespan, on words. */
  method Scale<H>(sum: seq<Word>, span: int, count: nat, ghost v: seq<Block<H>>) returns (dark: seq<Word>)
    requires 0 < |v| <= PAST_BLOCKS
    requires |sum| == 8 && Num(sum) == WordSum(v) && span == Span(v) && count == |v| + 1
    ensures |dark| == 8 && Num(dark) == WordRetarget(v) < TWO_255
  {
    hide Num, WordSum, Span, Quotient;
    ClampedFits(span, |v|);
    SmallNum(count);
    dark := Divide(sum, [count, 0, 0, 0, 0, 0, 0, 0]);
    QuotientIs(Num(sum), count);
    assert Num(dark) == WordAverage(v);
    var target := (count - 1) * TARGET_TIMESPAN;
    var actual := span;
    if actual < target / 3 {
      actual := target / 3;
    }
    if actual > target * 3 {
      actual := target * 3;
    }
    assert target == Target(|v|) && actual == Clamped(Span(v), Target(|v|));
    hide WordAverage, Clamped, Target;
    dark := MultiplyThis32(dark, actual);
    assert Num(dark) == WordProduct(WordAverage(v), actual);
    SmallNum(target);
    QuotientIs(Num(dark), target);
    WordQuotientSmall(Num(dark), target);
    dark := Divide(dark, [target, 0, 0, 0, 0, 0, 0, 0]);
  }

  lemma QuotientIs(x: nat, d: nat)
    requires d > 0
    ensures Quotient(x, d) == x / d
  {
  }

  /**
  The target for the block after `previous`.  Below the start height, or when the previous
  block is unknown, it is the easiest target; otherwise it is the compact form of the
  formula on words, limited to the easiest target.  With targets in range no word wraps.
  */
  method DarkGravityWaveTarget<H>(blocks: map<H, Block<H>>, previous: H) returns (r: Word)
    ensures r <= MAX_PROOF_OF_WORK
    ensures previous !in blocks || blocks[previous].height < START_BLOCK ==> r == MAX_PROOF_OF_WORK
    ensures previous in blocks && blocks[previous].height >= START_BLOCK ==>
      var v := Visited(blocks, previous, PAST_BLOCKS);
      && |v| > 0
      && IsCompact(Limited(WordRetarget(v)), r)
      && (AllValid(v) ==> IsCompact(Limited(Retarget(v)), r))
  {
    if previous !in blocks || blocks[previous].height == 0 || blocks[previous].height < START_BLOCK {
      return MAX_PROOF_OF_WORK;
    }
    ghost var v := Visited(blocks, previous, PAST_BLOCKS);
    VisitedStep(blocks, previous, PAST_BLOCKS);
    hide Num, WordSum, AllValid, Span, IsCompact, Retarget, WordRetarget, Limited;
    var sum, span, count := Gather(blocks, previous);
    var dark := Scale(sum, span, count, v);
    var compact := GetCompact(dark);
    LimitCommutes(WordRetarget(v), compact);
    if AllValid(v) { NothingWraps(v); }
    r := if compact > MAX_PROOF_OF_WORK then MAX_PROOF_OF_WORK else compact;
  }
}
