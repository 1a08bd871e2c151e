/**
Partial Merkle trees as carried by a `merkleblock` message.

The decoder walks the tree depth first.  It knows the number of rows from the
total transaction count, but it never computes row widths: a missing right
branch is recognised only because the carried hashes have run out.  This module
models the two recursions over the shared cursors, defines the full tree and the
BIP37 encoder independently of the decoder, and proves that decoding inverts
encoding (completeness) and exactly when a root match vouches for every listed
transaction (soundness): when the rebuilding recursion met no node whose left half is
missing or whose halves are equal.  The code marks that case in its hash cursor, but a
root match alone does not exclude it.
*/
module PartialMerkle {
  import opened Bits

  /** A digest.  Zero stands for UINT256_ZERO, "no hash here". */
  type Hash = nat

  /** The double SHA-256 of the concatenation of two digests. */
  type PairHash = (Hash, Hash) -> Hash

  const SIZE_MAX: nat := 0xFFFF_FFFF_FFFF_FFFF

  datatype Block = Block(totalTx: nat, hashes: seq<Hash>, flags: seq<bv8>) {
    /** What an array of 32-byte hashes guarantees, and a transaction count that fits a signed int. */
    ghost predicate Sized() {
      totalTx < 0x8000_0000 && |hashes| < SIZE_MAX
    }

    predicate Readable(hashIdx: nat, flagIdx: nat) {
      flagIdx / 8 < |flags| && hashIdx < |hashes|
    }

    predicate Flag(i: nat)
      requires i / 8 < |flags|
    {
      flags[i / 8] & ((1 as bv8) << (i % 8)) != 0
    }
  }

  // ---------------------------------------------------------------- tree depth

  function FloorLog2(x: nat): nat {
    if x <= 1 then 0 else 1 + FloorLog2(x / 2)
  }

  /** The number of rows above the leaves when odd rows are padded to even ones. */
  function TreeDepth(n: nat): (d: nat)
    ensures n <= Pow2(d)
    ensures n > 1 ==> d > 0 && Pow2(d - 1) < n
  {
    if n <= 1 then 0 else 1 + TreeDepth((n + 1) / 2)
  }

  lemma {:induction false} DepthOfSuccessor(m: nat)
    requires m >= 1
    ensures TreeDepth(m + 1) == FloorLog2(m) + 1
  {
    if m >= 2 {
      assert (m + 2) / 2 == m / 2 + 1;
      DepthOfSuccessor(m / 2);
    }
  }

  /** The power-of-two test by `x & (x - 1)` rounds the floor logarithm up. */
  lemma {:induction false} DepthByBitTrick(n: nat)
    requires n >= 1
    ensures TreeDepth(n) == FloorLog2(n) + (if BitAnd(n, n - 1) != 0 then 1 else 0)
  {
    hide Pow2;
    if n >= 2 {
      var m := n / 2;
      if n % 2 == 0 {
        assert (n + 1) / 2 == m && (n - 1) / 2 == m - 1;
        DepthByBitTrick(m);
        assert BitAnd(n, n - 1) == 2 * BitAnd(m, m - 1);
      } else {
        assert (n + 1) / 2 == m + 1 && (n - 1) / 2 == m;
        BitAndSelf(m);
        DepthOfSuccessor(m);
        assert BitAnd(n, n - 1) == 2 * m;
      }
    }
  }

  method CeilLog2(x: nat) returns (r: nat)
    requires x < 0x8000_0000
    ensures r == TreeDepth(x)
  {
    r := if x != 0 && BitAnd(x, x - 1) != 0 then 1 else 0;
    if x != 0 { DepthByBitTrick(x); }
    var y: nat := x / 2;
    while y != 0
      invariant y == 0 ==> r == TreeDepth(x)
      invariant y != 0 ==> r + 1 + FloorLog2(y) == TreeDepth(x)
    {
      r := r + 1;
      y := y / 2;
    }
  }

  // ------------------------------------------------------------------- decoder

  datatype RootStep = RootStep(md: Hash, hashIdx: nat, flagIdx: nat)
  datatype TxStep = TxStep(txs: seq<Hash>, hashIdx: nat, flagIdx: nat)

  /** The root recursion at a node with `k` rows below it. */
  function DecodeRoot(h: PairHash, b: Block, hashIdx: nat, flagIdx: nat, k: nat): RootStep
    decreases k
  {
    if !b.Readable(hashIdx, flagIdx) then RootStep(0, hashIdx, flagIdx)
    else if b.Flag(flagIdx) && k != 0 then
      var l := DecodeRoot(h, b, hashIdx, flagIdx + 1, k - 1);
      var r := DecodeRoot(h, b, l.hashIdx, l.flagIdx, k - 1);
      if l.md != 0 && l.md != r.md then
        RootStep(h(l.md, if r.md == 0 then l.md else r.md), r.hashIdx, r.flagIdx)
      else
        RootStep(0, SIZE_MAX, r.flagIdx)
    else RootStep(b.hashes[hashIdx], hashIdx + 1, flagIdx + 1)
  }

  /** The matched-transaction recursion at a node with `k` rows below it. */
  function DecodeTxs(b: Block, hashIdx: nat, flagIdx: nat, k: nat): TxStep
    decreases k
  {
    if !b.Readable(hashIdx, flagIdx) then TxStep([], hashIdx, flagIdx)
    else if !b.Flag(flagIdx) || k == 0 then
      TxStep(if b.Flag(flagIdx) then [b.hashes[hashIdx]] else [], hashIdx + 1, flagIdx + 1)
    else
      var l := DecodeTxs(b, hashIdx, flagIdx + 1, k - 1);
      var r := DecodeTxs(b, l.hashIdx, l.flagIdx, k - 1);
      TxStep(l.txs + r.txs, r.hashIdx, r.flagIdx)
  }

  lemma TxsUnfold(b: Block, hashIdx: nat, flagIdx: nat, k: nat)
    ensures !b.Readable(hashIdx, flagIdx) ==> DecodeTxs(b, hashIdx, flagIdx, k) == TxStep([], hashIdx, flagIdx)
    ensures b.Readable(hashIdx, flagIdx) && (!b.Flag(flagIdx) || k == 0) ==>
              DecodeTxs(b, hashIdx, flagIdx, k) ==
              TxStep(if b.Flag(flagIdx) then [b.hashes[hashIdx]] else [], hashIdx + 1, flagIdx + 1)
    ensures b.Readable(hashIdx, flagIdx) && b.Flag(flagIdx) && k != 0 ==>
              var l := DecodeTxs(b, hashIdx, flagIdx + 1, k - 1);
              var r := DecodeTxs(b, l.hashIdx, l.flagIdx, k - 1);
              DecodeTxs(b, hashIdx, flagIdx, k) == TxStep(l.txs + r.txs, r.hashIdx, r.flagIdx)
  {
    hide Block.Flag;
  }

  function DecodedRoot(h: PairHash, b: Block): RootStep {
    DecodeRoot(h, b, 0, 0, TreeDepth(b.totalTx))
  }

  function MatchedTxs(b: Block): seq<Hash> {
    DecodeTxs(b, 0, 0, TreeDepth(b.totalTx)).txs
  }

  function Min(a: int, b: int): int {
    if a < b then a else b
  }

  /** As much of `s` as there is room for. */
  function Fit<T>(s: seq<T>, room: nat): (f: seq<T>)
    ensures |f| == Min(|s|, room)
    ensures |s| <= room ==> f == s
  {
    s[..Min(|s|, room)]
  }

  lemma FitConcat<T>(s: seq<T>, t: seq<T>, room: nat)
    ensures Fit(s + t, room) == Fit(s, room) + Fit(t, room - |Fit(s, room)|)
  {
  }

  /** The cursors the two C recursions share by pointer. */
  class Walk {
    var idx: nat
    var hashIdx: nat
    var flagIdx: nat

    constructor ()
      ensures idx == 0 && hashIdx == 0 && flagIdx == 0
    {
      idx, hashIdx, flagIdx := 0, 0, 0;
    }

    method RootR(h: PairHash, block: Block, depth: nat) returns (md: Hash)
      requires block.Sized() && depth <= TreeDepth(block.totalTx)
      modifies this`hashIdx, this`flagIdx
      ensures RootStep(md, hashIdx, flagIdx) ==
              DecodeRoot(h, block, old(hashIdx), old(flagIdx), TreeDepth(block.totalTx) - depth)
      decreases TreeDepth(block.totalTx) - depth
    {
      md := 0;
      if flagIdx / 8 < |block.flags| && hashIdx < |block.hashes| {
        var flag := block.Flag(flagIdx);
        flagIdx := flagIdx + 1;
        var rows := CeilLog2(block.totalTx);
        if flag && depth != rows {
          var left := RootR(h, block, depth + 1);
          var right := RootR(h, block, depth + 1);
          if left != 0 && left != right {
            if right == 0 { right := left; }
            md := h(left, right);
          } else {
            hashIdx := SIZE_MAX;
          }
        } else {
          md := block.hashes[hashIdx];
          hashIdx := hashIdx + 1;
        }
      }
    }

    /** `txHashes` may be null, in which case transactions are only counted. */
    method TxHashesR(block: Block, txHashes: array?<Hash>, hashesCount: nat, depth: nat)
      requires block.Sized() && depth <= TreeDepth(block.totalTx)
      requires txHashes != null ==> hashesCount <= txHashes.Length
      requires idx <= hashesCount
      modifies this, txHashes
      ensures var step := DecodeTxs(block, old(hashIdx), old(flagIdx), TreeDepth(block.totalTx) - depth);
              var listed := Fit(step.txs, hashesCount - old(idx));
              && hashIdx == step.hashIdx && flagIdx == step.flagIdx
              && idx == old(idx) + |listed| <= hashesCount
              && (txHashes != null ==> txHashes[..idx] == old(txHashes[..idx]) + listed)
      ensures txHashes != null ==> txHashes[idx..] == old(txHashes[..])[idx..]
      decreases TreeDepth(block.totalTx) - depth
    {
      hide TreeDepth, Block.Flag, Fit, DecodeTxs;
      TxsUnfold(block, hashIdx, flagIdx, TreeDepth(block.totalTx) - depth);
      if flagIdx / 8 < |block.flags| && hashIdx < |block.hashes| {
        var flag := block.Flag(flagIdx);
        flagIdx := flagIdx + 1;
        var rows := CeilLog2(block.totalTx);
        if !flag || depth == rows {
          if flag && idx < hashesCount {
            if txHashes != null { txHashes[idx] := block.hashes[hashIdx]; }
            idx := idx + 1;
          }
          hashIdx := hashIdx + 1;
        } else {
          ghost var k, room := TreeDepth(block.totalTx) - depth, hashesCount - idx;
          ghost var l := DecodeTxs(block, hashIdx, flagIdx, k - 1);
          TxHashesR(block, txHashes, hashesCount, depth + 1);
          TxHashesR(block, txHashes, hashesCount, depth + 1);
          FitConcat(l.txs, DecodeTxs(block, l.hashIdx, l.flagIdx, k - 1).txs, room);
        }
      }
    }
  }

  /** Writes the matched transactions, or only counts them when there is no buffer. */
  method TxHashes(block: Block, txHashes: array?<Hash>, hashesCount: nat) returns (count: nat)
    requires block.Sized() && |MatchedTxs(block)| <= SIZE_MAX
    requires txHashes != null ==> hashesCount <= txHashes.Length
    modifies txHashes
    ensures txHashes == null ==> count == |MatchedTxs(block)|
    ensures txHashes != null ==> count == Min(|MatchedTxs(block)|, hashesCount)
                                 && txHashes[..count] == MatchedTxs(block)[..count]
                                 && txHashes[count..] == old(txHashes[..])[count..]
  {
    var walk := new Walk();
    walk.TxHashesR(block, txHashes, if txHashes != null then hashesCount else SIZE_MAX, 0);
    count := walk.idx;
  }

  // ------------------------------------------------------------- the full tree

  /** One row up: neighbours are hashed together, a last odd one with itself. */
  function NextRow(h: PairHash, row: seq<Hash>): (up: seq<Hash>)
    ensures |up| == (|row| + 1) / 2
  {
    seq((|row| + 1) / 2, i requires 0 <= i < (|row| + 1) / 2 =>
      h(row[2 * i], if 2 * i + 1 < |row| then row[2 * i + 1] else row[2 * i]))
  }

  /** The Merkle root as a block header commits to it. */
  function MerkleRoot(h: PairHash, row: seq<Hash>): Hash
    requires row != []
    decreases |row|
  {
    if |row| == 1 then row[0] else MerkleRoot(h, NextRow(h, row))
  }

  function Width(n: nat, k: nat): nat {
    if k == 0 then n else (Width(n, k - 1) + 1) / 2
  }

  /** The hash of the node at position `pos` of row `k`, counting rows from the leaves. */
  function Node(h: PairHash, leaves: seq<Hash>, k: nat, pos: nat): Hash
    requires pos < Width(|leaves|, k)
    decreases k, 1
  {
    if k == 0 then leaves[pos]
    else var c := Children(h, leaves, k, pos); h(c.0, c.1)
  }

  /** The two hashes that are combined into node `pos` of row `k`. */
  function Children(h: PairHash, leaves: seq<Hash>, k: nat, pos: nat): (Hash, Hash)
    requires k > 0 && pos < Width(|leaves|, k)
    decreases k, 0
  {
    var l := Node(h, leaves, k - 1, 2 * pos);
    (l, if 2 * pos + 1 < Width(|leaves|, k - 1) then Node(h, leaves, k - 1, 2 * pos + 1) else l)
  }

  /** Every pair hashed while building the rows up to `k`. */
  ghost function TreePairs(h: PairHash, leaves: seq<Hash>, k: nat): set<(Hash, Hash)> {
    if k == 0 then {}
    else TreePairs(h, leaves, k - 1) +
         (set pos: nat | pos < Width(|leaves|, k) :: Children(h, leaves, k, pos))
  }

  /** On these pairs the hash is injective and never zero. */
  ghost predicate CollisionFree(h: PairHash, pairs: set<(Hash, Hash)>) {
    && (forall p, q | p in pairs && q in pairs && h(p.0, p.1) == h(q.0, q.1) :: p == q)
    && (forall p | p in pairs :: h(p.0, p.1) != 0)
  }

  lemma {:induction false} TopRowIsSingle(n: nat)
    requires n >= 1
    ensures Width(n, TreeDepth(n)) == 1
  {
    if n > 1 {
      TopRowIsSingle((n + 1) / 2);
      WidthShift(n, TreeDepth((n + 1) / 2));
    }
  }

  lemma LeftChild(n: nat, k: nat, pos: nat)
    requires k > 0 && pos < Width(n, k)
    ensures 2 * pos < Width(n, k - 1)
  {
  }

  lemma {:induction false} WidthShift(n: nat, k: nat)
    ensures Width(n, k + 1) == Width((n + 1) / 2, k)
  {
    if k > 0 { WidthShift(n, k - 1); }
  }

  lemma {:induction false} NodeShift(h: PairHash, leaves: seq<Hash>, k: nat, pos: nat)
    requires pos < Width(|leaves|, k + 1)
    ensures pos < Width(|NextRow(h, leaves)|, k)
    ensures Node(h, leaves, k + 1, pos) == Node(h, NextRow(h, leaves), k, pos)
  {
    WidthShift(|leaves|, k);
    if k == 0 {
      assert Children(h, leaves, 1, pos) ==
             (leaves[2 * pos], if 2 * pos + 1 < |leaves| then leaves[2 * pos + 1] else leaves[2 * pos]);
    } else {
      WidthShift(|leaves|, k - 1);
      NodeShift(h, leaves, k - 1, 2 * pos);
      if 2 * pos + 1 < Width(|leaves|, k) { NodeShift(h, leaves, k - 1, 2 * pos + 1); }
      assert Children(h, leaves, k + 1, pos) == Children(h, NextRow(h, leaves), k, pos);
    }
  }

  /** The positional definition of the tree has the header's Merkle root on top. */
  lemma {:induction false} RootIsTopNode(h: PairHash, leaves: seq<Hash>)
    requires leaves != []
    ensures Width(|leaves|, TreeDepth(|leaves|)) == 1
    ensures Node(h, leaves, TreeDepth(|leaves|), 0) == MerkleRoot(h, leaves)
    decreases |leaves|
  {
    hide Pow2, Children, NextRow, Width;
    TopRowIsSingle(|leaves|);
    if |leaves| > 1 {
      RootIsTopNode(h, NextRow(h, leaves));
      NodeShift(h, leaves, TreeDepth(|leaves|) - 1, 0);
    }
  }

  lemma {:induction false} PairInTree(h: PairHash, leaves: seq<Hash>, j: nat, k: nat, pos: nat)
    requires 0 < j <= k && pos < Width(|leaves|, j)
    ensures Children(h, leaves, j, pos) in TreePairs(h, leaves, k)
  {
    if j < k { PairInTree(h, leaves, j, k - 1, pos); }
  }

  // The leaves below a node form a contiguous span.

  function Lo(k: nat, pos: nat): nat {
    if k == 0 then pos else Lo(k - 1, 2 * pos)
  }

  function Hi(n: nat, k: nat, pos: nat): nat {
    Min(Lo(k, pos + 1), n)
  }

  lemma {:induction false} LoWidth(n: nat, k: nat, pos: nat)
    ensures pos >= Width(n, k) <==> Lo(k, pos) >= n
    ensures Lo(k, pos) <= Lo(k, pos + 1)
    ensures Lo(k, 0) == 0
  {
    if k > 0 {
      LoWidth(n, k - 1, 2 * pos);
      LoWidth(n, k - 1, 2 * pos + 1);
    }
  }

  ghost function Span<T>(s: seq<T>, k: nat, pos: nat): (t: seq<T>)
    requires pos < Width(|s|, k)
    ensures |t| == Hi(|s|, k, pos) - Lo(k, pos)
  {
    LoWidth(|s|, k, pos);
    s[Lo(k, pos)..Hi(|s|, k, pos)]
  }

  lemma SpanSplit<T>(s: seq<T>, k: nat, pos: nat)
    requires k > 0 && pos < Width(|s|, k)
    ensures Span(s, k, pos) == Span(s, k - 1, 2 * pos) +
              (if 2 * pos + 1 < Width(|s|, k - 1) then Span(s, k - 1, 2 * pos + 1) else [])
  {
    LoWidth(|s|, k - 1, 2 * pos);
    LoWidth(|s|, k - 1, 2 * pos + 1);
  }

  lemma SpanOfTop<T>(s: seq<T>)
    requires s != []
    ensures Width(|s|, TreeDepth(|s|)) == 1
    ensures Span(s, TreeDepth(|s|), 0) == s
  {
    TopRowIsSingle(|s|);
    LoWidth(|s|, TreeDepth(|s|), 0);
    LoWidth(|s|, TreeDepth(|s|), 1);
  }

  // ------------------------------------------------------------ BIP37 encoding

  function Matched(leaves: seq<Hash>, m: seq<bool>): seq<Hash>
    requires |leaves| == |m|
  {
    if leaves == [] then []
    else (if m[0] then [leaves[0]] else []) + Matched(leaves[1..], m[1..])
  }

  predicate AnyMatch(m: seq<bool>, k: nat, pos: nat)
    requires pos < Width(|m|, k)
  {
    if k == 0 then m[pos]
    else AnyMatch(m, k - 1, 2 * pos) ||
         (2 * pos + 1 < Width(|m|, k - 1) && AnyMatch(m, k - 1, 2 * pos + 1))
  }

  function EncodeFlags(m: seq<bool>, k: nat, pos: nat): (f: seq<bool>)
    requires pos < Width(|m|, k)
    ensures f != []
  {
    [AnyMatch(m, k, pos)] +
    if k == 0 || !AnyMatch(m, k, pos) then []
    else EncodeFlags(m, k - 1, 2 * pos) +
         (if 2 * pos + 1 < Width(|m|, k - 1) then EncodeFlags(m, k - 1, 2 * pos + 1) else [])
  }

  function EncodeHashes(h: PairHash, leaves: seq<Hash>, m: seq<bool>, k: nat, pos: nat): (e: seq<Hash>)
    requires |leaves| == |m| && pos < Width(|m|, k)
    ensures e != []
  {
    if k == 0 || !AnyMatch(m, k, pos) then [Node(h, leaves, k, pos)]
    else EncodeHashes(h, leaves, m, k - 1, 2 * pos) +
         (if 2 * pos + 1 < Width(|m|, k - 1) then EncodeHashes(h, leaves, m, k - 1, 2 * pos + 1) else [])
  }

  function Bit(bits: seq<bool>, i: nat): bv8 {
    if i < |bits| && bits[i] then 1 else 0
  }

  function PackByte(bits: seq<bool>): bv8 {
    Bit(bits, 0) | (Bit(bits, 1) << 1) | (Bit(bits, 2) << 2) | (Bit(bits, 3) << 3) |
    (Bit(bits, 4) << 4) | (Bit(bits, 5) << 5) | (Bit(bits, 6) << 6) | (Bit(bits, 7) << 7)
  }

  /** Eight flag bits to a byte, least significant first, padded with zeros. */
  function Pack(bits: seq<bool>): (bytes: seq<bv8>)
    ensures |bytes| == (|bits| + 7) / 8
    decreases |bits|
  {
    if bits == [] then []
    else [PackByte(bits)] + Pack(if |bits| <= 8 then [] else bits[8..])
  }

  function Encode(h: PairHash, leaves: seq<Hash>, m: seq<bool>): Block
    requires leaves != [] && |leaves| == |m|
  {
    var d := TreeDepth(|leaves|);
    TopRowIsSingle(|leaves|);
    Block(|leaves|, EncodeHashes(h, leaves, m, d, 0), Pack(EncodeFlags(m, d, 0)))
  }

  lemma PackByteBit(bits: seq<bool>, i: nat)
    requires i < 8 && i < |bits|
    ensures (PackByte(bits) & ((1 as bv8) << i) != 0) == bits[i]
  {
    var b0, b1, b2, b3 := Bit(bits, 0), Bit(bits, 1), Bit(bits, 2), Bit(bits, 3);
    var b4, b5, b6, b7 := Bit(bits, 4), Bit(bits, 5), Bit(bits, 6), Bit(bits, 7);
    ByteBit(b0, b1, b2, b3, b4, b5, b6, b7);
    assert i == 0 || i == 1 || i == 2 || i == 3 || i == 4 || i == 5 || i == 6 || i == 7;
  }

  lemma ByteBit(b0: bv8, b1: bv8, b2: bv8, b3: bv8, b4: bv8, b5: bv8, b6: bv8, b7: bv8)
    requires b0 <= 1 && b1 <= 1 && b2 <= 1 && b3 <= 1 && b4 <= 1 && b5 <= 1 && b6 <= 1 && b7 <= 1
    ensures var x := b0 | (b1 << 1) | (b2 << 2) | (b3 << 3) | (b4 << 4) | (b5 << 5) | (b6 << 6) | (b7 << 7);
            && x & (1 << 0) == b0 && x & (1 << 1) == b1 << 1 && x & (1 << 2) == b2 << 2
            && x & (1 << 3) == b3 << 3 && x & (1 << 4) == b4 << 4 && x & (1 << 5) == b5 << 5
            && x & (1 << 6) == b6 << 6 && x & (1 << 7) == b7 << 7
  {
  }

  lemma {:induction false} PackedFlag(b: Block, bits: seq<bool>, i: nat)
    requires b.flags == Pack(bits) && i < |bits|
    ensures i / 8 < |b.flags| && b.Flag(i) == bits[i]
    decreases i
  {
    hide Pack, PackByte, Block.Flag;
    PackStep(bits);
    if i < 8 {
      FirstFlag(b, bits, i);
    } else {
      var rest := b.(flags := Pack(bits[8..]));
      PackedFlag(rest, bits[8..], i - 8);
      LaterFlag(b, rest, PackByte(bits), i);
    }
  }

  lemma FirstFlag(b: Block, bits: seq<bool>, i: nat)
    requires b.flags != [] && b.flags[0] == PackByte(bits) && i < 8 && i < |bits|
    ensures i / 8 == 0 && b.Flag(i) == bits[i]
  {
    hide PackByte;
    assert i / 8 == 0 && i % 8 == i;
    PackByteBit(bits, i);
  }

  lemma LaterFlag(b: Block, rest: Block, first: bv8, i: nat)
    requires b.flags == [first] + rest.flags && i >= 8 && (i - 8) / 8 < |rest.flags|
    ensures i / 8 < |b.flags| && b.Flag(i) == rest.Flag(i - 8)
  {
    NextByte(i);
    assert b.flags[i / 8] == rest.flags[(i - 8) / 8];
  }

  lemma PackStep(bits: seq<bool>)
    requires bits != []
    ensures Pack(bits) == [PackByte(bits)] + Pack(if |bits| <= 8 then [] else bits[8..])
  {
    hide PackByte;
  }

  lemma NextByte(i: nat)
    requires i >= 8
    ensures (i - 8) / 8 == i / 8 - 1 && (i - 8) % 8 == i % 8
  {
  }

  // -------------------------------------------------------------- completeness

  lemma {:induction false} MatchedConcat(a: seq<Hash>, c: seq<Hash>, ma: seq<bool>, mc: seq<bool>)
    requires |a| == |ma| && |c| == |mc|
    ensures Matched(a + c, ma + mc) == Matched(a, ma) + Matched(c, mc)
  {
    if a == [] {
      assert a + c == c && ma + mc == mc;
    } else {
      assert (a + c)[1..] == a[1..] + c && (ma + mc)[1..] == ma[1..] + mc;
      MatchedConcat(a[1..], c, ma[1..], mc);
      MatchedStep(a + c, ma + mc);
      MatchedStep(a, ma);
      hide Matched;
    }
  }

  lemma MatchedStep(s: seq<Hash>, m: seq<bool>)
    requires |s| == |m| && s != []
    ensures Matched(s, m) == (if m[0] then [s[0]] else []) + Matched(s[1..], m[1..])
  {
  }

  ghost function MatchedBelow(leaves: seq<Hash>, m: seq<bool>, k: nat, pos: nat): seq<Hash>
    requires |leaves| == |m| && pos < Width(|m|, k)
  {
    Matched(Span(leaves, k, pos), Span(m, k, pos))
  }

  lemma MatchedBelowSplit(leaves: seq<Hash>, m: seq<bool>, k: nat, pos: nat)
    requires |leaves| == |m| && k > 0 && pos < Width(|m|, k)
    ensures MatchedBelow(leaves, m, k, pos) == MatchedBelow(leaves, m, k - 1, 2 * pos) +
              (if 2 * pos + 1 < Width(|m|, k - 1) then MatchedBelow(leaves, m, k - 1, 2 * pos + 1) else [])
  {
    SpanSplit(leaves, k, pos);
    SpanSplit(m, k, pos);
    if 2 * pos + 1 < Width(|m|, k - 1) {
      MatchedConcat(Span(leaves, k - 1, 2 * pos), Span(leaves, k - 1, 2 * pos + 1),
                    Span(m, k - 1, 2 * pos), Span(m, k - 1, 2 * pos + 1));
    }
  }

  lemma MatchedLeaf(leaves: seq<Hash>, m: seq<bool>, pos: nat)
    requires |leaves| == |m| && pos < |m|
    ensures MatchedBelow(leaves, m, 0, pos) == if m[pos] then [leaves[pos]] else []
  {
    assert Span(leaves, 0, pos) == [leaves[pos]] && Span(m, 0, pos) == [m[pos]];
    assert Matched([leaves[pos]], [m[pos]]) == if m[pos] then [leaves[pos]] else [];
  }

  lemma {:induction false} NoMatchBelow(leaves: seq<Hash>, m: seq<bool>, k: nat, pos: nat)
    requires |leaves| == |m| && pos < Width(|m|, k) && !AnyMatch(m, k, pos)
    ensures MatchedBelow(leaves, m, k, pos) == []
  {
    if k == 0 {
      MatchedLeaf(leaves, m, pos);
    } else {
      MatchedBelowSplit(leaves, m, k, pos);
      NoMatchBelow(leaves, m, k - 1, 2 * pos);
      if 2 * pos + 1 < Width(|m|, k - 1) { NoMatchBelow(leaves, m, k - 1, 2 * pos + 1); }
    }
  }

  /** Distinct nonzero leaves under a collision-free hash. */
  ghost predicate ProperTree(h: PairHash, leaves: seq<Hash>) {
    && (forall i, j | 0 <= i < j < |leaves| :: leaves[i] != leaves[j])
    && (forall i | 0 <= i < |leaves| :: leaves[i] != 0)
    && CollisionFree(h, TreePairs(h, leaves, TreeDepth(|leaves|)))
  }

  lemma {:induction false} NodesDistinct(h: PairHash, leaves: seq<Hash>, k: nat, p: nat, q: nat)
    requires ProperTree(h, leaves) && k <= TreeDepth(|leaves|)
    requires p < Width(|leaves|, k) && q < Width(|leaves|, k) && p != q
    ensures Node(h, leaves, k, p) != Node(h, leaves, k, q)
  {
    if k > 0 {
      NodesDistinct(h, leaves, k - 1, 2 * p, 2 * q);
      PairInTree(h, leaves, k, TreeDepth(|leaves|), p);
      PairInTree(h, leaves, k, TreeDepth(|leaves|), q);
    }
  }

  lemma NodeNonZero(h: PairHash, leaves: seq<Hash>, k: nat, pos: nat)
    requires ProperTree(h, leaves) && k <= TreeDepth(|leaves|) && pos < Width(|leaves|, k)
    ensures Node(h, leaves, k, pos) != 0
  {
    if k > 0 { PairInTree(h, leaves, k, TreeDepth(|leaves|), pos); }
  }

  ghost function FlagBits(b: Block): (bits: seq<bool>)
    ensures |bits| == 8 * |b.flags|
    ensures forall i | 0 <= i < |bits| :: bits[i] == b.Flag(i)
  {
    seq(8 * |b.flags|, i requires 0 <= i < 8 * |b.flags| => b.Flag(i))
  }

  /** `a` occurs in `s` at index `i`. */
  ghost predicate At<T>(s: seq<T>, i: nat, a: seq<T>) {
    i + |a| <= |s| && s[i..i + |a|] == a
  }

  lemma AtConcat<T>(s: seq<T>, i: nat, a: seq<T>, c: seq<T>)
    requires At(s, i, a + c)
    ensures At(s, i, a) && At(s, i + |a|, c)
  {
    assert a == (a + c)[..|a|] && c == (a + c)[|a|..];
  }

  /** The encoding of node `pos` of row `k` lies in `b` at the given cursors, and after it
      nothing is left when the node is the last of its row. */
  ghost predicate EncodedAt(h: PairHash, leaves: seq<Hash>, m: seq<bool>, b: Block, hashIdx: nat, flagIdx: nat,
                            k: nat, pos: nat)
    requires |leaves| == |m| && pos < Width(|m|, k)
  {
    && At(b.hashes, hashIdx, EncodeHashes(h, leaves, m, k, pos))
    && At(FlagBits(b), flagIdx, EncodeFlags(m, k, pos))
    && (pos + 1 == Width(|m|, k) ==> hashIdx + |EncodeHashes(h, leaves, m, k, pos)| == |b.hashes|)
  }

  lemma EncodedFirst(h: PairHash, leaves: seq<Hash>, m: seq<bool>, b: Block, hashIdx: nat, flagIdx: nat,
                     k: nat, pos: nat)
    requires |leaves| == |m| && pos < Width(|m|, k)
    requires EncodedAt(h, leaves, m, b, hashIdx, flagIdx, k, pos)
    ensures b.Readable(hashIdx, flagIdx) && b.Flag(flagIdx) == AnyMatch(m, k, pos)
    ensures k == 0 || !AnyMatch(m, k, pos) ==> b.hashes[hashIdx] == Node(h, leaves, k, pos)
  {
    var f := EncodeFlags(m, k, pos);
    assert FlagBits(b)[flagIdx] == FlagBits(b)[flagIdx..flagIdx + |f|][0] == f[0];
    var e := EncodeHashes(h, leaves, m, k, pos);
    assert b.hashes[hashIdx] == b.hashes[hashIdx..hashIdx + |e|][0] == e[0];
  }

  /** The last node of the row below belongs to the last node of the row. */
  lemma RightmostChild(n: nat, k: nat, pos: nat)
    requires k > 0 && pos < Width(n, k)
    ensures 2 * pos + 1 >= Width(n, k - 1) ==> pos + 1 == Width(n, k) && 2 * pos + 1 == Width(n, k - 1)
    ensures 2 * pos + 2 == Width(n, k - 1) ==> pos + 1 == Width(n, k)
  {
  }

  /** The encoding of a node with a match below it is a set flag and the encodings of its halves. */
  lemma EncodeSplit(h: PairHash, leaves: seq<Hash>, m: seq<bool>, k: nat, pos: nat)
    requires |leaves| == |m| && k > 0 && pos < Width(|m|, k) && AnyMatch(m, k, pos)
    ensures 2 * pos < Width(|m|, k - 1)
    ensures EncodeHashes(h, leaves, m, k, pos) == EncodeHashes(h, leaves, m, k - 1, 2 * pos) +
              (if 2 * pos + 1 < Width(|m|, k - 1) then EncodeHashes(h, leaves, m, k - 1, 2 * pos + 1) else [])
    ensures EncodeFlags(m, k, pos) == [true] + (EncodeFlags(m, k - 1, 2 * pos) +
              (if 2 * pos + 1 < Width(|m|, k - 1) then EncodeFlags(m, k - 1, 2 * pos + 1) else []))
  {
    hide AnyMatch, Node;
  }

  lemma EncodedChildren(h: PairHash, leaves: seq<Hash>, m: seq<bool>, b: Block, hashIdx: nat, flagIdx: nat,
                        k: nat, pos: nat)
    requires |leaves| == |m| && k > 0 && pos < Width(|m|, k) && AnyMatch(m, k, pos)
    requires EncodedAt(h, leaves, m, b, hashIdx, flagIdx, k, pos)
    ensures EncodedAt(h, leaves, m, b, hashIdx, flagIdx + 1, k - 1, 2 * pos)
    ensures 2 * pos + 1 < Width(|m|, k - 1) ==>
              EncodedAt(h, leaves, m, b, hashIdx + |EncodeHashes(h, leaves, m, k - 1, 2 * pos)|,
                        flagIdx + 1 + |EncodeFlags(m, k - 1, 2 * pos)|, k - 1, 2 * pos + 1)
    ensures 2 * pos + 1 >= Width(|m|, k - 1) ==>
              hashIdx + |EncodeHashes(h, leaves, m, k - 1, 2 * pos)| == |b.hashes|
    ensures |EncodeHashes(h, leaves, m, k, pos)| == |EncodeHashes(h, leaves, m, k - 1, 2 * pos)| +
              (if 2 * pos + 1 < Width(|m|, k - 1) then |EncodeHashes(h, leaves, m, k - 1, 2 * pos + 1)| else 0)
    ensures |EncodeFlags(m, k, pos)| == 1 + |EncodeFlags(m, k - 1, 2 * pos)| +
              (if 2 * pos + 1 < Width(|m|, k - 1) then |EncodeFlags(m, k - 1, 2 * pos + 1)| else 0)
  {
    hide AnyMatch, At, FlagBits, EncodeHashes, EncodeFlags, Node, Width;
    EncodeSplit(h, leaves, m, k, pos);
    RightmostChild(|m|, k, pos);
    var el, fl := EncodeHashes(h, leaves, m, k - 1, 2 * pos), EncodeFlags(m, k - 1, 2 * pos);
    var right := 2 * pos + 1 < Width(|m|, k - 1);
    var er := if right then EncodeHashes(h, leaves, m, k - 1, 2 * pos + 1) else [];
    var fr := if right then EncodeFlags(m, k - 1, 2 * pos + 1) else [];
    AtConcat(b.hashes, hashIdx, el, er);
    AtConcat(FlagBits(b), flagIdx, [true], fl + fr);
    AtConcat(FlagBits(b), flagIdx + 1, fl, fr);
  }

  /** A node whose hash is stored: a leaf, or a subtree without matches. */
  lemma DecodeStoredHash(h: PairHash, leaves: seq<Hash>, m: seq<bool>, b: Block, hashIdx: nat, flagIdx: nat,
                         k: nat, pos: nat)
    requires |leaves| == |m| && pos < Width(|m|, k) && (k == 0 || !AnyMatch(m, k, pos))
    requires EncodedAt(h, leaves, m, b, hashIdx, flagIdx, k, pos)
    ensures |EncodeHashes(h, leaves, m, k, pos)| == |EncodeFlags(m, k, pos)| == 1
    ensures DecodeTxs(b, hashIdx, flagIdx, k) ==
            TxStep(MatchedBelow(leaves, m, k, pos), hashIdx + 1, flagIdx + 1)
    ensures DecodeRoot(h, b, hashIdx, flagIdx, k) ==
            RootStep(Node(h, leaves, k, pos), hashIdx + 1, flagIdx + 1)
  {
    hide EncodedAt, Block.Flag, MatchedBelow;
    EncodedFirst(h, leaves, m, b, hashIdx, flagIdx, k, pos);
    if k == 0 { MatchedLeaf(leaves, m, pos); } else { NoMatchBelow(leaves, m, k, pos); }
  }

  lemma {:induction false} DecodeTxsEncoded(h: PairHash, leaves: seq<Hash>, m: seq<bool>, b: Block,
                                            hashIdx: nat, flagIdx: nat, k: nat, pos: nat)
    requires |leaves| == |m| && pos < Width(|m|, k)
    requires EncodedAt(h, leaves, m, b, hashIdx, flagIdx, k, pos)
    ensures DecodeTxs(b, hashIdx, flagIdx, k) ==
            TxStep(MatchedBelow(leaves, m, k, pos),
                   hashIdx + |EncodeHashes(h, leaves, m, k, pos)|, flagIdx + |EncodeFlags(m, k, pos)|)
    decreases k
  {
    hide AnyMatch, Width, EncodedAt, Block.Flag, MatchedBelow, EncodeHashes, EncodeFlags, DecodeTxs;
    TxsUnfold(b, hashIdx, flagIdx, k);
    if k == 0 || !AnyMatch(m, k, pos) {
      DecodeStoredHash(h, leaves, m, b, hashIdx, flagIdx, k, pos);
    } else {
      EncodedFirst(h, leaves, m, b, hashIdx, flagIdx, k, pos);
      LeftChild(|m|, k, pos);
      var el, fl := EncodeHashes(h, leaves, m, k - 1, 2 * pos), EncodeFlags(m, k - 1, 2 * pos);
      EncodedChildren(h, leaves, m, b, hashIdx, flagIdx, k, pos);
      MatchedBelowSplit(leaves, m, k, pos);
      DecodeTxsEncoded(h, leaves, m, b, hashIdx, flagIdx + 1, k - 1, 2 * pos);
      if 2 * pos + 1 < Width(|m|, k - 1) {
        DecodeTxsEncoded(h, leaves, m, b, hashIdx + |el|, flagIdx + 1 + |fl|, k - 1, 2 * pos + 1);
      } else {
        TxsUnfold(b, hashIdx + |el|, flagIdx + 1 + |fl|, k - 1);
      }
    }
  }

  lemma {:induction false} DecodeRootEncoded(h: PairHash, leaves: seq<Hash>, m: seq<bool>, b: Block,
                                             hashIdx: nat, flagIdx: nat, k: nat, pos: nat)
    requires |leaves| == |m| && pos < Width(|m|, k) && k <= TreeDepth(|leaves|) && ProperTree(h, leaves)
    requires EncodedAt(h, leaves, m, b, hashIdx, flagIdx, k, pos)
    ensures DecodeRoot(h, b, hashIdx, flagIdx, k) ==
            RootStep(Node(h, leaves, k, pos),
                     hashIdx + |EncodeHashes(h, leaves, m, k, pos)|, flagIdx + |EncodeFlags(m, k, pos)|)
    decreases k
  {
    hide AnyMatch, Width, TreeDepth, ProperTree, EncodedAt, Block.Flag, EncodeHashes, EncodeFlags;
    if k == 0 || !AnyMatch(m, k, pos) {
      DecodeStoredHash(h, leaves, m, b, hashIdx, flagIdx, k, pos);
    } else {
      EncodedFirst(h, leaves, m, b, hashIdx, flagIdx, k, pos);
      LeftChild(|m|, k, pos);
      var el, fl := EncodeHashes(h, leaves, m, k - 1, 2 * pos), EncodeFlags(m, k - 1, 2 * pos);
      EncodedChildren(h, leaves, m, b, hashIdx, flagIdx, k, pos);
      DecodeRootEncoded(h, leaves, m, b, hashIdx, flagIdx + 1, k - 1, 2 * pos);
      NodeNonZero(h, leaves, k - 1, 2 * pos);
      if 2 * pos + 1 < Width(|m|, k - 1) {
        DecodeRootEncoded(h, leaves, m, b, hashIdx + |el|, flagIdx + 1 + |fl|, k - 1, 2 * pos + 1);
        NodeNonZero(h, leaves, k - 1, 2 * pos + 1);
        NodesDistinct(h, leaves, k - 1, 2 * pos, 2 * pos + 1);
      }
    }
  }

  /** Decoding a BIP37 encoding restores the header's root and exactly the matched
      transactions, in order. */
  lemma Completeness(h: PairHash, leaves: seq<Hash>, m: seq<bool>)
    requires leaves != [] && |leaves| == |m| && ProperTree(h, leaves)
    ensures DecodedRoot(h, Encode(h, leaves, m)).md == MerkleRoot(h, leaves)
    ensures MatchedTxs(Encode(h, leaves, m)) == Matched(leaves, m)
  {
    hide EncodedAt, ProperTree, Matched, Span, Node, Width, DecodeRoot, DecodeTxs, MerkleRoot;
    var d, b := TreeDepth(|leaves|), Encode(h, leaves, m);
    SpanOfTop(leaves);
    SpanOfTop(m);
    RootIsTopNode(h, leaves);
    EncodedTop(h, leaves, m);
    hide TreeDepth;
    DecodeTxsEncoded(h, leaves, m, b, 0, 0, d, 0);
    DecodeRootEncoded(h, leaves, m, b, 0, 0, d, 0);
  }

  /** A block made by the encoder holds the encoding of the whole tree at its start. */
  lemma EncodedTop(h: PairHash, leaves: seq<Hash>, m: seq<bool>)
    requires leaves != [] && |leaves| == |m| && Width(|leaves|, TreeDepth(|leaves|)) == 1
    ensures EncodedAt(h, leaves, m, Encode(h, leaves, m), 0, 0, TreeDepth(|leaves|), 0)
  {
    hide TreeDepth, Node, AnyMatch, EncodeHashes, EncodeFlags, Block.Flag, Pack, Width;
    var d, b := TreeDepth(|leaves|), Encode(h, leaves, m);
    var f := EncodeFlags(m, d, 0);
    forall i | 0 <= i < |f| ensures FlagBits(b)[i] == f[i] {
      PackedFlag(b, f, i);
    }
  }

  // ----------------------------------------------------------------- soundness

  /** Every pair the root recursion hashes. */
  ghost function DecodePairs(h: PairHash, b: Block, hashIdx: nat, flagIdx: nat, k: nat): set<(Hash, Hash)>
    decreases k
  {
    if !b.Readable(hashIdx, flagIdx) || !b.Flag(flagIdx) || k == 0 then {}
    else
      var l := DecodeRoot(h, b, hashIdx, flagIdx + 1, k - 1);
      var r := DecodeRoot(h, b, l.hashIdx, l.flagIdx, k - 1);
      DecodePairs(h, b, hashIdx, flagIdx + 1, k - 1) + DecodePairs(h, b, l.hashIdx, l.flagIdx, k - 1) +
      {(l.md, if r.md == 0 then l.md else r.md)}
  }

  /** `a` is obtained from `s` by deleting elements. */
  ghost predicate Subsequence<T>(a: seq<T>, s: seq<T>) {
    a == [] || (s != [] && ((a[0] == s[0] && Subsequence(a[1..], s[1..])) || Subsequence(a, s[1..])))
  }

  lemma {:induction false} SubsequencePrefix<T>(a: seq<T>, s: seq<T>, t: seq<T>)
    requires Subsequence(a, s)
    ensures Subsequence(a, s + t)
    decreases |s|
  {
    if a != [] {
      assert (s + t)[1..] == s[1..] + t;
      if a[0] == s[0] && Subsequence(a[1..], s[1..]) {
        SubsequencePrefix(a[1..], s[1..], t);
      } else {
        SubsequencePrefix(a, s[1..], t);
      }
    }
  }

  lemma {:induction false} SubsequenceSuffix<T>(a: seq<T>, s: seq<T>, t: seq<T>)
    requires Subsequence(a, t)
    ensures Subsequence(a, s + t)
  {
    if s == [] {
      assert s + t == t;
    } else {
      assert (s + t)[1..] == s[1..] + t;
      SubsequenceSuffix(a, s[1..], t);
    }
  }

  lemma {:induction false} SubsequenceConcat<T>(a: seq<T>, c: seq<T>, s: seq<T>, t: seq<T>)
    requires Subsequence(a, s) && Subsequence(c, t)
    ensures Subsequence(a + c, s + t)
    decreases |s|
  {
    if a == [] {
      assert a + c == c;
      SubsequenceSuffix(c, s, t);
    } else {
      assert (s + t)[1..] == s[1..] + t && (a + c)[1..] == a[1..] + c;
      if a[0] == s[0] && Subsequence(a[1..], s[1..]) {
        SubsequenceConcat(a[1..], c, s[1..], t);
      } else {
        SubsequenceConcat(a, c, s[1..], t);
      }
    }
  }

  /** The root recursion meets a node whose left half is missing or equal to its right half. */
  ghost predicate GuardHit(h: PairHash, b: Block, hashIdx: nat, flagIdx: nat, k: nat)
    decreases k
  {
    b.Readable(hashIdx, flagIdx) && b.Flag(flagIdx) && k != 0 &&
    var l := DecodeRoot(h, b, hashIdx, flagIdx + 1, k - 1);
    var r := DecodeRoot(h, b, l.hashIdx, l.flagIdx, k - 1);
    || GuardHit(h, b, hashIdx, flagIdx + 1, k - 1)
    || GuardHit(h, b, l.hashIdx, l.flagIdx, k - 1)
    || l.md == 0 || l.md == r.md
  }

  /** The hash cursor ends at the marker exactly when the guard was hit, and within the hashes otherwise. */
  lemma {:induction false} MarkerMeansGuard(h: PairHash, b: Block, hashIdx: nat, flagIdx: nat, k: nat)
    requires b.Sized() && (hashIdx <= |b.hashes| || hashIdx == SIZE_MAX)
    ensures var step := DecodeRoot(h, b, hashIdx, flagIdx, k);
            && (step.hashIdx <= |b.hashes| || step.hashIdx == SIZE_MAX)
            && (step.hashIdx == SIZE_MAX <==> hashIdx == SIZE_MAX || GuardHit(h, b, hashIdx, flagIdx, k))
    decreases k
  {
    hide Block.Flag;
    if b.Readable(hashIdx, flagIdx) && b.Flag(flagIdx) && k != 0 {
      MarkerMeansGuard(h, b, hashIdx, flagIdx + 1, k - 1);
      var l := DecodeRoot(h, b, hashIdx, flagIdx + 1, k - 1);
      MarkerMeansGuard(h, b, l.hashIdx, l.flagIdx, k - 1);
    }
  }

  /** The listing recursion knows no marker: its cursor stays within the hashes. */
  lemma {:induction false} TxsCursorWithin(b: Block, hashIdx: nat, flagIdx: nat, k: nat)
    requires hashIdx <= |b.hashes|
    ensures DecodeTxs(b, hashIdx, flagIdx, k).hashIdx <= |b.hashes|
    decreases k
  {
    hide Block.Flag;
    if b.Readable(hashIdx, flagIdx) && b.Flag(flagIdx) && k != 0 {
      TxsCursorWithin(b, hashIdx, flagIdx + 1, k - 1);
      var l := DecodeTxs(b, hashIdx, flagIdx + 1, k - 1);
      TxsCursorWithin(b, l.hashIdx, l.flagIdx, k - 1);
    }
  }

  /** Without a guard hit, a zero digest means the node was not there at all. */
  lemma ZeroMeansAbsent(h: PairHash, b: Block, hashIdx: nat, flagIdx: nat, k: nat, pairs: set<(Hash, Hash)>)
    requires 0 !in b.hashes && !GuardHit(h, b, hashIdx, flagIdx, k)
    requires CollisionFree(h, pairs) && DecodePairs(h, b, hashIdx, flagIdx, k) <= pairs
    ensures DecodeRoot(h, b, hashIdx, flagIdx, k).md == 0 ==> !b.Readable(hashIdx, flagIdx)
  {
    hide Block.Flag;
  }

  lemma PairsBelow(h: PairHash, b: Block, hashIdx: nat, flagIdx: nat, k: nat, leaves: seq<Hash>,
                   pairs: set<(Hash, Hash)>)
    requires k > 0 && b.Readable(hashIdx, flagIdx) && b.Flag(flagIdx)
    requires TreePairs(h, leaves, k) <= pairs && DecodePairs(h, b, hashIdx, flagIdx, k) <= pairs
    ensures TreePairs(h, leaves, k - 1) <= pairs
    ensures var l := DecodeRoot(h, b, hashIdx, flagIdx + 1, k - 1);
            var r := DecodeRoot(h, b, l.hashIdx, l.flagIdx, k - 1);
            && DecodePairs(h, b, hashIdx, flagIdx + 1, k - 1) <= pairs
            && DecodePairs(h, b, l.hashIdx, l.flagIdx, k - 1) <= pairs
            && (l.md, if r.md == 0 then l.md else r.md) in pairs
  {
    hide DecodeRoot, Block.Flag, Children, Width;
  }

  /** What a rebuilt digest equal to the digest of a real node of the same row guarantees:
      both recursions end at the same cursors and the listed transactions are leaves below
      that node, in order. */
  ghost predicate NodeVouched(h: PairHash, b: Block, hashIdx: nat, flagIdx: nat, k: nat, leaves: seq<Hash>, pos: nat)
    requires pos < Width(|leaves|, k)
  {
    var root, txs := DecodeRoot(h, b, hashIdx, flagIdx, k), DecodeTxs(b, hashIdx, flagIdx, k);
    && txs.hashIdx == root.hashIdx && txs.flagIdx == root.flagIdx
    && Subsequence(txs.txs, Span(leaves, k, pos))
  }

  /** Combining the two halves of a node. */
  lemma VouchInner(h: PairHash, b: Block, hashIdx: nat, flagIdx: nat, k: nat, leaves: seq<Hash>, pos: nat)
    requires k > 0 && pos < Width(|leaves|, k) && 2 * pos < Width(|leaves|, k - 1)
    requires b.Readable(hashIdx, flagIdx) && b.Flag(flagIdx)
    requires NodeVouched(h, b, hashIdx, flagIdx + 1, k - 1, leaves, 2 * pos)
    requires var l := DecodeRoot(h, b, hashIdx, flagIdx + 1, k - 1);
             var r := DecodeRoot(h, b, l.hashIdx, l.flagIdx, k - 1);
             && l.md != 0 && l.md != r.md
             && if r.md == 0 then !b.Readable(l.hashIdx, l.flagIdx)
                else 2 * pos + 1 < Width(|leaves|, k - 1) &&
                     NodeVouched(h, b, l.hashIdx, l.flagIdx, k - 1, leaves, 2 * pos + 1)
    ensures NodeVouched(h, b, hashIdx, flagIdx, k, leaves, pos)
  {
    hide Width, Block.Flag, Span, Subsequence;
    var l := DecodeRoot(h, b, hashIdx, flagIdx + 1, k - 1);
    var txsL, txsR := DecodeTxs(b, hashIdx, flagIdx + 1, k - 1).txs, DecodeTxs(b, l.hashIdx, l.flagIdx, k - 1).txs;
    SpanSplit(leaves, k, pos);
    if b.Readable(l.hashIdx, l.flagIdx) {
      SubsequenceConcat(txsL, txsR, Span(leaves, k - 1, 2 * pos), Span(leaves, k - 1, 2 * pos + 1));
    } else if 2 * pos + 1 < Width(|leaves|, k - 1) {
      SubsequencePrefix(txsL, Span(leaves, k - 1, 2 * pos), Span(leaves, k - 1, 2 * pos + 1));
    }
    assert DecodeTxs(b, hashIdx, flagIdx, k).txs == txsL + txsR;
    assert txsL + [] == txsL && Span(leaves, k - 1, 2 * pos) + [] == Span(leaves, k - 1, 2 * pos);
  }

  lemma VouchStored(h: PairHash, b: Block, hashIdx: nat, flagIdx: nat, k: nat, leaves: seq<Hash>, pos: nat)
    requires pos < Width(|leaves|, k) && b.Readable(hashIdx, flagIdx) && (k == 0 || !b.Flag(flagIdx))
    requires b.hashes[hashIdx] == Node(h, leaves, k, pos)
    ensures NodeVouched(h, b, hashIdx, flagIdx, k, leaves, pos)
  {
    hide Block.Flag;
    if k == 0 {
      assert Span(leaves, 0, pos) == [leaves[pos]];
      assert Subsequence([leaves[pos]][1..], [leaves[pos]][1..]);
    }
  }

  /** A node met without a guard hit: both halves are met without one. */
  lemma HalvesUnguarded(h: PairHash, b: Block, hashIdx: nat, flagIdx: nat, k: nat)
    requires b.Sized() && k > 0 && hashIdx <= |b.hashes| && b.Readable(hashIdx, flagIdx) && b.Flag(flagIdx)
    requires !GuardHit(h, b, hashIdx, flagIdx, k)
    ensures var l := DecodeRoot(h, b, hashIdx, flagIdx + 1, k - 1);
            var r := DecodeRoot(h, b, l.hashIdx, l.flagIdx, k - 1);
            && !GuardHit(h, b, hashIdx, flagIdx + 1, k - 1) && !GuardHit(h, b, l.hashIdx, l.flagIdx, k - 1)
            && l.hashIdx <= |b.hashes| && l.md != 0 && l.md != r.md
            && DecodeRoot(h, b, hashIdx, flagIdx, k).md == h(l.md, if r.md == 0 then l.md else r.md)
  {
    hide Block.Flag;
    MarkerMeansGuard(h, b, hashIdx, flagIdx + 1, k - 1);
  }

  /** A rebuilt digest that equals a real node's vouches for what is listed below it unless the guard was hit. */
  lemma {:induction false} NodeVouches(h: PairHash, b: Block, hashIdx: nat, flagIdx: nat, k: nat,
                                       leaves: seq<Hash>, pos: nat, pairs: set<(Hash, Hash)>)
    requires b.Sized() && 0 !in b.hashes && hashIdx <= |b.hashes| && pos < Width(|leaves|, k)
    requires CollisionFree(h, pairs) && TreePairs(h, leaves, k) <= pairs
    requires DecodePairs(h, b, hashIdx, flagIdx, k) <= pairs
    requires DecodeRoot(h, b, hashIdx, flagIdx, k).md == Node(h, leaves, k, pos) != 0
    requires !GuardHit(h, b, hashIdx, flagIdx, k)
    ensures NodeVouched(h, b, hashIdx, flagIdx, k, leaves, pos)
    decreases k
  {
    hide Width, TreePairs, DecodePairs, Block.Flag, NodeVouched, GuardHit;
    if k == 0 || !b.Flag(flagIdx) {
      VouchStored(h, b, hashIdx, flagIdx, k, leaves, pos);
    } else {
      var l := DecodeRoot(h, b, hashIdx, flagIdx + 1, k - 1);
      var r := DecodeRoot(h, b, l.hashIdx, l.flagIdx, k - 1);
      HalvesUnguarded(h, b, hashIdx, flagIdx, k);
      LeftChild(|leaves|, k, pos);
      PairsBelow(h, b, hashIdx, flagIdx, k, leaves, pairs);
      PairInTree(h, leaves, k, k, pos);
      assert (l.md, if r.md == 0 then l.md else r.md) == Children(h, leaves, k, pos);
      NodeVouches(h, b, hashIdx, flagIdx + 1, k - 1, leaves, 2 * pos, pairs);
      if r.md == 0 {
        ZeroMeansAbsent(h, b, l.hashIdx, l.flagIdx, k - 1, pairs);
      } else {
        NodeVouches(h, b, l.hashIdx, l.flagIdx, k - 1, leaves, 2 * pos + 1, pairs);
      }
      VouchInner(h, b, hashIdx, flagIdx, k, leaves, pos);
    }
  }

  /** For a rebuilt digest that equals a real node's, the guard is the exact condition: with
      a hit the two recursions part, without one they agree and list real leaves. */
  lemma NodeSound(h: PairHash, b: Block, hashIdx: nat, flagIdx: nat, k: nat,
                  leaves: seq<Hash>, pos: nat, pairs: set<(Hash, Hash)>)
    requires b.Sized() && 0 !in b.hashes && hashIdx <= |b.hashes| && pos < Width(|leaves|, k)
    requires CollisionFree(h, pairs) && TreePairs(h, leaves, k) <= pairs
    requires DecodePairs(h, b, hashIdx, flagIdx, k) <= pairs
    requires DecodeRoot(h, b, hashIdx, flagIdx, k).md == Node(h, leaves, k, pos) != 0
    ensures NodeVouched(h, b, hashIdx, flagIdx, k, leaves, pos) <==> !GuardHit(h, b, hashIdx, flagIdx, k)
    ensures DecodeTxs(b, hashIdx, flagIdx, k).hashIdx == DecodeRoot(h, b, hashIdx, flagIdx, k).hashIdx <==>
              !GuardHit(h, b, hashIdx, flagIdx, k)
  {
    hide Width, TreePairs, DecodePairs, GuardHit, DecodeRoot, DecodeTxs, Node, Subsequence, CollisionFree;
    MarkerMeansGuard(h, b, hashIdx, flagIdx, k);
    TxsCursorWithin(b, hashIdx, flagIdx, k);
    if !GuardHit(h, b, hashIdx, flagIdx, k) {
      NodeVouches(h, b, hashIdx, flagIdx, k, leaves, pos, pairs);
    }
  }

  /** A rebuilt root that equals the root of a real tree of the same depth: both recursions
      make the same traversal if and only if no guard was hit, which is if and only if the
      hash cursor is not at the marker, and then the listed transactions are real
      transactions of that tree, each at its own position and in order. */
  lemma Soundness(h: PairHash, b: Block, leaves: seq<Hash>)
    requires b.Sized() && 0 !in b.hashes && leaves != []
    requires TreeDepth(b.totalTx) == TreeDepth(|leaves|)
    requires CollisionFree(h, TreePairs(h, leaves, TreeDepth(|leaves|)) +
                              DecodePairs(h, b, 0, 0, TreeDepth(b.totalTx)))
    requires DecodedRoot(h, b).md == MerkleRoot(h, leaves) != 0
    ensures DecodedRoot(h, b).hashIdx == SIZE_MAX <==> GuardHit(h, b, 0, 0, TreeDepth(b.totalTx))
    ensures var txs := DecodeTxs(b, 0, 0, TreeDepth(b.totalTx));
            && (txs.hashIdx == DecodedRoot(h, b).hashIdx <==> DecodedRoot(h, b).hashIdx != SIZE_MAX)
            && (DecodedRoot(h, b).hashIdx != SIZE_MAX ==> txs.flagIdx == DecodedRoot(h, b).flagIdx)
    ensures DecodedRoot(h, b).hashIdx != SIZE_MAX ==> Subsequence(MatchedTxs(b), leaves)
  {
    var d := TreeDepth(|leaves|);
    RootIsTopNode(h, leaves);
    SpanOfTop(leaves);
    hide Width, TreePairs, DecodePairs, GuardHit, DecodeRoot, DecodeTxs, Node;
    hide Subsequence, CollisionFree, TreeDepth, Span;
    MarkerMeansGuard(h, b, 0, 0, d);
    NodeSound(h, b, 0, 0, d, leaves, 0, TreePairs(h, leaves, d) + DecodePairs(h, b, 0, 0, d));
  }

  // ------------------------------------------- a root match without the condition

  /** A small hash for one example: numbers written side by side. */
  function SideBySide(x: Hash, y: Hash): Hash {
    1000 * x + y
  }

  lemma ExampleFlags(b: Block)
    requires b.flags == [0x75]
    ensures b.Flag(0) && !b.Flag(1) && b.Flag(2) && !b.Flag(3) && b.Flag(4) && b.Flag(5) && b.Flag(6)
  {
    assert b.flags[0] == 0x75;
  }

  lemma ExampleTree()
    ensures TreeDepth(5) == 3
    ensures MerkleRoot(SideBySide, [1, 2, 3, 4, 5]) ==
      SideBySide(SideBySide(SideBySide(1, 2), SideBySide(3, 4)), SideBySide(SideBySide(5, 5), SideBySide(5, 5)))
  {
    var leaves := [1, 2, 3, 4, 5];
    var row1 := [SideBySide(1, 2), SideBySide(3, 4), SideBySide(5, 5)];
    var row2 := [SideBySide(row1[0], row1[1]), SideBySide(row1[2], row1[2])];
    assert NextRow(SideBySide, leaves) == row1;
    assert NextRow(SideBySide, row1) == row2;
    assert NextRow(SideBySide, row2) == [SideBySide(row2[0], row2[1])];
  }

  function ExampleBlock(): Block {
    Block(5, [SideBySide(SideBySide(1, 2), SideBySide(3, 4)), SideBySide(5, 5), 9, 9], [0x75])
  }

  lemma ExampleSteps()
    ensures var b, h := ExampleBlock(), SideBySide;
            && DecodeRoot(h, b, 2, 4, 1) == RootStep(0, SIZE_MAX, 7)
            && DecodeRoot(h, b, 1, 3, 1) == RootStep(b.hashes[1], 2, 4)
            && DecodeRoot(h, b, 1, 2, 2) == RootStep(h(b.hashes[1], b.hashes[1]), SIZE_MAX, 7)
            && DecodeRoot(h, b, 0, 1, 2) == RootStep(b.hashes[0], 1, 2)
  {
    var b, h := ExampleBlock(), SideBySide;
    ExampleFlags(b);
    hide Block.Flag;
    assert DecodeRoot(h, b, 2, 5, 0) == RootStep(9, 3, 6);
    assert DecodeRoot(h, b, 3, 6, 0) == RootStep(9, 4, 7);
  }

  lemma ExampleRoot()
    ensures var b, h := ExampleBlock(), SideBySide;
            DecodedRoot(h, b) == RootStep(MerkleRoot(h, [1, 2, 3, 4, 5]), SIZE_MAX, 7)
  {
    ExampleTree();
    ExampleSteps();
    ExampleFlags(ExampleBlock());
    hide Block.Flag, MerkleRoot, TreeDepth;
  }

  lemma ExampleListed()
    ensures MatchedTxs(ExampleBlock()) == [9, 9]
  {
    hide Block.Flag, TreeDepth, DecodeTxs, SideBySide;
    var b := ExampleBlock();
    ExampleFlags(b);
    ExampleTree();
    TxsUnfold(b, 2, 5, 0); TxsUnfold(b, 3, 6, 0); TxsUnfold(b, 2, 4, 1);
    TxsUnfold(b, 1, 3, 1); TxsUnfold(b, 1, 2, 2); TxsUnfold(b, 0, 1, 2); TxsUnfold(b, 0, 0, 3);
  }

  lemma ExampleChildren()
    ensures Width(5, 1) == 3 && Width(5, 2) == 2 && Width(5, 3) == 1
    ensures var leaves, h := [1, 2, 3, 4, 5], SideBySide;
            && Children(h, leaves, 1, 0) == (1, 2) && Children(h, leaves, 1, 1) == (3, 4)
            && Children(h, leaves, 1, 2) == (5, 5)
            && Children(h, leaves, 2, 0) == (h(1, 2), h(3, 4)) && Children(h, leaves, 2, 1) == (h(5, 5), h(5, 5))
            && Children(h, leaves, 3, 0) == (h(h(1, 2), h(3, 4)), h(h(5, 5), h(5, 5)))
  {
    assert Width(5, 0) == 5;
  }

  /** The pairs hashed in the example, by the tree or by the decoder. */
  ghost predicate ExamplePair(p: (Hash, Hash)) {
    p in [(1, 2), (3, 4), (5, 5), (9, 9), (1002, 3004), (5005, 5005), (1005004, 5010005)]
  }

  lemma ExampleTreePairs(p: (Hash, Hash))
    requires p in TreePairs(SideBySide, [1, 2, 3, 4, 5], 3)
    ensures ExamplePair(p)
  {
    hide Children, Width, TreePairs;
    ExampleChildren();
    var j, pos := TreePairFrom(SideBySide, [1, 2, 3, 4, 5], 3, p);
    assert j == 1 || j == 2 || j == 3;
    assert pos == 0 || pos == 1 || pos == 2;
  }

  /** A pair hashed by the tree is the children of one of its nodes. */
  lemma {:induction false} TreePairFrom(h: PairHash, leaves: seq<Hash>, k: nat, p: (Hash, Hash))
    returns (j: nat, pos: nat)
    requires p in TreePairs(h, leaves, k)
    ensures 0 < j <= k && pos < Width(|leaves|, j) && p == Children(h, leaves, j, pos)
    decreases k
  {
    hide Children, Width;
    if k > 0 && p in TreePairs(h, leaves, k - 1) {
      j, pos := TreePairFrom(h, leaves, k - 1, p);
    } else {
      j := k;
      pos :| pos < Width(|leaves|, k) && p == Children(h, leaves, k, pos);
    }
  }

  lemma ExampleDecodePairs(p: (Hash, Hash))
    requires p in DecodePairs(SideBySide, ExampleBlock(), 0, 0, 3)
    ensures ExamplePair(p)
  {
    var b, h := ExampleBlock(), SideBySide;
    ExampleFlags(b);
    ExampleSteps();
    hide Block.Flag;
    assert DecodeRoot(h, b, 2, 5, 0) == RootStep(9, 3, 6);
    assert DecodeRoot(h, b, 3, 6, 0) == RootStep(9, 4, 7);
    hide DecodeRoot;
    assert DecodePairs(h, b, 2, 4, 1) == {(9, 9)};
    assert DecodePairs(h, b, 1, 2, 2) == {(b.hashes[1], b.hashes[1]), (9, 9)};
  }

  lemma ExampleCollisionFree(pairs: set<(Hash, Hash)>)
    requires forall p | p in pairs :: ExamplePair(p)
    ensures CollisionFree(SideBySide, pairs)
  {
    hide ExamplePair;
    forall p, q | p in pairs && q in pairs && SideBySide(p.0, p.1) == SideBySide(q.0, q.1) ensures p == q {
      ExampleInjective(p, q);
    }
    forall p | p in pairs ensures SideBySide(p.0, p.1) != 0 {
      ExampleInjective(p, p);
    }
  }

  lemma ExampleInjective(p: (Hash, Hash), q: (Hash, Hash))
    requires ExamplePair(p) && ExamplePair(q)
    ensures SideBySide(p.0, p.1) != 0 && (SideBySide(p.0, p.1) == SideBySide(q.0, q.1) ==> p == q)
  {
  }

  /**
  Without the condition a root match vouches for nothing: a collision-free hash, the real
  tree over 1 to 5 and a block of nonzero hashes whose rebuilt root is that tree's, but
  which lists 9 twice.  The equal halves make the inner node zero and set the marker; one
  row up, zero reads as a missing right branch, and the real root comes out.
  */
  lemma RootMatchAlone()
    ensures var b, h, leaves := ExampleBlock(), SideBySide, [1, 2, 3, 4, 5];
            && b.Sized() && 0 !in b.hashes && TreeDepth(b.totalTx) == TreeDepth(|leaves|)
            && CollisionFree(h, TreePairs(h, leaves, TreeDepth(|leaves|)) +
                                DecodePairs(h, b, 0, 0, TreeDepth(b.totalTx)))
            && DecodedRoot(h, b).md == MerkleRoot(h, leaves) != 0
            && MatchedTxs(b) == [9, 9] && 9 !in leaves && !Subsequence(MatchedTxs(b), leaves)
            && DecodedRoot(h, b).hashIdx == SIZE_MAX
  {
    ExampleTree();
    ExampleRoot();
    ExampleListed();
    hide TreePairs, DecodePairs, MerkleRoot, DecodedRoot, MatchedTxs;
    hide TreeDepth, Subsequence, ExamplePair, CollisionFree;
    var pairs := TreePairs(SideBySide, [1, 2, 3, 4, 5], 3) + DecodePairs(SideBySide, ExampleBlock(), 0, 0, 3);
    forall p | p in pairs ensures ExamplePair(p) {
      if p in TreePairs(SideBySide, [1, 2, 3, 4, 5], 3) {
        ExampleTreePairs(p);
      } else {
        ExampleDecodePairs(p);
      }
    }
    ExampleCollisionFree(pairs);
    NotListed([9, 9], [1, 2, 3, 4, 5]);
  }

  lemma {:induction false} NotListed(a: seq<Hash>, s: seq<Hash>)
    requires a != [] && a[0] !in s
    ensures !Subsequence(a, s)
  {
    if s != [] { NotListed(a, s[1..]); }
  }
}
