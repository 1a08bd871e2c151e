/**
The block-chain state machine of the peer manager.

Relayed blocks extend the main chain, repeat a known block, become orphans, are
refused, or start or lengthen a fork that may overtake the main chain.  The
manager keeps every connected block in a hash-indexed set seeded with the
checkpoint table.

Heights are not carried by most block headers: the manager assigns them from the
parent.  That a header hash fixes its parent, and that the checkpoint table
agrees with the heights this gives, is expressed by a function `th` from hashes
to heights with `th(b.hash) == th(b.prev) + 1` for every relayed block.
*/
module BlockChain {
  import opened Collections

  type Hash = nat
  const ZERO: Hash := 0

  const BLOCK_DIFFICULTY_INTERVAL: nat := 2016
  const DGW_BLOCK_DIFFICULTY_INTERVAL: nat := 1
  const DGW_START_BLOCK: nat := 338778
  const BLOCK_UNKNOWN_HEIGHT: nat := 0x7FFF_FFFF
  const WEEK: nat := 7 * 24 * 60 * 60

  /** The header fields the chain logic uses; `txs` are the matched transactions. */
  datatype Block = Block(hash: Hash, prev: Hash, height: nat, timestamp: nat, txs: seq<Hash>)

  datatype Checkpoint = Checkpoint(height: nat, hash: Hash, timestamp: nat)

  /** What the manager tells the wallet. */
  datatype WalletCall =
    | SetTxUnconfirmedAfter(height: nat)
    | UpdateTransactions(txs: seq<Hash>, height: nat)

  /** Everything a relay depends on besides the chain: the peer, clocks, the filter and
      the difficulty verdict. */
  datatype Env = Env(peerLastBlock: nat,
                     filterPending: bool,
                     headerIgnored: Block -> bool,
                     stale: Block -> bool,
                     difficultyOk: Block -> bool)

  type BlockSet = map<Hash, Block>
  type Table = map<nat, Block>

  // --------------------------------------------------------------- invariants

  ghost predicate Linked(th: Hash -> int, b: Block) {
    b.hash != ZERO && th(b.hash) == th(b.prev) + 1
  }

  /** The checkpoint table, indexed by height: consistent heights, no two adjacent
      checkpoints, and `top` is the highest. */
  ghost predicate TableOk(th: Hash -> int, cps: Table, top: nat) {
    && top in cps
    && forall h | h in cps ::
         && cps[h].height == h <= top
         && cps[h].hash != ZERO && cps[h].prev == ZERO
         && th(cps[h].hash) == h
         && h + 1 !in cps
  }

  ghost predicate ParentStored(blocks: BlockSet, b: Block) {
    b.prev in blocks && blocks[b.prev].height + 1 == b.height
  }

  /** What holds of one stored block when the main chain has height `tip`. */
  ghost predicate BlockOk(th: Hash -> int, cps: Table, start: nat, tip: nat, blocks: BlockSet, b: Block) {
    && b.hash != ZERO && b.height == th(b.hash)
    // a stored block at a checkpoint height is that checkpoint
    && (b.height in cps ==> b.hash == cps[b.height].hash)
    // nothing but bare checkpoints up to the starting one
    && (b.height <= start ==> b.height in cps && b.prev == ZERO)
    // above it, only checkpoints the main chain has not reached lack their parent
    && (b.height > start && (b.height !in cps || b.height <= tip) ==> ParentStored(blocks, b))
    && (b.height > tip ==> b.height in cps && b.prev == ZERO)
  }

  ghost predicate Inv(th: Hash -> int, cps: Table, top: nat, start: nat, blocks: BlockSet, last: Block) {
    && TableOk(th, cps, top)
    && start in cps && DGW_START_BLOCK <= start <= last.height
    && (forall h | h in cps :: cps[h].hash in blocks)
    && (forall x | x in blocks :: blocks[x].hash == x && BlockOk(th, cps, start, last.height, blocks, blocks[x]))
    && last.hash in blocks && blocks[last.hash] == last
    // below the last checkpoint there are no forks
    && (last.height < top ==> forall x | x in blocks && blocks[x].height == last.height :: x == last.hash)
  }

  ghost predicate OrphansOk(th: Hash -> int, orphans: BlockSet) {
    forall p | p in orphans :: orphans[p].prev == p && Linked(th, orphans[p])
  }

  /** The hash reached from `x` by following `n` parent links. */
  ghost function Up(blocks: BlockSet, x: Hash, n: nat): Hash
    decreases n
  {
    if n == 0 then x else if x in blocks then Up(blocks, blocks[x].prev, n - 1) else x
  }

  /** The ancestor of stored block `b` at height `h`. */
  ghost function AncestorAt(blocks: BlockSet, b: Block, h: nat): Hash
    requires h <= b.height
  {
    Up(blocks, b.hash, b.height - h)
  }

  /** The calls that give the transactions of a branch their heights, from the tip down to
      the block just above height `join`. */
  ghost function BranchCalls(blocks: BlockSet, b: Block, join: nat): seq<WalletCall>
    decreases b.height
  {
    if b.height <= join then []
    else (if b.txs != [] then [UpdateTransactions(b.txs, b.height)] else []) +
         (if b.prev in blocks && blocks[b.prev].height < b.height then BranchCalls(blocks, blocks[b.prev], join)
          else [])
  }

  /** `join` is the highest block that is an ancestor of both `b` and `c`. */
  ghost predicate HighestCommonAncestor(blocks: BlockSet, b: Block, c: Block, join: Block) {
    && join.height <= b.height && join.height <= c.height
    && AncestorAt(blocks, b, join.height) == join.hash == AncestorAt(blocks, c, join.height)
    && forall h: nat | join.height < h <= b.height && h <= c.height ::
         AncestorAt(blocks, b, h) != AncestorAt(blocks, c, h)
  }

  // ------------------------------------------------- consequences of the invariant

  lemma {:induction false} UpStep(blocks: BlockSet, x: Hash, n: nat)
    requires Up(blocks, x, n) in blocks
    ensures Up(blocks, x, n + 1) == blocks[Up(blocks, x, n)].prev
    decreases n
  {
    if n > 0 && x in blocks { UpStep(blocks, blocks[x].prev, n - 1); }
  }

  lemma ParentBelowTip(th: Hash -> int, cps: Table, top: nat, start: nat, blocks: BlockSet, last: Block, b: Block)
    requires Inv(th, cps, top, start, blocks, last)
    requires b.hash in blocks && blocks[b.hash] == b && start < b.height <= last.height
    ensures ParentStored(blocks, b) && blocks[b.prev].hash == b.prev
  {
    assert BlockOk(th, cps, start, last.height, blocks, blocks[b.hash]);
  }

  /** Every ancestor at or above the starting checkpoint is stored at its height. */
  lemma {:induction false} AncestorsStored(th: Hash -> int, cps: Table, top: nat, start: nat, blocks: BlockSet,
                                           last: Block, b: Block, n: nat)
    requires Inv(th, cps, top, start, blocks, last)
    requires b.hash in blocks && blocks[b.hash] == b && start + n <= b.height <= last.height
    ensures Up(blocks, b.hash, n) in blocks && blocks[Up(blocks, b.hash, n)].height == b.height - n
    decreases n
  {
    hide Inv;
    if n > 0 {
      ParentBelowTip(th, cps, top, start, blocks, last, b);
      AncestorsStored(th, cps, top, start, blocks, last, blocks[b.prev], n - 1);
    }
  }

  /** A stored block at a checkpoint height is that checkpoint. */
  lemma StoredCheckpoint(th: Hash -> int, cps: Table, top: nat, start: nat, blocks: BlockSet, last: Block, x: Hash)
    requires Inv(th, cps, top, start, blocks, last) && x in blocks && blocks[x].height in cps
    ensures x == cps[blocks[x].height].hash
  {
    assert BlockOk(th, cps, start, last.height, blocks, blocks[x]);
  }

  lemma StoredBelowTip(th: Hash -> int, cps: Table, top: nat, start: nat, blocks: BlockSet, last: Block, x: Hash)
    requires Inv(th, cps, top, start, blocks, last) && x in blocks && last.height >= top
    ensures blocks[x].height <= last.height && blocks[x].hash == x
  {
    assert BlockOk(th, cps, start, last.height, blocks, blocks[x]);
  }

  /** Every chain that has reached the last checkpoint passes through it. */
  lemma EveryChainPassesLastCheckpoint(th: Hash -> int, cps: Table, top: nat, start: nat, blocks: BlockSet,
                                       last: Block, x: Hash)
    requires Inv(th, cps, top, start, blocks, last) && last.height >= top
    requires x in blocks && blocks[x].height >= top
    ensures AncestorAt(blocks, blocks[x], top) == cps[top].hash
  {
    hide Up, BlockOk;
    assert TableOk(th, cps, top) && start <= top;
    StoredBelowTip(th, cps, top, start, blocks, last, x);
    AncestorsStored(th, cps, top, start, blocks, last, blocks[x], blocks[x].height - top);
    StoredCheckpoint(th, cps, top, start, blocks, last, AncestorAt(blocks, blocks[x], top));
  }

  lemma TipFacts(th: Hash -> int, cps: Table, top: nat, start: nat, blocks: BlockSet, last: Block, b: Block)
    requires Inv(th, cps, top, start, blocks, last) && Linked(th, b) && ParentStored(blocks, b)
    ensures last.hash in blocks && blocks[last.hash] == last
    ensures b.hash == last.hash ==> b.height == last.height
    ensures b.prev == last.hash ==> b.height == last.height + 1
  {
    assert BlockOk(th, cps, start, last.height, blocks, blocks[b.prev]);
    assert BlockOk(th, cps, start, last.height, blocks, blocks[last.hash]);
  }

  lemma TipIsStored(th: Hash -> int, cps: Table, top: nat, start: nat, blocks: BlockSet, last: Block)
    requires Inv(th, cps, top, start, blocks, last)
    ensures last.hash in blocks && blocks[last.hash] == last && start <= top
  {
  }

  lemma UpZero(blocks: BlockSet, x: Hash)
    ensures Up(blocks, x, 0) == x
  {
  }

  lemma AncestorStep(blocks: BlockSet, tip: Block, b: Block)
    requires b.hash in blocks && blocks[b.hash] == b && 0 < b.height <= tip.height
    requires b.hash == AncestorAt(blocks, tip, b.height)
    ensures b.prev == AncestorAt(blocks, tip, b.height - 1)
  {
    UpStep(blocks, tip.hash, tip.height - b.height);
  }

  // ------------------------------------------------------- walking back to a join

  /** The two cursors of the walk: `b` on the chain of `tip`, `c` on the chain of `last`, with
      no common block above them. */
  ghost predicate Walking(th: Hash -> int, cps: Table, top: nat, start: nat, blocks: BlockSet,
                          tip: Block, last: Block, b: Block, c: Block) {
    && Inv(th, cps, top, start, blocks, tip) && last.height >= top && tip.height == last.height + 1
    && b.hash in blocks && blocks[b.hash] == b && c.hash in blocks && blocks[c.hash] == c
    && last.hash in blocks && blocks[last.hash] == last
    && top <= c.height <= last.height && (b.height == c.height || (b == tip && c == last))
    && b.hash == AncestorAt(blocks, tip, b.height) && c.hash == AncestorAt(blocks, last, c.height)
    && forall h: nat | c.height < h <= last.height :: AncestorAt(blocks, tip, h) != AncestorAt(blocks, last, h)
  }

  lemma WalkStart(th: Hash -> int, cps: Table, top: nat, start: nat, blocks: BlockSet, tip: Block, last: Block)
    requires Inv(th, cps, top, start, blocks, tip) && last.height >= top && tip.height == last.height + 1
    requires last.hash in blocks && blocks[last.hash] == last
    ensures Walking(th, cps, top, start, blocks, tip, last, tip, last)
  {
  }

  lemma AboveTheCheckpoint(th: Hash -> int, cps: Table, top: nat, start: nat, blocks: BlockSet,
                           tip: Block, last: Block, b: Block, c: Block)
    requires Walking(th, cps, top, start, blocks, tip, last, b, c) && b.hash != c.hash
    ensures start <= top < b.height <= tip.height
  {
    hide Inv, AncestorAt;
    TipIsStored(th, cps, top, start, blocks, tip);
    EveryChainPassesLastCheckpoint(th, cps, top, start, blocks, tip, tip.hash);
    EveryChainPassesLastCheckpoint(th, cps, top, start, blocks, tip, last.hash);
  }

  /** While the cursors differ both can step back, without passing the last checkpoint. */
  lemma WalkStep(th: Hash -> int, cps: Table, top: nat, start: nat, blocks: BlockSet,
                 tip: Block, last: Block, b: Block, c: Block)
    requires Walking(th, cps, top, start, blocks, tip, last, b, c) && b.hash != c.hash
    ensures b.prev in blocks && blocks[b.prev].height == b.height - 1
    ensures b.height == c.height ==>
              && c.prev in blocks && blocks[c.prev].height == c.height - 1
              && Walking(th, cps, top, start, blocks, tip, last, blocks[b.prev], blocks[c.prev])
    ensures b.height != c.height ==> Walking(th, cps, top, start, blocks, tip, last, blocks[b.prev], c)
  {
    hide Inv, AncestorAt;
    AboveTheCheckpoint(th, cps, top, start, blocks, tip, last, b, c);
    ParentBelowTip(th, cps, top, start, blocks, tip, b);
    AncestorStep(blocks, tip, b);
    if b.height == c.height {
      ParentBelowTip(th, cps, top, start, blocks, tip, c);
      AncestorStep(blocks, last, c);
    }
  }

  /** Until the main chain reaches the last checkpoint, a block above that checkpoint can only
      have the bare checkpoint as its parent. */
  lemma BareCheckpointParent(th: Hash -> int, cps: Table, top: nat, start: nat, blocks: BlockSet, last: Block, b: Block)
    requires Inv(th, cps, top, start, blocks, last) && last.height < top < b.height
    requires ParentStored(blocks, b)
    ensures ZERO !in blocks && last.height < blocks[b.prev].height && blocks[b.prev].prev == ZERO
    ensures blocks[b.prev].hash == b.prev != last.hash && last.hash in blocks && blocks[last.hash] == last
  {
    assert BlockOk(th, cps, start, last.height, blocks, blocks[b.prev]);
  }

  // -------------------------------------------------- how stored blocks may change

  /** Storing a block of unchanged or new hash keeps what holds of the others. */
  lemma BlockOkKept(th: Hash -> int, cps: Table, start: nat, tip: nat, tip': nat, blocks: BlockSet, n: Block, b: Block)
    requires BlockOk(th, cps, start, tip, blocks, b) && tip <= tip'
    requires n.hash in blocks ==> blocks[n.hash].height == n.height
    requires tip < b.height ==> tip' < b.height
    ensures BlockOk(th, cps, start, tip', blocks[n.hash := n], b)
  {
  }

  /** Storing the next block of the main chain. */
  lemma ExtendKeepsInv(th: Hash -> int, cps: Table, top: nat, start: nat, blocks: BlockSet, last: Block, b: Block)
    requires Inv(th, cps, top, start, blocks, last) && Linked(th, b)
    requires b.prev == last.hash && b.height == last.height + 1
    requires b.height in cps ==> cps[b.height].hash == b.hash
    ensures Inv(th, cps, top, start, blocks[b.hash := b], b)
  {
    var blocks' := blocks[b.hash := b];
    forall x | x in blocks'
      ensures blocks'[x].hash == x && BlockOk(th, cps, start, b.height, blocks', blocks'[x])
    {
      if x != b.hash { BlockOkKept(th, cps, start, last.height, b.height, blocks, b, blocks[x]); }
    }
  }

  /** A second copy of a stored block on a stored parent that is not the tip lies within the
      main chain's heights. */
  lemma SecondCopyHeight(th: Hash -> int, cps: Table, top: nat, start: nat, blocks: BlockSet, last: Block, b: Block)
    requires Inv(th, cps, top, start, blocks, last) && Linked(th, b)
    requires b.hash in blocks && b.prev != last.hash && ParentStored(blocks, b)
    ensures start < b.height <= last.height
  {
    assert BlockOk(th, cps, start, last.height, blocks, blocks[b.hash]);
    assert BlockOk(th, cps, start, last.height, blocks, blocks[b.prev]);
  }

  /** Replacing a stored block by such a copy. */
  lemma ReplaceKeepsInv(th: Hash -> int, cps: Table, top: nat, start: nat, blocks: BlockSet, last: Block, b: Block)
    requires Inv(th, cps, top, start, blocks, last) && Linked(th, b)
    requires b.hash in blocks && ParentStored(blocks, b) && start < b.height <= last.height
    requires b.height in cps ==> cps[b.height].hash == b.hash
    ensures Inv(th, cps, top, start, blocks[b.hash := b], if b.hash == last.hash then b else last)
  {
    assert BlockOk(th, cps, start, last.height, blocks, blocks[b.hash]);
    assert BlockOk(th, cps, start, last.height, blocks, blocks[b.prev]);
    var blocks' := blocks[b.hash := b];
    forall x | x in blocks'
      ensures blocks'[x].hash == x && BlockOk(th, cps, start, last.height, blocks', blocks'[x])
    {
      if x != b.hash { BlockOkKept(th, cps, start, last.height, last.height, blocks, b, blocks[x]); }
    }
  }

  /** Storing a block on a fork above the last checkpoint; the longer branch is the main chain. */
  lemma ForkKeepsInv(th: Hash -> int, cps: Table, top: nat, start: nat, blocks: BlockSet, last: Block, b: Block)
    requires Inv(th, cps, top, start, blocks, last) && Linked(th, b) && last.height >= top
    requires b.hash !in blocks && ParentStored(blocks, b) && b.height > top
    ensures b.height <= last.height + 1
    ensures Inv(th, cps, top, start, blocks[b.hash := b], if b.height > last.height then b else last)
  {
    assert BlockOk(th, cps, start, last.height, blocks, blocks[b.prev]);
    var blocks' := blocks[b.hash := b];
    var last' := if b.height > last.height then b else last;
    forall x | x in blocks'
      ensures blocks'[x].hash == x && BlockOk(th, cps, start, last'.height, blocks', blocks'[x])
    {
      if x != b.hash { BlockOkKept(th, cps, start, last.height, last'.height, blocks, b, blocks[x]); }
    }
  }

  // ------------------------------------------------------------- the state machine

  function Get(blocks: BlockSet, x: Hash): (b: Option<Block>)
    ensures b.Some? <==> x in blocks
    ensures b.Some? ==> b.value == blocks[x]
  {
    if x in blocks then Some(blocks[x]) else None
  }

  predicate MatchesCheckpoint(cps: Table, b: Block) {
    b.height in cps ==> cps[b.height].hash == b.hash
  }

  /** Below the Dark Gravity Wave start a difficulty transition needs 2016 stored ancestors. */
  predicate OldTransition(b: Block) {
    b.height < DGW_START_BLOCK && b.height % BLOCK_DIFFICULTY_INTERVAL == 0
  }

  /** The ways a relayed block can be taken. */
  datatype Verdict = Ignored | Orphaned | Stale | Invalid | Extends | Existing | Deferred | OldFork | Fork

  /** `b` already carries the height its parent gives it, if the parent is known. */
  ghost function Judge(cps: Table, top: nat, blocks: BlockSet, last: Block, env: Env, b: Block): Verdict {
    if env.headerIgnored(b) || env.filterPending then Ignored
    else if b.prev !in blocks then (if env.stale(b) then Stale else Orphaned)
    else if OldTransition(b) || !env.difficultyOk(b) || !MatchesCheckpoint(cps, b) then Invalid
    else if b.prev == last.hash then Extends
    else if b.hash in blocks then Existing
    else if last.height < env.peerLastBlock && b.height > last.height + 1 then Deferred
    else if b.height <= top then OldFork
    else Fork
  }

  /** The block with the height its stored parent gives it. */
  function Placed(blocks: BlockSet, b: Block): Block {
    if b.prev in blocks then b.(height := blocks[b.prev].height + 1) else b
  }

  ghost predicate TableSorted(th: Hash -> int, table: seq<Checkpoint>) {
    && table != []
    && (forall i | 0 <= i < |table| :: table[i].hash != ZERO && th(table[i].hash) == table[i].height)
    && (forall i, j | 0 <= i < j < |table| :: table[i].height + 1 < table[j].height)
  }

  /** The checkpoint a new manager starts from: the last one more than a week older than the
      earliest key, or else the first. */
  function StartIndex(table: seq<Checkpoint>, earliestKeyTime: nat, n: nat): (i: nat)
    requires 0 < n <= |table|
    ensures i < n
  {
    if n == 1 || table[n - 1].timestamp + WEEK < earliestKeyTime then n - 1
    else StartIndex(table, earliestKeyTime, n - 1)
  }

  function CheckpointBlock(c: Checkpoint): Block {
    Block(c.hash, ZERO, c.height, c.timestamp, [])
  }

  /** The first `n` checkpoints indexed by height. */
  function ByHeight(table: seq<Checkpoint>, n: nat): Table
    requires n <= |table|
  {
    if n == 0 then map[] else ByHeight(table, n - 1)[table[n - 1].height := CheckpointBlock(table[n - 1])]
  }

  /** The first `n` checkpoints indexed by hash. */
  function ByHash(table: seq<Checkpoint>, n: nat): BlockSet
    requires n <= |table|
  {
    if n == 0 then map[] else ByHash(table, n - 1)[table[n - 1].hash := CheckpointBlock(table[n - 1])]
  }

  method LoadCheckpoints(table: seq<Checkpoint>, earliestKeyTime: nat)
    returns (cps: Table, blocks: BlockSet, last: Block)
    requires table != []
    ensures cps == ByHeight(table, |table|) && blocks == ByHash(table, |table|)
    ensures last == CheckpointBlock(table[StartIndex(table, earliestKeyTime, |table|)])
  {
    cps, blocks, last := map[], map[], CheckpointBlock(table[0]);
    for i := 0 to |table|
      invariant i > 0 ==> last == CheckpointBlock(table[StartIndex(table, earliestKeyTime, i)])
      invariant cps == ByHeight(table, i) && blocks == ByHash(table, i)
    {
      var block := CheckpointBlock(table[i]);
      cps := cps[block.height := block];
      blocks := blocks[block.hash := block];
      if i == 0 || block.timestamp + WEEK < earliestKeyTime {
        last := block;
      }
    }
  }

  lemma {:induction false} ByHeightHas(th: Hash -> int, table: seq<Checkpoint>, n: nat, h: nat)
    requires TableSorted(th, table) && n <= |table|
    ensures (h in ByHeight(table, n)) == (exists j :: 0 <= j < n && table[j].height == h)
    ensures h in ByHeight(table, n) ==>
              var b := ByHeight(table, n)[h];
              b == CheckpointBlock(Checkpoint(h, b.hash, b.timestamp)) &&
              exists j :: 0 <= j < n && table[j] == Checkpoint(h, b.hash, b.timestamp)
    decreases n
  {
    if n > 0 { ByHeightHas(th, table, n - 1, h); }
  }

  lemma {:induction false} ByHashHas(th: Hash -> int, table: seq<Checkpoint>, n: nat, x: Hash)
    requires TableSorted(th, table) && n <= |table|
    ensures (x in ByHash(table, n)) == (exists j :: 0 <= j < n && table[j].hash == x)
    ensures x in ByHash(table, n) ==>
              var b := ByHash(table, n)[x];
              b == CheckpointBlock(Checkpoint(b.height, x, b.timestamp)) &&
              exists j :: 0 <= j < n && table[j] == Checkpoint(b.height, x, b.timestamp)
    decreases n
  {
    if n > 0 { ByHashHas(th, table, n - 1, x); }
  }

  /** The checkpoints alone satisfy the invariant. */
  lemma LoadedInv(th: Hash -> int, table: seq<Checkpoint>, s: nat)
    requires TableSorted(th, table) && s < |table| && table[s].height >= DGW_START_BLOCK
    ensures Inv(th, ByHeight(table, |table|), table[|table| - 1].height, table[s].height,
                ByHash(table, |table|), CheckpointBlock(table[s]))
  {
    hide ByHeight, ByHash;
    var n, start, cps, blocks := |table|, table[s].height, ByHeight(table, |table|), ByHash(table, |table|);
    forall h: nat
      ensures h in cps ==> cps[h].height == h <= table[n - 1].height && cps[h].prev == ZERO && cps[h].hash != ZERO
                           && th(cps[h].hash) == h && h + 1 !in cps && cps[h].hash in blocks
    {
      ByHeightHas(th, table, n, h);
      ByHeightHas(th, table, n, h + 1);
      if h in cps { ByHashHas(th, table, n, cps[h].hash); }
    }
    forall x | x in blocks
      ensures blocks[x].hash == x && BlockOk(th, cps, start, start, blocks, blocks[x])
      ensures blocks[x].height == start ==> x == table[s].hash
    {
      ByHashHas(th, table, n, x);
      ByHeightHas(th, table, n, blocks[x].height);
    }
    ByHeightHas(th, table, n, table[n - 1].height);
    ByHeightHas(th, table, n, start);
    ByHashHas(th, table, n, table[s].hash);
  }

  function Confirm(b: Block): seq<WalletCall> {
    if b.txs != [] then [UpdateTransactions(b.txs, b.height)] else []
  }

  lemma BranchCallsStep(blocks: BlockSet, b: Block, join: nat)
    ensures b.height <= join ==> BranchCalls(blocks, b, join) == []
    ensures b.height > join && ParentStored(blocks, b) ==>
              BranchCalls(blocks, b, join) == Confirm(b) + BranchCalls(blocks, blocks[b.prev], join)
  {
  }

  /** What one relayed block, already placed, does to the stored blocks, the tip and the wallet. */
  ghost predicate Taken(v: Verdict, top: nat, b: Block, blocks: BlockSet, last: Block, calls: seq<WalletCall>,
                        blocks': BlockSet, last': Block, calls': seq<WalletCall>) {
    match v
    case Extends => blocks' == blocks[b.hash := b] && last' == b && calls' == calls + Confirm(b)
    case Existing =>
      && b.height <= last.height && blocks' == blocks[b.hash := b]
      && last' == (if b.hash == last.hash then b else last)
      && calls' == calls + (if AncestorAt(blocks, last, b.height) == b.hash then Confirm(b) else [])
    case Fork =>
      && blocks' == blocks[b.hash := b]
      && if b.height > last.height then
           && last' == b
           && exists join: Block ::
                && HighestCommonAncestor(blocks', b, last, join) && join.height >= top
                && calls' == calls + [SetTxUnconfirmedAfter(join.height)] + BranchCalls(blocks', b, join.height)
         else last' == last && calls' == calls
    case _ => blocks' == blocks && last' == last && calls' == calls
  }

  /** All of the manager's state that relaying a block reads or changes. */
  datatype View = View(blocks: BlockSet, last: Block, calls: seq<WalletCall>, orphans: BlockSet,
                       lastOrphan: Option<Block>, estimatedHeight: nat)

  /** The orphans once a stored block has been replaced by `b`: the replaced one is no orphan any more. */
  function OrphansAfter(orphans: BlockSet, replaced: Block, b: Block): BlockSet {
    if replaced != b && Get(orphans, replaced.prev) == Some(replaced) then orphans - {replaced.prev} else orphans
  }

  function LastOrphanAfter(lastOrphan: Option<Block>, replaced: Block, b: Block): Option<Block> {
    if replaced != b && lastOrphan == Some(replaced) then None else lastOrphan
  }

  /** What one relayed block, already placed, does to the orphans: it joins them, replaces one or leaves them. */
  ghost predicate OrphansTaken(v: Verdict, b: Block, before: View, after: View) {
    match v
    case Orphaned => after.orphans == before.orphans[b.prev := b] && after.lastOrphan == Some(b)
    case Deferred => after.orphans == before.orphans[b.prev := b] && after.lastOrphan == Some(b)
    case Existing =>
      && b.hash in before.blocks
      && after.orphans == OrphansAfter(before.orphans, before.blocks[b.hash], b)
      && after.lastOrphan == LastOrphanAfter(before.lastOrphan, before.blocks[b.hash], b)
    case _ => after.orphans == before.orphans && after.lastOrphan == before.lastOrphan
  }

  /** One block relayed: the state before and after it, and what is left of the block. */
  datatype Step = Step(env: Env, relayed: Block, before: View, after: View, left: Option<Block>) {
    ghost function Verdict(cps: Table, top: nat): Verdict {
      Judge(cps, top, before.blocks, before.last, env, Placed(before.blocks, relayed))
    }

    /** The whole effect of the block. */
    ghost predicate Done(cps: Table, top: nat) {
      var b, v := Placed(before.blocks, relayed), Verdict(cps, top);
      && Taken(v, top, b, before.blocks, before.last, before.calls, after.blocks, after.last, after.calls)
      && OrphansTaken(v, b, before, after)
      && after.estimatedHeight == before.estimatedHeight
      && left == if v in {Ignored, Stale, Invalid, OldFork} then None else Some(b)
    }

    /** The block overtakes the main chain before that has reached the last checkpoint. */
    ghost predicate Fails(cps: Table, top: nat) {
      Verdict(cps, top) == Fork && before.last.height < top
    }

    /** The orphan that waits for the block. */
    function Next(): Option<Block> {
      if left.None? || left.value.height == BLOCK_UNKNOWN_HEIGHT then None else Get(after.orphans, left.value.hash)
    }

    /** The state once the orphan has been taken out and the estimated height brought up to date. */
    function Settled(): View {
      if left.None? || left.value.height == BLOCK_UNKNOWN_HEIGHT then after
      else
        after.(orphans := after.orphans - {left.value.hash},
               estimatedHeight :=
                 if left.value.height > after.estimatedHeight then left.value.height else after.estimatedHeight)
    }
  }

  /** A relay: the block, then each time exactly the orphan that waits for the block before, until none
      waits; or until a block fails. */
  ghost predicate Chained(cps: Table, top: nat, env: Env, relayed: Block, before: View, trace: seq<Step>, after: View,
                          ok: bool) {
    && trace != [] && trace[0].relayed == relayed && trace[0].before == before
    && (forall i | 0 <= i < |trace| :: trace[i].env == env)
    && (forall i | 0 <= i < |trace| - 1 ::
          && trace[i].Done(cps, top)
          && trace[i].Next() == Some(trace[i + 1].relayed) && trace[i + 1].before == trace[i].Settled())
    && var last := trace[|trace| - 1];
       if ok then last.Done(cps, top) && last.Next().None? && after == last.Settled() else last.Fails(cps, top)
  }

  lemma ChainedCons(cps: Table, top: nat, env: Env, s: Step, trace: seq<Step>, after: View, ok: bool)
    requires s.env == env && s.Done(cps, top) && s.Next().Some?
    requires Chained(cps, top, env, s.Next().value, s.Settled(), trace, after, ok)
    ensures Chained(cps, top, env, s.relayed, s.before, [s] + trace, after, ok)
  {
    hide Step.Done, Step.Fails, Step.Next, Step.Settled;
    var all := [s] + trace;
    assert forall i | 0 < i < |all| :: all[i] == trace[i - 1];
    forall i | 0 <= i < |all| - 1
      ensures all[i].Done(cps, top) && all[i].Next() == Some(all[i + 1].relayed)
      ensures all[i + 1].before == all[i].Settled()
    {
      if i > 0 { assert all[i] == trace[i - 1] && all[i + 1] == trace[i]; }
    }
  }

  /** A run: one relay after the other, each from the state the one before left. */
  ghost predicate Runs(cps: Table, top: nat, relays: seq<(Env, Block)>, views: seq<View>, traces: seq<seq<Step>>,
                       n: nat) {
    && n <= |relays| && |traces| == n && |views| == n + 1
    && forall i | 0 <= i < n ::
         Chained(cps, top, relays[i].0, relays[i].1, views[i], traces[i], views[i + 1], true)
  }

  /** Orphans that could follow a block of hash `x` or one of its descendants. */
  ghost function Waiting(th: Hash -> int, orphans: BlockSet, x: Hash): set<Hash> {
    set p | p in orphans && th(p) >= th(x)
  }

  /** Each released orphan is higher than the block it waited for, so fewer wait for it. */
  lemma WaitingShrinks(th: Hash -> int, orphans: BlockSet, x: Hash)
    requires OrphansOk(th, orphans) && x in orphans
    ensures Waiting(th, orphans - {x}, orphans[x].hash) < Waiting(th, orphans, x)
  {
    assert x in Waiting(th, orphans, x);
  }

  class Manager {
    ghost const th: Hash -> int
    ghost const start: nat
    const top: nat
    const cps: Table
    var blocks: BlockSet
    var orphans: BlockSet
    var lastBlock: Block
    var lastOrphan: Option<Block>
    var estimatedHeight: nat
    var calls: seq<WalletCall>

    ghost predicate Valid()
      reads this
    {
      Inv(th, cps, top, start, blocks, lastBlock) && OrphansOk(th, orphans)
    }

    ghost function Now(): View
      reads this
    {
      View(blocks, lastBlock, calls, orphans, lastOrphan, estimatedHeight)
    }

    /** A manager that knows nothing but the checkpoints. */
    constructor (table: seq<Checkpoint>, earliestKeyTime: nat, ghost heights: Hash -> int)
      requires TableSorted(heights, table)
      requires table[StartIndex(table, earliestKeyTime, |table|)].height >= DGW_START_BLOCK
      ensures Valid() && th == heights && orphans == map[] && calls == []
      ensures top == table[|table| - 1].height
      ensures lastBlock == CheckpointBlock(table[StartIndex(table, earliestKeyTime, |table|)])
      ensures cps == ByHeight(table, |table|) && blocks == ByHash(table, |table|)
    {
      var checkpoints, stored, last := LoadCheckpoints(table, earliestKeyTime);
      LoadedInv(heights, table, StartIndex(table, earliestKeyTime, |table|));
      th := heights;
      start := last.height;
      top := table[|table| - 1].height;
      cps := checkpoints;
      blocks := stored;
      orphans := map[];
      lastBlock := last;
      lastOrphan := None;
      estimatedHeight := 0;
      calls := [];
    }

    /** The difficulty and checkpoint tests.  The memory clean-up inside never removes a
        block: above the Dark Gravity Wave start every height is a transition height. */
    method VerifyBlock(env: Env, block: Block) returns (r: bool)
      requires Valid() && Linked(th, block) && ParentStored(blocks, block)
      modifies this`blocks
      ensures blocks == old(blocks)
      ensures r <==> !OldTransition(block) && env.difficultyOk(block) && MatchesCheckpoint(cps, block)
    {
      r := true;
      var interval :=
        if block.height < DGW_START_BLOCK then BLOCK_DIFFICULTY_INTERVAL else DGW_BLOCK_DIFFICULTY_INTERVAL;
      if block.height % interval == 0 {
        ghost var prev := blocks[block.prev];
        assert BlockOk(th, cps, start, lastBlock.height, blocks, prev);
        var b, i := Some(block), 0;
        while b.Some? && i < interval
          invariant 0 <= i <= interval
          invariant i == 0 ==> b == Some(block)
          invariant i == 1 ==> b == Some(prev)
          invariant i >= 2 ==> b == None && interval == BLOCK_DIFFICULTY_INTERVAL
        {
          b := Get(blocks, b.value.prev);
          i := i + 1;
        }
        var prevBlock := ZERO;
        if b.None? {
          r := false;
        } else {
          prevBlock := b.value.prev;
        }
        while b.Some?
          invariant blocks == old(blocks)
          invariant b.Some? ==> interval == 1 && Get(blocks, b.value.hash) == b && prevBlock == b.value.prev
          decreases if b.Some? then 1 + b.value.height else 0
        {
          assert BlockOk(th, cps, start, lastBlock.height, blocks, b.value);
          b := Get(blocks, prevBlock);
          if b.Some? {
            prevBlock := b.value.prev;
            var freed := blocks - {b.value.hash};
            blocks := if b.value.height % interval != 0 then freed else blocks;
          }
        }
      }
      if r && !env.difficultyOk(block) {
        r := false;
      }
      if r && !MatchesCheckpoint(cps, block) {
        r := false;
      }
    }

    /** The main-chain block at a given height. */
    method MainChainAt(height: nat) returns (b: Block)
      requires Valid() && start <= height <= lastBlock.height
      ensures b.hash in blocks && blocks[b.hash] == b && b.height == height
      ensures b.hash == AncestorAt(blocks, lastBlock, height)
    {
      hide Inv, Up;
      TipIsStored(th, cps, top, start, blocks, lastBlock);
      UpZero(blocks, lastBlock.hash);
      b := lastBlock;
      ghost var n := 0;
      while b.height > height
        invariant height <= b.height == lastBlock.height - n
        invariant b.hash in blocks && blocks[b.hash] == b && b.hash == Up(blocks, lastBlock.hash, n)
        decreases b.height
      {
        ParentBelowTip(th, cps, top, start, blocks, lastBlock, b);
        UpStep(blocks, lastBlock.hash, n);
        b := blocks[b.prev];
        n := n + 1;
      }
    }

    /** Walks back from a fork that has overtaken the main chain to where the two join.
        Without a common stored ancestor there is no block to return. */
    method JoinPoint(block: Block) returns (join: Option<Block>)
      requires Get(blocks, block.hash) == Some(block) && Get(blocks, lastBlock.hash) == Some(lastBlock)
      requires lastBlock.height >= top ==>
                 Inv(th, cps, top, start, blocks, block) && block.height == lastBlock.height + 1
      requires lastBlock.height < top ==>
                 && ZERO !in blocks && block.prev in blocks
                 && lastBlock.height < blocks[block.prev].height < block.height
                 && blocks[block.prev].prev == ZERO
                 && blocks[block.prev].hash != lastBlock.hash && block.hash != lastBlock.hash
      ensures lastBlock.height < top ==> join.None?
      ensures lastBlock.height >= top ==>
                && join.Some? && join.value.height >= top && Get(blocks, join.value.hash) == join
                && HighestCommonAncestor(blocks, block, lastBlock, join.value)
    {
      hide Inv, BlockOk, Up;
      var b, b2 := Some(block), Some(lastBlock);
      if lastBlock.height >= top { WalkStart(th, cps, top, start, blocks, block, lastBlock); }
      while b.Some? && b2.Some? && b.value.hash != b2.value.hash
        invariant lastBlock.height < top ==>
                    && b2 == Some(lastBlock)
                    && (b == Some(block) || b == Some(blocks[block.prev]) || b == None)
        invariant lastBlock.height >= top ==>
                    && b.Some? && b2.Some?
                    && Walking(th, cps, top, start, blocks, block, lastBlock, b.value, b2.value)
        decreases if b.Some? then 1 + b.value.height else 0
      {
        if lastBlock.height >= top {
          WalkStep(th, cps, top, start, blocks, block, lastBlock, b.value, b2.value);
        }
        b := Get(blocks, b.value.prev);
        if b.Some? && b.value.height < b2.value.height {
          b2 := Get(blocks, b2.value.prev);
        }
      }
      join := if b2.Some? then b else None;
    }

    /** Gives the transactions of the new branch their heights, tip first. */
    method ConfirmBranch(block: Block, joinHeight: nat)
      requires Inv(th, cps, top, start, blocks, block) && top <= joinHeight
      modifies this`calls
      ensures calls == old(calls) + BranchCalls(blocks, block, joinHeight)
    {
      TipIsStored(th, cps, top, start, blocks, block);
      hide Inv, BranchCalls;
      var b := Some(block);
      while b.Some? && b.value.height > joinHeight
        invariant b.Some? && Get(blocks, b.value.hash) == b && b.value.height <= block.height
        invariant calls + BranchCalls(blocks, b.value, joinHeight) ==
                  old(calls) + BranchCalls(blocks, block, joinHeight)
        decreases if b.Some? then b.value.height else 0
      {
        ParentBelowTip(th, cps, top, start, blocks, block, b.value);
        var call := Confirm(b.value);
        ghost var rest := BranchCalls(blocks, blocks[b.value.prev], joinHeight);
        BranchCallsStep(blocks, b.value, joinHeight);
        assert calls + (call + rest) == (calls + call) + rest;
        b := Get(blocks, b.value.prev);
        calls := calls + call;
      }
      BranchCallsStep(blocks, b.value, joinHeight);
      assert calls + [] == calls;
    }

    /** A block on a fork above the last checkpoint. */
    method TakeFork(block: Block) returns (ok: bool)
      requires Valid() && Linked(th, block) && ParentStored(blocks, block)
      requires block.hash !in blocks && block.height > top && block.prev != lastBlock.hash
      modifies this`blocks, this`lastBlock, this`calls
      ensures ok <==> old(lastBlock.height) >= top
      ensures !ok ==> lastBlock == old(lastBlock)
      ensures ok ==> Valid() && lastBlock.height >= old(lastBlock.height)
      ensures ok ==> Taken(Fork, top, block, old(blocks), old(lastBlock), old(calls), blocks, lastBlock, calls)
    {
      hide Inv, BranchCalls, HighestCommonAncestor;
      TipFacts(th, cps, top, start, blocks, lastBlock, block);
      if lastBlock.height >= top {
        ForkKeepsInv(th, cps, top, start, blocks, lastBlock, block);
      } else {
        BareCheckpointParent(th, cps, top, start, blocks, lastBlock, block);
      }
      blocks := blocks[block.hash := block];
      ok := true;
      if block.height > lastBlock.height {
        var join := JoinPoint(block);
        if join.None? {
          return false;
        }
        calls := calls + [SetTxUnconfirmedAfter(join.value.height)];
        ConfirmBranch(block, join.value.height);
        lastBlock := block;
      }
    }

    /** A block that is already stored. */
    method TakeExisting(block: Block)
      requires Valid() && Linked(th, block) && ParentStored(blocks, block) && MatchesCheckpoint(cps, block)
      requires block.hash in blocks && block.prev != lastBlock.hash
      modifies this`blocks, this`lastBlock, this`calls, this`orphans, this`lastOrphan
      ensures Valid() && lastBlock.height == old(lastBlock.height)
      ensures orphans == OrphansAfter(old(orphans), old(blocks)[block.hash], block)
      ensures lastOrphan == LastOrphanAfter(old(lastOrphan), old(blocks)[block.hash], block)
      ensures Taken(Existing, top, block, old(blocks), old(lastBlock), old(calls), blocks, lastBlock, calls)
    {
      hide Inv, Up;
      TipFacts(th, cps, top, start, blocks, lastBlock, block);
      assert AncestorAt(blocks, lastBlock, lastBlock.height) == lastBlock.hash by { UpZero(blocks, lastBlock.hash); }
      SecondCopyHeight(th, cps, top, start, blocks, lastBlock, block);
      ReplaceKeepsInv(th, cps, top, start, blocks, lastBlock, block);
      var b := MainChainAt(block.height);
      if b.hash == block.hash {
        calls := calls + Confirm(block);
        if block.height == lastBlock.height {
          lastBlock := block;
        }
      }
      var replaced := blocks[block.hash];
      blocks := blocks[block.hash := block];
      if replaced != block {
        if Get(orphans, replaced.prev) == Some(replaced) {
          orphans := orphans - {replaced.prev};
        }
        if lastOrphan == Some(replaced) {
          lastOrphan := None;
        }
      }
    }

    /** One relayed block, without the orphans it may release.  `block` is what is left of it,
        and `ok` is false when the walk to the join point runs off the stored chain. */
    method RelayOne(env: Env, relayed: Block) returns (ok: bool, block: Option<Block>)
      requires Valid() && Linked(th, relayed)
      modifies this
      ensures var s := Step(env, relayed, old(Now()), Now(), block);
              (ok ==> s.Done(cps, top)) && (ok <==> !s.Fails(cps, top))
      ensures block.Some? ==> block.value.hash == relayed.hash
      ensures !ok ==> lastBlock == old(lastBlock) && lastBlock.height < top
      ensures ok ==> Valid() && lastBlock.height >= old(lastBlock.height)
      ensures ok ==> Waiting(th, orphans, relayed.hash) <= old(Waiting(th, orphans, relayed.hash))
    {
      hide Inv;
      ok := true;
      var b := Placed(blocks, relayed);
      if b.prev in blocks { TipFacts(th, cps, top, start, blocks, lastBlock, b); }
      block := Some(b);
      if env.headerIgnored(b) {
        block := None;
      } else if env.filterPending {
        block := None;
      } else if b.prev !in blocks {
        if env.stale(b) {
          block := None;
        } else {
          orphans := orphans[b.prev := b];
          lastOrphan := Some(b);
        }
      } else {
        var valid := VerifyBlock(env, b);
        if !valid {
          block := None;
        } else if b.prev == lastBlock.hash {
          ExtendKeepsInv(th, cps, top, start, blocks, lastBlock, b);
          blocks := blocks[b.hash := b];
          lastBlock := b;
          calls := calls + Confirm(b);
        } else if b.hash in blocks {
          TakeExisting(b);
        } else if lastBlock.height < env.peerLastBlock && b.height > lastBlock.height + 1 {
          orphans := orphans[b.prev := b];
          lastOrphan := Some(b);
        } else if b.height <= top {
          block := None;
        } else {
          ok := TakeFork(b);
        }
      }
    }

    /** A relayed block together with every orphan it releases.  This terminates because each
        released orphan is higher than the block before it. */
    method Relay(env: Env, relayed: Block) returns (ok: bool, ghost trace: seq<Step>)
      requires Valid() && Linked(th, relayed)
      modifies this
      ensures Chained(cps, top, env, relayed, old(Now()), trace, Now(), ok)
      ensures !ok ==> old(lastBlock.height) <= lastBlock.height < top
      ensures ok ==> Valid() && lastBlock.height >= old(lastBlock.height)
      decreases Waiting(th, orphans, relayed.hash)
    {
      hide Inv, Step.Done, Step.Fails, Waiting;
      ghost var before := Now();
      var block;
      ok, block := RelayOne(env, relayed);
      ghost var step := Step(env, relayed, before, Now(), block);
      trace := [step];
      if ok && block.Some? && block.value.height != BLOCK_UNKNOWN_HEIGHT {
        if block.value.height > estimatedHeight {
          estimatedHeight := block.value.height;
        }
        var next := Get(orphans, block.value.hash);
        if next.Some? { WaitingShrinks(th, orphans, relayed.hash); }
        orphans := orphans - {block.value.hash};
        assert Now() == step.Settled();
        if next.Some? {
          ok, trace := Release(env, relayed, next.value, step);
        }
      }
    }

    /** Relays the orphan that waited for a block. */
    method Release(env: Env, ghost relayed: Block, next: Block, ghost step: Step)
      returns (ok: bool, ghost trace: seq<Step>)
      requires Valid() && step.env == env && step.relayed == relayed && step.Done(cps, top) && step.Next() == Some(next)
      requires Now() == step.Settled() && Linked(th, next)
      requires Waiting(th, orphans, next.hash) < Waiting(th, step.before.orphans, relayed.hash)
      modifies this
      ensures Chained(cps, top, env, relayed, step.before, trace, Now(), ok)
      ensures !ok ==> old(lastBlock.height) <= lastBlock.height < top
      ensures ok ==> Valid() && lastBlock.height >= old(lastBlock.height)
      decreases Waiting(th, step.before.orphans, relayed.hash), 0
    {
      hide Inv, Step.Done, Step.Fails, Step.Next, Step.Settled, Chained;
      ghost var rest;
      ok, rest := Relay(env, next);
      ChainedCons(cps, top, env, step, rest, Now(), ok);
      trace := [step] + rest;
    }

    /** A whole run.  It ends early only at a relay that finds the tip below the last
        checkpoint; from a tip at or above it never does. */
    method Run(relays: seq<(Env, Block)>)
      returns (ok: bool, n: nat, ghost views: seq<View>, ghost traces: seq<seq<Step>>, ghost failed: seq<Step>)
      requires Valid() && forall i | 0 <= i < |relays| :: Linked(th, relays[i].1)
      modifies this
      ensures Runs(cps, top, relays, views, traces, n) && views[0] == old(Now())
      ensures forall i | 0 <= i <= n :: Inv(th, cps, top, start, views[i].blocks, views[i].last)
      ensures forall i | 0 <= i < n :: views[i].last.height <= views[i + 1].last.height
      ensures ok <==> n == |relays|
      ensures ok ==> views[n] == Now() && Valid() && lastBlock.height >= old(lastBlock.height)
      ensures !ok ==> Chained(cps, top, relays[n].0, relays[n].1, views[n], failed, Now(), false)
      ensures !ok ==> old(lastBlock.height) <= lastBlock.height < top
    {
      hide Inv, Chained;
      ok, n, views, traces, failed := true, 0, [Now()], [], [];
      while n < |relays|
        invariant n <= |relays| && ok && Valid() && lastBlock.height >= old(lastBlock.height)
        invariant Runs(cps, top, relays, views, traces, n) && views[0] == old(Now()) && views[n] == Now()
        invariant forall i | 0 <= i <= n :: Inv(th, cps, top, start, views[i].blocks, views[i].last)
        invariant forall i | 0 <= i < n :: views[i].last.height <= views[i + 1].last.height
      {
        ghost var trace;
        ok, trace := Relay(relays[n].0, relays[n].1);
        if !ok {
          failed := trace;
          return;
        }
        n, views, traces := n + 1, views + [Now()], traces + [trace];
      }
    }
  }

  lemma TwoCheckpoints(table: seq<Checkpoint>)
    requires |table| == 2
    ensures var a, b := CheckpointBlock(table[0]), CheckpointBlock(table[1]);
            && ByHash(table, 2) == map[table[0].hash := a][table[1].hash := b]
            && ByHeight(table, 2) == map[table[0].height := a][table[1].height := b]
    ensures StartIndex(table, 0, 2) == 0
  {
    assert ByHash(table, 0) == map[] && ByHeight(table, 0) == map[];
  }

  /** The walk does leave the stored blocks: from checkpoints at 400000 and 500000, a peer that
      claims no blocks relays one on top of the second. */
  method WalkLeavesStoredBlocks() returns (ok: bool, ghost s: Step)
    ensures var table := [Checkpoint(400000, 1, 0), Checkpoint(500000, 2, 0)];
            && s.before.blocks == ByHash(table, 2) && s.before.last == CheckpointBlock(table[0])
            && s.relayed == Block(3, 2, 0, 0, []) && s.env.peerLastBlock == 0
            && s.Fails(ByHeight(table, 2), 500000)
    ensures !ok
  {
    ghost var th: Hash -> int := x => if x == 1 then 400000 else 499998 + x;
    var table := [Checkpoint(400000, 1, 0), Checkpoint(500000, 2, 0)];
    var m := new Manager(table, 0, th);
    TwoCheckpoints(table);
    hide Inv, ByHash, ByHeight, StartIndex, Step.Done, Step.Fails, TableSorted;
    var env := Env(0, false, _ => false, _ => false, _ => true);
    ghost var before := m.Now();
    var block;
    ok, block := m.RelayOne(env, Block(3, 2, 0, 0, []));
    s := Step(env, Block(3, 2, 0, 0, []), before, m.Now(), block);
    ExampleFails(s, table);
  }

  lemma ExampleFails(s: Step, table: seq<Checkpoint>)
    requires table == [Checkpoint(400000, 1, 0), Checkpoint(500000, 2, 0)]
    requires s.before.blocks == ByHash(table, 2) && s.before.last == CheckpointBlock(table[0])
    requires s.relayed == Block(3, 2, 0, 0, []) && s.env.peerLastBlock == 0 && !s.env.filterPending
    requires forall b :: !s.env.headerIgnored(b) && s.env.difficultyOk(b)
    ensures s.Fails(ByHeight(table, 2), 500000)
  {
    TwoCheckpoints(table);
    hide ByHash, ByHeight;
    assert Placed(s.before.blocks, s.relayed) == Block(3, 2, 500001, 0, []);
  }
}
