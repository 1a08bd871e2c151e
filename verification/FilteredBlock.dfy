/**
Collecting the transactions of a filtered block.

After a merkleblock message a peer sends the block's matched transactions as tx messages;
the block is relayed once all of them that were not known before have arrived.  The state
machine is proved against a statement about the messages alone: which merkleblocks were
followed, by tx messages only, by everything they were missing.
*/
module FilteredBlock {
  import opened Collections

  /** What a message holds once parsed; `ready` says whether a filter or getdata has been sent. */
  datatype Message<H, B> =
    | Tx(tx: Option<H>, ready: bool)
    | Merkleblock(block: Option<B>, matched: seq<H>, known: set<H>, valid: bool, ready: bool)
    | Other(accepted: bool)

  /** The matched transactions that were not known, in reverse order. */
  function Missing<H>(matched: seq<H>, known: set<H>): seq<H> {
    if matched == [] then []
    else
      var n := |matched| - 1;
      (if matched[n] in known then [] else [matched[n]]) + Missing(matched[..n], known)
  }

  // -------------------------------------------------------- what the messages say

  /** Messages a (inclusive) to e (exclusive) are all tx messages. */
  ghost predicate OnlyTx<H, B>(log: seq<Message<H, B>>, a: nat, e: nat)
    requires e <= |log|
  {
    forall i | a <= i < e :: log[i].Tx? && log[i].tx.Some?
  }

  /** The transactions that arrived with those messages. */
  ghost function Arrived<H, B>(log: seq<Message<H, B>>, a: nat, e: nat): multiset<H>
    requires e <= |log|
    decreases e
  {
    if e <= a then multiset{}
    else Arrived(log, a, e - 1) + Brought(log[e - 1])
  }

  ghost function Brought<H, B>(m: Message<H, B>): multiset<H> {
    if m.Tx? && m.tx.Some? then multiset{m.tx.value} else multiset{}
  }

  ghost predicate IsBlock<H, B>(log: seq<Message<H, B>>, k: nat)
    requires k < |log|
  {
    log[k].Merkleblock? && log[k].block.Some?
  }

  /** By message e, with only tx messages since message k, all that block k was missing has arrived. */
  ghost predicate CompleteBy<H, B>(log: seq<Message<H, B>>, k: nat, e: nat)
    requires k < e <= |log| && IsBlock(log, k)
  {
    OnlyTx(log, k + 1, e) && multiset(Missing(log[k].matched, log[k].known)) <= Arrived(log, k + 1, e)
  }

  ghost predicate Delivered<H, B>(log: seq<Message<H, B>>, k: nat)
    requires k < |log|
  {
    IsBlock(log, k) && exists e | k < e <= |log| :: CompleteBy(log, k, e)
  }

  /** Block k is incomplete, and only tx messages have followed it. */
  ghost predicate Open<H, B>(log: seq<Message<H, B>>, k: nat)
    requires k < |log|
  {
    IsBlock(log, k) && OnlyTx(log, k + 1, |log|) && !Delivered(log, k)
  }

  // -------------------------------------------------------- one message more

  lemma {:induction false} ArrivedPrefix<H, B>(log: seq<Message<H, B>>, m: Message<H, B>, a: nat, e: nat)
    requires e <= |log|
    ensures Arrived(log + [m], a, e) == Arrived(log, a, e)
    decreases e
  {
    hide Brought;
    if e > a { ArrivedPrefix(log, m, a, e - 1); }
  }

  lemma {:induction false} ArrivedGrows<H, B>(log: seq<Message<H, B>>, a: nat, e: nat, f: nat)
    requires e <= f <= |log|
    ensures Arrived(log, a, e) <= Arrived(log, a, f)
    decreases f
  {
    hide Brought;
    if e < f { ArrivedGrows(log, a, e, f - 1); }
  }

  lemma CompletePrefix<H, B>(log: seq<Message<H, B>>, m: Message<H, B>, k: nat, e: nat)
    requires k < e <= |log| && IsBlock(log, k)
    ensures CompleteBy(log + [m], k, e) <==> CompleteBy(log, k, e)
  {
    hide Arrived, OnlyTx;
    ArrivedPrefix(log, m, k + 1, e);
    OnlyTxPrefix(log, m, k + 1, e);
    assert (log + [m])[k] == log[k];
  }

  lemma OnlyTxPrefix<H, B>(log: seq<Message<H, B>>, m: Message<H, B>, a: nat, e: nat)
    requires e <= |log|
    ensures OnlyTx(log + [m], a, e) <==> OnlyTx(log, a, e)
  {
    var more := log + [m];
    assert forall i | 0 <= i < e :: more[i] == log[i];
  }

  /** A block that is not open stays as it is. */
  lemma SettledStays<H, B>(log: seq<Message<H, B>>, m: Message<H, B>, k: nat)
    requires k < |log| && !Open(log, k)
    ensures Delivered(log + [m], k) <==> Delivered(log, k)
    ensures !Open(log + [m], k)
  {
    var more := log + [m];
    assert forall i | 0 <= i < |log| :: more[i] == log[i];
    if IsBlock(log, k) {
      hide CompleteBy;
      if Delivered(log, k) {
        var e :| k < e <= |log| && CompleteBy(log, k, e);
        CompletePrefix(log, m, k, e);
      } else {
        forall e | k < e <= |more| ensures !CompleteBy(more, k, e) {
          if e <= |log| { CompletePrefix(log, m, k, e); } else { NotOnlyTx(log, m, k); }
        }
        NotOnlyTx(log, m, k);
      }
    }
  }

  lemma NotOnlyTx<H, B>(log: seq<Message<H, B>>, m: Message<H, B>, k: nat)
    requires k < |log| && IsBlock(log, k) && !OnlyTx(log, k + 1, |log|)
    ensures !OnlyTx(log + [m], k + 1, |log| + 1) && !CompleteBy(log + [m], k, |log| + 1)
  {
    var i :| k + 1 <= i < |log| && !(log[i].Tx? && log[i].tx.Some?);
    assert (log + [m])[i] == log[i];
  }

  /** What block k still lacks. */
  ghost function Left<H, B>(log: seq<Message<H, B>>, k: nat): multiset<H>
    requires k < |log| && IsBlock(log, k)
  {
    multiset(Missing(log[k].matched, log[k].known)) - Arrived(log, k + 1, |log|)
  }

  /** While only tx messages follow a block it is delivered exactly when nothing is lacking. */
  lemma DeliveredMeans<H, B>(log: seq<Message<H, B>>, k: nat)
    requires k < |log| && IsBlock(log, k) && OnlyTx(log, k + 1, |log|)
    ensures Delivered(log, k) <==> Left(log, k) == multiset{}
  {
    var need := multiset(Missing(log[k].matched, log[k].known));
    if Delivered(log, k) {
      var e :| k < e <= |log| && CompleteBy(log, k, e);
      ArrivedGrows(log, k + 1, e, |log|);
      assert need <= Arrived(log, k + 1, |log|);
    }
    if Left(log, k) == multiset{} {
      NothingLeft(need, Arrived(log, k + 1, |log|));
      assert CompleteBy(log, k, |log|);
    }
  }

  lemma NothingLeft<T>(a: multiset<T>, b: multiset<T>)
    requires a - b == multiset{}
    ensures a <= b
  {
    forall x ensures a[x] <= b[x] {
      assert (a - b)[x] == 0;
    }
  }

  lemma LeftStep<H, B>(log: seq<Message<H, B>>, m: Message<H, B>, k: nat)
    requires k < |log| && IsBlock(log, k) && m.Tx? && m.tx.Some?
    ensures IsBlock(log + [m], k) && Left(log + [m], k) == Left(log, k) - multiset{m.tx.value}
  {
    assert (log + [m])[k] == log[k];
    ArrivedPrefix(log, m, k + 1, |log|);
  }

  // -------------------------------------------------------------- the state machine

  /** The relayed blocks are those of the delivered merkleblocks, in order; `done` are their positions. */
  ghost predicate Relayed<H, B>(log: seq<Message<H, B>>, done: seq<nat>, relayed: seq<B>) {
    && |done| == |relayed|
    && (forall i | 0 <= i < |done| ::
          done[i] < |log| && Delivered(log, done[i]) && relayed[i] == log[done[i]].block.value)
    && (forall i, j | 0 <= i < j < |done| :: done[i] < done[j])
    && (forall k | 0 <= k < |log| :: Delivered(log, k) ==> k in done)
  }

  /** The block being collected is the one open merkleblock, and what is awaited is what it lacks. */
  ghost predicate Collecting<H, B>(log: seq<Message<H, B>>, current: Option<B>, waiting: seq<H>, at: nat) {
    if current.None? then waiting == [] && forall k | 0 <= k < |log| :: !Open(log, k)
    else
      && waiting != []
      && at < |log| && IsBlock(log, at) && log[at].block == current && OnlyTx(log, at + 1, |log|)
      && Left(log, at) == multiset(waiting)
      && forall k | 0 <= k < |log| && k != at :: !Open(log, k)
  }

  /** Some merkleblock is incomplete and followed by tx messages only. */
  ghost predicate SomeOpen<H, B>(log: seq<Message<H, B>>) {
    exists k | 0 <= k < |log| :: Open(log, k)
  }

  /** A message that fails the peer after the messages `log`: one that is malformed, invalid or untimely,
      and anything but a transaction while a block is open. */
  ghost predicate Refused<H, B>(log: seq<Message<H, B>>, m: Message<H, B>) {
    match m
    case Tx(tx, ready) => tx.None? || !ready
    case Merkleblock(block, _, _, valid, ready) => block.None? || !valid || !ready || SomeOpen(log)
    case Other(accepted) => !accepted || SomeOpen(log)
  }

  class Peer<H(==, !new), B(!new)> {
    var currentBlock: Option<B>
    var currentBlockTxHashes: seq<H>
    var relayed: seq<B>
    var failed: bool
    ghost var log: seq<Message<H, B>>    // the accepted messages
    ghost var done: seq<nat>             // positions of the relayed blocks
    ghost var at: nat                    // position of the block being collected

    ghost predicate Valid()
      reads this
    {
      && (currentBlock.Some? <==> currentBlockTxHashes != [])
      && Relayed(log, done, relayed)
      && (!failed ==> Collecting(log, currentBlock, currentBlockTxHashes, at))
    }

    constructor ()
      ensures Valid() && !failed && log == [] && relayed == [] && currentBlock == None
    {
      currentBlock, currentBlockTxHashes, relayed, failed := None, [], [], false;
      log, done, at := [], [], 0;
    }

    /** The hashes of the block's transactions that are not known, last first. */
    method Gather(matched: seq<H>, known: set<H>)
      requires currentBlockTxHashes == []
      modifies this`currentBlockTxHashes
      ensures currentBlockTxHashes == Missing(matched, known)
    {
      var i := |matched|;
      assert matched[..i] == matched;
      while i > 0
        invariant 0 <= i <= |matched|
        invariant currentBlockTxHashes + Missing(matched[..i], known) == Missing(matched, known)
      {
        assert matched[..i][..i - 1] == matched[..i - 1];
        if matched[i - 1] !in known {
          currentBlockTxHashes := currentBlockTxHashes + [matched[i - 1]];
        }
        i := i - 1;
      }
    }

    method AcceptMerkleblock(m: Message<H, B>) returns (ok: bool)
      requires Valid() && !failed && currentBlock.None? && m.Merkleblock?
      modifies this`currentBlock, this`currentBlockTxHashes, this`relayed, this`log, this`done, this`at
      ensures ok <==> m.block.Some? && m.valid && m.ready
      ensures !ok ==> relayed == old(relayed)
      ensures Relayed(log, done, relayed) && Collecting(log, currentBlock, currentBlockTxHashes, at)
      ensures log == if ok then old(log) + [m] else old(log)
    {
      hide Relayed, Collecting, Missing, Open;
      if m.block.None? || !m.valid || !m.ready {
        return false;
      }
      NotCollecting(log, currentBlockTxHashes, at);
      Gather(m.matched, m.known);
      if |currentBlockTxHashes| > 0 {
        StartCollecting(log, m, currentBlockTxHashes, done, relayed);
        currentBlock := m.block;
        at := |log|;
      } else {
        RelayAtOnce(log, m, done, relayed);
        relayed, done := relayed + [m.block.value], done + [|log|];
      }
      log := log + [m];
      return true;
    }

    /** Strikes one occurrence of the hash off the awaited ones. */
    method Strike(h: H)
      modifies this`currentBlockTxHashes
      ensures multiset(currentBlockTxHashes) == multiset(old(currentBlockTxHashes)) - multiset{h}
    {
      var i := |currentBlockTxHashes|;
      while i > 0
        invariant 0 <= i <= |currentBlockTxHashes| && currentBlockTxHashes == old(currentBlockTxHashes)
        invariant h !in currentBlockTxHashes[i..]
      {
        if currentBlockTxHashes[i - 1] == h {
          ghost var was := currentBlockTxHashes;
          assert was == was[..i - 1] + [h] + was[i..];
          currentBlockTxHashes := currentBlockTxHashes[..i - 1] + currentBlockTxHashes[i..];
          return;
        }
        i := i - 1;
      }
    }

    method AcceptTx(m: Message<H, B>) returns (ok: bool)
      requires Valid() && !failed && m.Tx?
      modifies this`currentBlock, this`currentBlockTxHashes, this`relayed, this`log, this`done
      ensures ok <==> m.tx.Some? && m.ready
      ensures !ok ==> relayed == old(relayed)
      ensures Relayed(log, done, relayed) && Collecting(log, currentBlock, currentBlockTxHashes, at)
      ensures log == if ok then old(log) + [m] else old(log)
    {
      hide Relayed, Collecting, Open;
      if m.tx.None? || !m.ready {
        return false;
      }
      if currentBlock.Some? {
        ghost var was := currentBlockTxHashes;
        Strike(m.tx.value);
        TxArrives(log, m, currentBlock, was, currentBlockTxHashes, at, done, relayed);
        if |currentBlockTxHashes| == 0 {
          var block := currentBlock.value;
          currentBlock := None;
          relayed, done := relayed + [block], done + [at];
        }
      } else {
        NotCollecting(log, currentBlockTxHashes, at);
        NothingOpens(log, m, done, relayed);
      }
      log := log + [m];
      return true;
    }

    /** One message.  Anything but a transaction while a block is collected drops the block and fails the peer. */
    method Accept(m: Message<H, B>) returns (ok: bool)
      requires Valid() && !failed
      modifies this
      ensures Valid() && failed == !ok
      ensures log == if ok then old(log) + [m] else old(log)
      ensures ok <==> !Refused(old(log), m)
      ensures old(currentBlock).Some? <==> SomeOpen(old(log))
      ensures old(currentBlock).Some? && !m.Tx? ==> !ok && currentBlock.None? && relayed == old(relayed)
      ensures !ok ==> relayed == old(relayed)
    {
      hide Relayed, Collecting, Open, SomeOpen;
      CollectingIsOpen(log, currentBlock, currentBlockTxHashes, at);
      if currentBlock.Some? && !m.Tx? {
        currentBlockTxHashes, currentBlock := [], None;
        ok := false;
      } else if m.Tx? {
        ok := AcceptTx(m);
        CollectingMeans(log, currentBlock, currentBlockTxHashes, at);
      } else if m.Merkleblock? {
        ok := AcceptMerkleblock(m);
        CollectingMeans(log, currentBlock, currentBlockTxHashes, at);
      } else {
        ok := m.accepted;
        if ok {
          NotCollecting(log, currentBlockTxHashes, at);
          NothingOpens(log, m, done, relayed);
          log := log + [m];
        }
      }
      failed := !ok;
    }

    /**
    A run over every message sequence, up to the first message that is refused: the relayed
    blocks are exactly those of the merkleblocks that were followed, by tx messages only,
    by all their missing transactions.
    */
    method Run(messages: seq<Message<H, B>>) returns (n: nat)
      requires Valid() && !failed && log == []
      modifies this
      ensures Valid() && n <= |messages| && log == messages[..n] && (failed <==> n < |messages|)
      ensures forall i | 0 <= i < n :: !Refused(messages[..i], messages[i])
      ensures n < |messages| ==> Refused(messages[..n], messages[n])
      ensures Relayed(messages[..n], done, relayed)
    {
      hide Refused, Relayed, Collecting;
      n := 0;
      while n < |messages|
        invariant 0 <= n <= |messages| && Valid() && !failed && log == messages[..n]
        invariant forall i | 0 <= i < n :: !Refused(messages[..i], messages[i])
      {
        var ok := Accept(messages[n]);
        if !ok {
          return;
        }
        assert messages[..n + 1] == messages[..n] + [messages[n]];
        n := n + 1;
      }
    }
  }

  lemma CollectingMeans<H, B>(log: seq<Message<H, B>>, current: Option<B>, waiting: seq<H>, at: nat)
    requires Collecting(log, current, waiting, at)
    ensures current.Some? <==> waiting != []
  {
  }

  /** A block is being collected exactly when some merkleblock is open. */
  lemma CollectingIsOpen<H, B>(log: seq<Message<H, B>>, current: Option<B>, waiting: seq<H>, at: nat)
    requires Collecting(log, current, waiting, at)
    ensures current.Some? <==> SomeOpen(log)
  {
    if current.Some? {
      DeliveredMeans(log, at);
      assert waiting[0] in multiset(waiting);
      assert Open(log, at);
    }
  }

  lemma NotCollecting<H, B>(log: seq<Message<H, B>>, waiting: seq<H>, at: nat)
    requires Collecting(log, None, waiting, at)
    ensures waiting == [] && forall k | 0 <= k < |log| :: !Open(log, k)
  {
  }

  /** A message that leaves every block as it is leaves the relayed ones right. */
  lemma RelayedStays<H, B>(log: seq<Message<H, B>>, m: Message<H, B>, done: seq<nat>, relayed: seq<B>)
    requires Relayed(log, done, relayed)
    requires forall k | 0 <= k < |log| :: Delivered(log + [m], k) <==> Delivered(log, k)
    requires !Delivered(log + [m], |log|)
    ensures Relayed(log + [m], done, relayed)
  {
    hide Delivered;
    var more := log + [m];
    assert forall i | 0 <= i < |log| :: more[i] == log[i];
    forall k | 0 <= k < |more| && Delivered(more, k) ensures k in done {
      assert k < |log| ==> Delivered(log, k);
    }
  }

  /** A message that completes exactly one block lets that block be relayed next. */
  lemma RelayedMore<H, B>(log: seq<Message<H, B>>, m: Message<H, B>, done: seq<nat>, relayed: seq<B>, at: nat)
    requires Relayed(log, done, relayed) && at <= |log| && Delivered(log + [m], at)
    requires forall k | 0 <= k < |log| && k != at :: Delivered(log + [m], k) <==> Delivered(log, k)
    requires at < |log| ==> !Delivered(log + [m], |log|)
    requires forall i | 0 <= i < |done| :: done[i] < at
    ensures Relayed(log + [m], done + [at], relayed + [(log + [m])[at].block.value])
  {
    hide Delivered;
    var more := log + [m];
    assert forall i | 0 <= i < |log| :: more[i] == log[i];
    var done' := done + [at];
    forall k | 0 <= k < |more| && Delivered(more, k) ensures k in done' {
      if k != at {
        assert Delivered(log, k);
        assert k in done;
      } else {
        assert done'[|done|] == at;
      }
    }
  }

  /** Without an open block, a message that starts none keeps it so. */
  lemma NothingOpens<H, B>(log: seq<Message<H, B>>, m: Message<H, B>, done: seq<nat>, relayed: seq<B>)
    requires Relayed(log, done, relayed) && !m.Merkleblock? && forall k | 0 <= k < |log| :: !Open(log, k)
    ensures Relayed(log + [m], done, relayed) && forall at :: Collecting(log + [m], None, [], at)
  {
    var more := log + [m];
    assert more[|log|] == m;
    assert !IsBlock(more, |log|);
    hide Open;
    assert !Delivered(more, |log|);
    assert !Open(more, |log|) by { NotABlock(more, |log|); }
    hide Delivered;
    forall k | 0 <= k < |log| ensures (Delivered(more, k) <==> Delivered(log, k)) && !Open(more, k) {
      SettledStays(log, m, k);
    }
    RelayedStays(log, m, done, relayed);
  }

  lemma DeliveredNotOpen<H, B>(log: seq<Message<H, B>>, k: nat)
    requires k < |log| && Delivered(log, k)
    ensures !Open(log, k)
  {
  }

  lemma NotABlock<H, B>(log: seq<Message<H, B>>, k: nat)
    requires k < |log| && !IsBlock(log, k)
    ensures !Open(log, k) && !Delivered(log, k)
  {
  }

  /** What a merkleblock with nothing open before it starts with. */
  lemma NewBlock<H, B>(log: seq<Message<H, B>>, m: Message<H, B>)
    requires m.Merkleblock? && m.block.Some?
    ensures var more := log + [m];
            && IsBlock(more, |log|) && OnlyTx(more, |log| + 1, |more|)
            && Left(more, |log|) == multiset(Missing(m.matched, m.known))
            && (Delivered(more, |log|) <==> Missing(m.matched, m.known) == [])
  {
    hide Missing;
    var more := log + [m];
    assert more[|log|] == m;
    DeliveredMeans(more, |log|);
  }

  lemma OnlyTxSnoc<H, B>(log: seq<Message<H, B>>, m: Message<H, B>, a: nat)
    requires OnlyTx(log, a, |log|) && m.Tx? && m.tx.Some?
    ensures OnlyTx(log + [m], a, |log| + 1)
  {
  }

  lemma OthersSettled<H, B>(log: seq<Message<H, B>>, m: Message<H, B>, at: nat)
    requires forall k | 0 <= k < |log| && k != at :: !Open(log, k)
    ensures forall k | 0 <= k < |log| && k != at ::
              (Delivered(log + [m], k) <==> Delivered(log, k)) && !Open(log + [m], k)
  {
    forall k | 0 <= k < |log| && k != at
      ensures (Delivered(log + [m], k) <==> Delivered(log, k)) && !Open(log + [m], k)
    {
      SettledStays(log, m, k);
    }
  }

  /** A merkleblock with missing transactions becomes the one being collected. */
  lemma StartCollecting<H, B>(log: seq<Message<H, B>>, m: Message<H, B>, waiting: seq<H>, done: seq<nat>,
                              relayed: seq<B>)
    requires m.Merkleblock? && m.block.Some? && waiting == Missing(m.matched, m.known) && waiting != []
    requires Relayed(log, done, relayed) && forall k | 0 <= k < |log| :: !Open(log, k)
    ensures Relayed(log + [m], done, relayed) && Collecting(log + [m], m.block, waiting, |log|)
  {
    NewBlock(log, m);
    OthersSettled(log, m, |log|);
    hide Delivered, Missing, Left, OnlyTx, Open;
    assert (log + [m])[|log|] == m;
    RelayedStays(log, m, done, relayed);
  }

  /** A merkleblock that lacks nothing is relayed at once. */
  lemma RelayAtOnce<H, B>(log: seq<Message<H, B>>, m: Message<H, B>, done: seq<nat>, relayed: seq<B>)
    requires m.Merkleblock? && m.block.Some? && Missing(m.matched, m.known) == []
    requires Relayed(log, done, relayed) && forall k | 0 <= k < |log| :: !Open(log, k)
    ensures Relayed(log + [m], done + [|log|], relayed + [m.block.value])
    ensures forall at :: Collecting(log + [m], None, [], at)
  {
    NewBlock(log, m);
    OthersSettled(log, m, |log|);
    assert !Open(log + [m], |log|);
    hide Delivered, Missing, Open;
    assert (log + [m])[|log|] == m;
    RelayedMore(log, m, done, relayed, |log|);
  }

  /** Everything relayed so far precedes the block being collected. */
  lemma DoneBefore<H, B>(log: seq<Message<H, B>>, current: Option<B>, waiting: seq<H>, at: nat, done: seq<nat>,
                         relayed: seq<B>)
    requires current.Some? && Collecting(log, current, waiting, at) && Relayed(log, done, relayed)
    ensures forall i | 0 <= i < |done| :: done[i] < at
  {
    DeliveredMeans(log, at);
    assert waiting[0] in multiset(waiting);
    forall i | 0 <= i < |done| ensures done[i] < at {
      assert Delivered(log, done[i]) && IsBlock(log, done[i]);
    }
  }

  lemma TxStep<H, B>(log: seq<Message<H, B>>, m: Message<H, B>, at: nat)
    requires m.Tx? && m.tx.Some? && at < |log| && IsBlock(log, at) && OnlyTx(log, at + 1, |log|)
    ensures var more := log + [m];
            && IsBlock(more, at) && more[at] == log[at] && OnlyTx(more, at + 1, |more|)
            && Left(more, at) == Left(log, at) - multiset{m.tx.value}
            && (Delivered(more, at) <==> Left(more, at) == multiset{})
            && !Delivered(more, |log|) && !Open(more, |log|)
  {
    hide Left, Delivered, Open, OnlyTx;
    var more := log + [m];
    assert more[|log|] == m && more[at] == log[at];
    OnlyTxSnoc(log, m, at + 1);
    LeftStep(log, m, at);
    DeliveredMeans(more, at);
    NotABlock(more, |log|);
  }

  /** A transaction while a block is collected: it completes the block exactly when nothing is awaited any more. */
  lemma TxArrives<H, B>(log: seq<Message<H, B>>, m: Message<H, B>, current: Option<B>, was: seq<H>, now: seq<H>,
                        at: nat, done: seq<nat>, relayed: seq<B>)
    requires current.Some? && Collecting(log, current, was, at) && Relayed(log, done, relayed)
    requires m.Tx? && m.tx.Some? && multiset(now) == multiset(was) - multiset{m.tx.value}
    ensures now != [] ==> Relayed(log + [m], done, relayed) && Collecting(log + [m], current, now, at)
    ensures now == [] ==> Relayed(log + [m], done + [at], relayed + [current.value])
    ensures now == [] ==> Collecting(log + [m], None, [], at)
  {
    hide Relayed, Collecting;
    if now == [] {
      LastTx(log, m, current, was, at, done, relayed);
    } else {
      MoreTx(log, m, current, was, now, at, done, relayed);
    }
  }

  lemma LastTx<H, B>(log: seq<Message<H, B>>, m: Message<H, B>, current: Option<B>, was: seq<H>, at: nat,
                     done: seq<nat>, relayed: seq<B>)
    requires current.Some? && Collecting(log, current, was, at) && Relayed(log, done, relayed)
    requires m.Tx? && m.tx.Some? && multiset(was) - multiset{m.tx.value} == multiset{}
    ensures Relayed(log + [m], done + [at], relayed + [current.value]) && Collecting(log + [m], None, [], at)
  {
    hide Delivered, Left, OnlyTx, Open, Relayed;
    DoneBefore(log, current, was, at, done, relayed);
    TxStep(log, m, at);
    OthersSettled(log, m, at);
    DeliveredNotOpen(log + [m], at);
    RelayedMore(log, m, done, relayed, at);
  }

  lemma MoreTx<H, B>(log: seq<Message<H, B>>, m: Message<H, B>, current: Option<B>, was: seq<H>, now: seq<H>, at: nat,
                     done: seq<nat>, relayed: seq<B>)
    requires current.Some? && Collecting(log, current, was, at) && Relayed(log, done, relayed) && now != []
    requires m.Tx? && m.tx.Some? && multiset(now) == multiset(was) - multiset{m.tx.value}
    ensures Relayed(log + [m], done, relayed) && Collecting(log + [m], current, now, at)
  {
    hide Delivered, Left, OnlyTx, Open, Relayed;
    DeliveredMeans(log, at);
    assert was[0] in multiset(was);
    assert now[0] in multiset(now);
    TxStep(log, m, at);
    OthersSettled(log, m, at);
    RelayedStays(log, m, done, relayed);
  }
}
