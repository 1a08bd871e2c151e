/**
The wallet ledger: recomputing unspent outputs and balance from the list of
registered transactions.

The list is walked once.  Unconfirmed transactions that spend something already
spent, or an output of an invalid transaction, are invalid; unconfirmed ones that
are too large, locked, or spend an output of a pending transaction are pending;
all others are accepted.  The walk keeps running collections; the ledger's meaning
is stated here in terms of the resulting status of each transaction.
*/
module Ledger {
  import opened Collections
  import opened Transactions

  const TX_MAX_LOCK_HEIGHT: nat := 500000000
  const UINT32_MAX: nat := 0xFFFF_FFFF

  datatype Status = Accepted | Pending | Invalid

  // ------------------------------------------------- the meaning of the ledger

  ghost function Inputs(tx: Tx): set<Utxo> {
    set j | 0 <= j < |tx.inputs| :: tx.inputs[j].prev
  }

  /** Outputs of `tx` that pay one of the given addresses. */
  ghost function OwnedOutputs(tx: Tx, addrs: set<Address>): set<Utxo> {
    set j | 0 <= j < |tx.outputs| && tx.outputs[j].address != "" && tx.outputs[j].address in addrs :: Utxo(tx.hash, j)
  }

  /** What the first `n` transactions spend, invalid ones aside. */
  ghost function Spent(txs: seq<Tx>, st: seq<Status>, n: nat): set<Utxo>
    requires n <= |txs| && n <= |st|
  {
    if n == 0 then {}
    else Spent(txs, st, n - 1) + if st[n - 1] != Invalid then Inputs(txs[n - 1]) else {}
  }

  /** The wallet's outputs of the accepted ones among the first `n` transactions. */
  ghost function Owned(txs: seq<Tx>, st: seq<Status>, addrs: set<Address>, n: nat): set<Utxo>
    requires n <= |txs| && n <= |st|
  {
    if n == 0 then {}
    else Owned(txs, st, addrs, n - 1) + if st[n - 1] == Accepted then OwnedOutputs(txs[n - 1], addrs) else {}
  }

  /** Hashes of the transactions of one status among the first `n`. */
  ghost function Hashes(txs: seq<Tx>, st: seq<Status>, s: Status, n: nat): set<Hash>
    requires n <= |txs| && n <= |st|
  {
    if n == 0 then {}
    else Hashes(txs, st, s, n - 1) + if st[n - 1] == s then {txs[n - 1].hash} else {}
  }

  ghost function OutputAddrs(tx: Tx): set<Address> {
    set j | 0 <= j < |tx.outputs| && tx.outputs[j].address != "" :: tx.outputs[j].address
  }

  /** The addresses paid by the accepted ones among the first `n` transactions. */
  ghost function Used(txs: seq<Tx>, st: seq<Status>, n: nat): set<Address>
    requires n <= |txs| && n <= |st|
  {
    if n == 0 then {} else Used(txs, st, n - 1) + if st[n - 1] == Accepted then OutputAddrs(txs[n - 1]) else {}
  }

  /** How many of the first `n` transactions precede the end of the last accepted one. */
  ghost function Settled(st: seq<Status>, n: nat): nat
    requires n <= |st|
    ensures Settled(st, n) <= n
  {
    if n == 0 then 0 else if st[n - 1] == Accepted then n else Settled(st, n - 1)
  }

  /** The clock readings the ledger depends on. */
  datatype Now = Now(blockHeight: nat, time: nat)

  /** A lock in the future; the height bound is an unsigned 32-bit difference. */
  predicate Locked(now: Now, tx: Tx, i: Input) {
    || (tx.lockTime < TX_MAX_LOCK_HEIGHT &&
        tx.lockTime >
        (if now.blockHeight >= 180 then now.blockHeight - 180 else now.blockHeight + UINT32_MAX + 1 - 180))
    || (i.sequence < UINT32_MAX && tx.lockTime > now.time)
  }

  ghost predicate IsInvalid(txs: seq<Tx>, st: seq<Status>, k: nat)
    requires k < |txs| && k <= |st|
  {
    txs[k].Unconfirmed() &&
    exists u | u in Inputs(txs[k]) :: u in Spent(txs, st, k) || u.hash in Hashes(txs, st, Invalid, k)
  }

  ghost predicate IsPending(now: Now, txs: seq<Tx>, st: seq<Status>, k: nat)
    requires k < |txs| && k <= |st|
  {
    txs[k].Unconfirmed() &&
    (txs[k].size > TX_MAX_SIZE ||
     exists j | 0 <= j < |txs[k].inputs| ::
       Locked(now, txs[k], txs[k].inputs[j]) || txs[k].inputs[j].prev.hash in Hashes(txs, st, Pending, k))
  }

  ghost function StatusAt(now: Now, txs: seq<Tx>, st: seq<Status>, k: nat): Status
    requires k < |txs| && k <= |st|
  {
    if IsInvalid(txs, st, k) then Invalid else if IsPending(now, txs, st, k) then Pending else Accepted
  }

  ghost predicate StatusOk(now: Now, txs: seq<Tx>, st: seq<Status>) {
    |st| <= |txs| && forall k | 0 <= k < |st| :: st[k] == StatusAt(now, txs, st, k)
  }

  /** The unspent outputs of the wallet: what accepted transactions pay it, less what is spent
      by any transaction that is not invalid, up to the last accepted one. */
  ghost function Unspent(txs: seq<Tx>, st: seq<Status>, addrs: set<Address>, n: nat): set<Utxo>
    requires n <= |txs| && n <= |st|
  {
    Owned(txs, st, addrs, n) - Spent(txs, st, Settled(st, n))
  }

  // ----------------------------------------------------------------- amounts

  lemma SumRemove(allTx: TxMap, s: seq<Utxo>, i: nat)
    requires i < |s|
    ensures Sum(allTx, Without(s, i)) == Sum(allTx, s) - Amount(allTx, s[i])
    ensures Distinct(s) ==> Distinct(Without(s, i)) && Elements(Without(s, i)) == Elements(s) - {s[i]}
  {
    SumConcat(allTx, s[..i], s[i + 1..]);
    SumConcat(allTx, s[..i], [s[i]]);
    assert s[..i] + [s[i]] == s[..i + 1] && s == s[..i + 1] + s[i + 1..];
    SumConcat(allTx, s[..i + 1], s[i + 1..]);
    assert Sum(allTx, [s[i]]) == Amount(allTx, s[i]) by { assert [s[i]][..0] == []; }
    if Distinct(s) { RemoveElems(s, i); }
  }

  lemma RemoveElems<T>(s: seq<T>, i: nat)
    requires i < |s| && Distinct(s)
    ensures Distinct(Without(s, i)) && Elements(Without(s, i)) == Elements(s) - {s[i]}
  {
    var t := Without(s, i);
    forall x | x in Elements(s) - {s[i]} ensures x in Elements(t) {
      var k :| 0 <= k < |s| && s[k] == x;
      assert t[if k < i then k else k - 1] == x;
    }
  }

  /** Lists of distinct outputs with the same elements have the same sum. */
  lemma {:induction false} SumByElems(allTx: TxMap, a: seq<Utxo>, b: seq<Utxo>)
    requires Distinct(a) && Distinct(b) && Elements(a) == Elements(b)
    ensures Sum(allTx, a) == Sum(allTx, b)
    decreases |a|
  {
    assert b != [] ==> b[0] in Elements(b);
    if a != [] {
      assert a[0] in Elements(b);
      var i :| 0 <= i < |b| && b[i] == a[0];
      SumRemove(allTx, a, 0);
      SumRemove(allTx, b, i);
      SumByElems(allTx, Without(a, 0), Without(b, i));
    }
  }

  /** Entry `k` of the history is the worth of what was unspent after transaction `k`. */
  ghost predicate History(allTx: TxMap, txs: seq<Tx>, st: seq<Status>, addrs: set<Address>, hist: seq<nat>)
    requires |st| <= |txs|
  {
    && |hist| == |st|
    && forall k, l: seq<Utxo> | 0 <= k < |st| && Distinct(l) && Elements(l) == Unspent(txs, st, addrs, k + 1) ::
         hist[k] == Sum(allTx, l)
  }

  /** The balance after the last transaction of the history. */
  ghost function Last(hist: seq<nat>): nat {
    if hist == [] then 0 else hist[|hist| - 1]
  }

  /** All rises of the balance over its history, and all falls. */
  ghost function Gains(hist: seq<nat>): nat {
    if hist == [] then 0
    else
      var before := hist[..|hist| - 1];
      Gains(before) + if Last(before) < Last(hist) then Last(hist) - Last(before) else 0
  }

  ghost function Losses(hist: seq<nat>): nat {
    if hist == [] then 0
    else
      var before := hist[..|hist| - 1];
      Losses(before) + if Last(hist) < Last(before) then Last(before) - Last(hist) else 0
  }

  lemma TotalsSnoc(hist: seq<nat>, bal: nat)
    ensures Gains(hist + [bal]) == Gains(hist) + (if Last(hist) < bal then bal - Last(hist) else 0)
    ensures Losses(hist + [bal]) == Losses(hist) + (if bal < Last(hist) then Last(hist) - bal else 0)
    ensures Last(hist + [bal]) == bal
  {
    assert (hist + [bal])[..|hist|] == hist;
  }

  /** What came and went is what is left. */
  lemma {:induction false} GainsLessLosses(hist: seq<nat>)
    ensures Gains(hist) == Losses(hist) + Last(hist)
  {
    if hist != [] { GainsLessLosses(hist[..|hist| - 1]); }
  }

  // ------------------------------------------------------------ the computation

  class Wallet {
    var transactions: seq<Tx>
    var allTx: TxMap
    var allAddrs: set<Address>
    var utxos: seq<Utxo>
    var balanceHist: seq<nat>
    var spentOutputs: set<Utxo>
    var invalidTx: set<Hash>
    var pendingTx: set<Hash>
    var usedAddrs: set<Address>
    var totalSent: nat
    var totalReceived: nat
    var balance: nat

    /** The listed transactions have distinct hashes and are indexed by them. */
    ghost predicate Registered()
      reads this
    {
      && (forall i, j | 0 <= i < j < |transactions| :: transactions[i].hash != transactions[j].hash)
      && (forall i | 0 <= i < |transactions| ::
            transactions[i].hash in allTx && allTx[transactions[i].hash] == transactions[i])
    }

    /** The running collections after the transactions whose status is `st`. */
    ghost predicate Walked(now: Now, st: seq<Status>, bal: nat)
      reads this`transactions, this`allTx, this`allAddrs, this`utxos, this`balanceHist, this`spentOutputs
      reads this`invalidTx, this`pendingTx, this`usedAddrs, this`totalSent, this`totalReceived
    {
      && StatusOk(now, transactions, st)
      && spentOutputs == Spent(transactions, st, |st|)
      && invalidTx == Hashes(transactions, st, Invalid, |st|)
      && pendingTx == Hashes(transactions, st, Pending, |st|)
      && Elements(utxos) == Unspent(transactions, st, allAddrs, |st|) && Distinct(utxos)
      && bal == Sum(allTx, utxos) == Last(balanceHist)
      && totalReceived == Gains(balanceHist) && totalSent == Losses(balanceHist)
      && usedAddrs == Used(transactions, st, |st|)
      && History(allTx, transactions, st, allAddrs, balanceHist)
    }

    lemma WalkedStart(now: Now)
      requires utxos == [] && balanceHist == [] && spentOutputs == {}
      requires invalidTx == {} && pendingTx == {} && usedAddrs == {}
      requires totalSent == totalReceived == 0
      ensures Walked(now, [], 0)
    {
      assert Elements(utxos) == {};
    }

    lemma WalkedTotals(now: Now, st: seq<Status>, bal: nat)
      requires Walked(now, st, bal)
      ensures bal == Last(balanceHist) && totalReceived == Gains(balanceHist) && totalSent == Losses(balanceHist)
    {
    }

    method SpendsTaken(tx: Tx) returns (taken: bool)
      ensures taken <==> exists u | u in Inputs(tx) :: u in spentOutputs || u.hash in invalidTx
    {
      taken := false;
      var j := 0;
      while !taken && j < |tx.inputs|
        invariant 0 <= j <= |tx.inputs|
        invariant taken <==> exists i | 0 <= i < j ::
                    tx.inputs[i].prev in spentOutputs || tx.inputs[i].prev.hash in invalidTx
      {
        if tx.inputs[j].prev in spentOutputs || tx.inputs[j].prev.hash in invalidTx {
          taken := true;
        }
        j := j + 1;
      }
    }

    method AddInputs(tx: Tx)
      modifies this`spentOutputs
      ensures spentOutputs == old(spentOutputs) + Inputs(tx)
    {
      for j := 0 to |tx.inputs|
        invariant spentOutputs == old(spentOutputs) + set i | 0 <= i < j :: tx.inputs[i].prev
      {
        spentOutputs := spentOutputs + {tx.inputs[j].prev};
      }
    }

    method HeldBack(now: Now, tx: Tx) returns (held: bool)
      ensures held <==>
                || tx.size > TX_MAX_SIZE
                || exists j | 0 <= j < |tx.inputs| ::
                     Locked(now, tx, tx.inputs[j]) || tx.inputs[j].prev.hash in pendingTx
    {
      held := tx.size > TX_MAX_SIZE;
      var j := 0;
      while !held && j < |tx.inputs|
        invariant 0 <= j <= |tx.inputs|
        invariant held <==>
                    || tx.size > TX_MAX_SIZE
                    || exists i | 0 <= i < j :: Locked(now, tx, tx.inputs[i]) || tx.inputs[i].prev.hash in pendingTx
      {
        if Locked(now, tx, tx.inputs[j]) {
          held := true;
        }
        if tx.inputs[j].prev.hash in pendingTx {
          held := true;
        }
        j := j + 1;
      }
    }

    method AddOutputs(tx: Tx, bal: nat) returns (bal': nat)
      requires tx.hash in allTx && allTx[tx.hash] == tx
      requires Distinct(utxos) && bal == Sum(allTx, utxos) && forall i | 0 <= i < |utxos| :: utxos[i].hash != tx.hash
      modifies this`utxos, this`usedAddrs
      ensures Distinct(utxos) && Elements(utxos) == old(Elements(utxos)) + OwnedOutputs(tx, allAddrs)
      ensures bal' == Sum(allTx, utxos)
      ensures usedAddrs == old(usedAddrs) + OutputAddrs(tx)
    {
      hide Elements, OwnedUpTo, AddrsUpTo, Sum, Distinct;
      bal' := bal;
      OutputsUpTo(tx, allAddrs);
      for j := 0 to |tx.outputs|
        invariant Distinct(utxos) && bal' == Sum(allTx, utxos)
        invariant forall i | 0 <= i < |utxos| :: utxos[i].hash == tx.hash ==> utxos[i].n < j
        invariant Elements(utxos) == old(Elements(utxos)) + OwnedUpTo(tx, allAddrs, j)
        invariant usedAddrs == old(usedAddrs) + AddrsUpTo(tx, j)
      {
        UpToStep(tx, allAddrs, j);
        if tx.outputs[j].address != "" {
          usedAddrs := usedAddrs + {tx.outputs[j].address};
          if tx.outputs[j].address in allAddrs {
            AppendElems(utxos, Utxo(tx.hash, j));
            AppendCoin(allTx, utxos, tx, j);
            utxos := utxos + [Utxo(tx.hash, j)];
            bal' := bal' + tx.outputs[j].amount;
          }
        }
      }
    }

    /** Checks the entire list of unspent outputs against everything spent so far. */
    method Sweep(bal: nat) returns (bal': nat)
      requires Distinct(utxos) && bal == Sum(allTx, utxos)
      modifies this`utxos
      ensures Distinct(utxos) && Elements(utxos) == old(Elements(utxos)) - spentOutputs
      ensures bal' == Sum(allTx, utxos)
    {
      bal' := bal;
      var j := |utxos|;
      while j > 0
        invariant 0 <= j <= |utxos| && Distinct(utxos) && bal' == Sum(allTx, utxos)
        invariant Elements(utxos) <= old(Elements(utxos)) && old(Elements(utxos)) - spentOutputs <= Elements(utxos)
        invariant forall i | j <= i < |utxos| :: utxos[i] !in spentOutputs
      {
        if utxos[j - 1] in spentOutputs {
          SumRemove(allTx, utxos, j - 1);
          bal' := bal' - Amount(allTx, utxos[j - 1]);
          utxos := Without(utxos, j - 1);
        }
        j := j - 1;
      }
    }

    /** One transaction of the walk. */
    method WalkOne(now: Now, i: nat, bal: nat, ghost st: seq<Status>) returns (bal': nat, ghost st': seq<Status>)
      requires Registered() && i == |st| < |transactions| && Walked(now, st, bal)
      modifies this`utxos, this`balanceHist, this`spentOutputs, this`invalidTx, this`pendingTx, this`usedAddrs
      modifies this`totalSent, this`totalReceived
      ensures |st'| == i + 1 && Walked(now, st', bal')
    {
      hide Inputs, OwnedOutputs, OutputAddrs, Elements, Distinct, Sum, Spent, Owned, Used, Hashes;
      hide Settled, StatusOk, Locked, History, Gains, Losses, Last;
      ghost var txs := transactions;
      var tx := transactions[i];
      bal' := bal;
      var taken := false;
      if tx.Unconfirmed() {
        taken := SpendsTaken(tx);
      }
      if taken {
        st' := st + [Invalid];
        Reject(now, i, bal, st);
        return;
      }
      AddInputs(tx);
      var held := false;
      if tx.Unconfirmed() {
        held := HeldBack(now, tx);
      }
      if held {
        st' := st + [Pending];
        Hold(now, i, bal, st);
        return;
      }
      st' := st + [Accepted];
      StatusSnoc(now, txs, st, Accepted, allAddrs);
      bal' := Accept(i, bal', st);
      HistorySnoc(allTx, txs, st, Accepted, allAddrs, balanceHist, utxos);
      TotalsSnoc(balanceHist, bal');
      balanceHist := balanceHist + [bal'];
    }

    /** An invalid transaction only joins those. */
    method Reject(now: Now, i: nat, bal: nat, ghost st: seq<Status>)
      requires i == |st| < |transactions| && Walked(now, st, bal) && IsInvalid(transactions, st, i)
      modifies this`balanceHist, this`invalidTx
      ensures Walked(now, st + [Invalid], bal)
    {
      hide Inputs, OwnedOutputs, OutputAddrs, Elements, Distinct, Sum, Spent, Owned, Used, Hashes;
      hide Settled, StatusOk, Locked, History, Gains, Losses, Last;
      StatusSnoc(now, transactions, st, Invalid, allAddrs);
      HistorySnoc(allTx, transactions, st, Invalid, allAddrs, balanceHist, utxos);
      TotalsSnoc(balanceHist, bal);
      invalidTx := invalidTx + {transactions[i].hash};
      balanceHist := balanceHist + [bal];
    }

    /** A pending transaction joins those once its inputs are spent. */
    method Hold(now: Now, i: nat, bal: nat, ghost st: seq<Status>)
      requires i == |st| < |transactions|
      requires StatusAt(now, transactions, st, i) == Pending && StatusOk(now, transactions, st)
      requires spentOutputs == Spent(transactions, st, i) + Inputs(transactions[i])
      requires invalidTx == Hashes(transactions, st, Invalid, i) && pendingTx == Hashes(transactions, st, Pending, i)
      requires Elements(utxos) == Unspent(transactions, st, allAddrs, i) && Distinct(utxos)
      requires bal == Sum(allTx, utxos) == Last(balanceHist) && usedAddrs == Used(transactions, st, i)
      requires totalReceived == Gains(balanceHist) && totalSent == Losses(balanceHist)
      requires History(allTx, transactions, st, allAddrs, balanceHist)
      modifies this`balanceHist, this`pendingTx
      ensures Walked(now, st + [Pending], bal)
    {
      hide Inputs, OwnedOutputs, OutputAddrs, Elements, Distinct, Sum, Spent, Owned, Used, Hashes;
      hide Settled, StatusOk, Locked, History, Gains, Losses, Last;
      StatusSnoc(now, transactions, st, Pending, allAddrs);
      HistorySnoc(allTx, transactions, st, Pending, allAddrs, balanceHist, utxos);
      TotalsSnoc(balanceHist, bal);
      pendingTx := pendingTx + {transactions[i].hash};
      balanceHist := balanceHist + [bal];
    }

    /** Credits an accepted transaction and debits whatever is now known to be spent. */
    method Accept(i: nat, bal: nat, ghost st: seq<Status>) returns (bal': nat)
      requires Registered() && i == |st| < |transactions|
      requires spentOutputs == Spent(transactions, st, i) + Inputs(transactions[i])
      requires Elements(utxos) == Unspent(transactions, st, allAddrs, i) && Distinct(utxos)
      requires bal == Sum(allTx, utxos)
      modifies this`utxos, this`usedAddrs, this`totalSent, this`totalReceived
      ensures Elements(utxos) ==
              Owned(transactions, st, allAddrs, i) + OwnedOutputs(transactions[i], allAddrs) - spentOutputs
      ensures Distinct(utxos) && bal' == Sum(allTx, utxos)
      ensures totalReceived == old(totalReceived) + (if bal < bal' then bal' - bal else 0)
      ensures totalSent == old(totalSent) + (if bal' < bal then bal - bal' else 0)
      ensures usedAddrs == old(usedAddrs) + OutputAddrs(transactions[i])
    {
      hide Inputs, OwnedOutputs, Elements, Distinct, Sum, Spent, Owned, Settled;
      OutputsAreNew(transactions, st, allAddrs, utxos);
      bal' := AddOutputs(transactions[i], bal);
      bal' := Sweep(bal');
      SpentGrows(transactions, st, Settled(st, i), i);
      if bal < bal' {
        totalReceived := totalReceived + (bal' - bal);
      }
      if bal' < bal {
        totalSent := totalSent + (bal - bal');
      }
    }

    /** Recomputes everything from the list of transactions.  `st` is the status of each. */
    method UpdateBalance(now: Now) returns (ghost st: seq<Status>)
      requires Registered()
      modifies this`utxos, this`balanceHist, this`spentOutputs, this`invalidTx, this`pendingTx, this`usedAddrs
      modifies this`totalSent, this`totalReceived, this`balance
      ensures |st| == |transactions| && Walked(now, st, balance)
      ensures balance == totalReceived - totalSent
    {
      hide Walked;
      utxos, balanceHist := [], [];
      spentOutputs, invalidTx, pendingTx, usedAddrs := {}, {}, {}, {};
      totalSent, totalReceived := 0, 0;
      var bal := 0;
      st := [];
      WalkedStart(now);
      for i := 0 to |transactions|
        invariant |st| == i && Walked(now, st, bal)
      {
        bal, st := WalkOne(now, i, bal, st);
      }
      balance := bal;
      GainsLessLosses(balanceHist);
      WalkedTotals(now, st, bal);
    }
  }

  /** The collections of a longer walk agree with those of a shorter one. */
  lemma {:induction false} StatusFrame(txs: seq<Tx>, st: seq<Status>, s: Status, addrs: set<Address>, n: nat)
    requires n <= |st| < |txs|
    ensures Spent(txs, st + [s], n) == Spent(txs, st, n)
    ensures Owned(txs, st + [s], addrs, n) == Owned(txs, st, addrs, n)
    ensures Hashes(txs, st + [s], Invalid, n) == Hashes(txs, st, Invalid, n)
    ensures Hashes(txs, st + [s], Pending, n) == Hashes(txs, st, Pending, n)
    ensures Used(txs, st + [s], n) == Used(txs, st, n)
    ensures Settled(st + [s], n) == Settled(st, n)
  {
    if n > 0 { StatusFrame(txs, st, s, addrs, n - 1); }
  }

  lemma StatusSnoc(now: Now, txs: seq<Tx>, st: seq<Status>, s: Status, addrs: set<Address>)
    requires StatusOk(now, txs, st) && |st| < |txs| && s == StatusAt(now, txs, st, |st|)
    ensures StatusOk(now, txs, st + [s])
    ensures var n := |st|;
            && Spent(txs, st + [s], n + 1) == Spent(txs, st, n) + (if s != Invalid then Inputs(txs[n]) else {})
            && Owned(txs, st + [s], addrs, n + 1) ==
               Owned(txs, st, addrs, n) + (if s == Accepted then OwnedOutputs(txs[n], addrs) else {})
            && Hashes(txs, st + [s], Invalid, n + 1) ==
               Hashes(txs, st, Invalid, n) + (if s == Invalid then {txs[n].hash} else {})
            && Hashes(txs, st + [s], Pending, n + 1) ==
               Hashes(txs, st, Pending, n) + (if s == Pending then {txs[n].hash} else {})
            && Used(txs, st + [s], n + 1) == Used(txs, st, n) + (if s == Accepted then OutputAddrs(txs[n]) else {})
            && Settled(st + [s], n + 1) == (if s == Accepted then n + 1 else Settled(st, n))
            && Spent(txs, st + [s], Settled(st, n)) == Spent(txs, st, Settled(st, n))
  {
    StatusSnocOk(now, txs, st, s);
    hide Inputs, OwnedOutputs, OutputAddrs, StatusOk, IsInvalid, IsPending;
    StatusFrame(txs, st, s, addrs, |st|);
    StatusFrame(txs, st, s, addrs, Settled(st, |st|));
  }

  lemma StatusSnocOk(now: Now, txs: seq<Tx>, st: seq<Status>, s: Status)
    requires StatusOk(now, txs, st) && |st| < |txs| && s == StatusAt(now, txs, st, |st|)
    ensures StatusOk(now, txs, st + [s])
  {
    hide StatusAt;
    var st' := st + [s];
    forall k | 0 <= k < |st'| ensures st'[k] == StatusAt(now, txs, st', k) {
      StatusAtFrame(now, txs, st, s, k);
      if k < |st| { assert st[k] == StatusAt(now, txs, st, k); }
    }
  }

  lemma StatusAtFrame(now: Now, txs: seq<Tx>, st: seq<Status>, s: Status, k: nat)
    requires k <= |st| < |txs|
    ensures StatusAt(now, txs, st + [s], k) == StatusAt(now, txs, st, k)
  {
    hide Spent, Hashes, Inputs, Locked;
    StatusFrame(txs, st, s, {}, k);
  }

  lemma {:induction false} SpentGrows(txs: seq<Tx>, st: seq<Status>, m: nat, n: nat)
    requires m <= n <= |st| && n <= |txs|
    ensures Spent(txs, st, m) <= Spent(txs, st, n)
  {
    if m < n { SpentGrows(txs, st, m, n - 1); }
  }

  lemma {:induction false} OwnedByEarlier(txs: seq<Tx>, st: seq<Status>, addrs: set<Address>, n: nat, u: Utxo)
    requires n <= |st| && n <= |txs|
    ensures u in Owned(txs, st, addrs, n) <==>
            exists k | 0 <= k < n :: st[k] == Accepted && u in OwnedOutputs(txs[k], addrs)
  {
    if n > 0 { OwnedByEarlier(txs, st, addrs, n - 1, u); }
  }

  /** No unspent output belongs to a transaction that has not been walked yet. */
  lemma OutputsAreNew(txs: seq<Tx>, st: seq<Status>, addrs: set<Address>, utxos: seq<Utxo>)
    requires |st| < |txs| && Elements(utxos) == Unspent(txs, st, addrs, |st|)
    requires forall i, j | 0 <= i < j < |txs| :: txs[i].hash != txs[j].hash
    ensures forall i | 0 <= i < |utxos| :: utxos[i].hash != txs[|st|].hash
  {
    forall i | 0 <= i < |utxos| ensures utxos[i].hash != txs[|st|].hash {
      assert utxos[i] in Elements(utxos);
      OwnedByEarlier(txs, st, addrs, |st|, utxos[i]);
    }
  }

  /** Among the first `j` outputs: those that pay the addresses, and the addresses paid. */
  ghost function OwnedUpTo(tx: Tx, addrs: set<Address>, j: nat): set<Utxo>
    requires j <= |tx.outputs|
  {
    set i | 0 <= i < j && tx.outputs[i].address != "" && tx.outputs[i].address in addrs :: Utxo(tx.hash, i)
  }

  ghost function AddrsUpTo(tx: Tx, j: nat): set<Address>
    requires j <= |tx.outputs|
  {
    set i | 0 <= i < j && tx.outputs[i].address != "" :: tx.outputs[i].address
  }

  lemma UpToStep(tx: Tx, addrs: set<Address>, j: nat)
    requires j < |tx.outputs|
    ensures AddrsUpTo(tx, j + 1) == AddrsUpTo(tx, j) +
              if tx.outputs[j].address != "" then {tx.outputs[j].address} else {}
    ensures OwnedUpTo(tx, addrs, j + 1) == OwnedUpTo(tx, addrs, j) +
              if tx.outputs[j].address != "" && tx.outputs[j].address in addrs then {Utxo(tx.hash, j)} else {}
  {
  }

  lemma OutputsUpTo(tx: Tx, addrs: set<Address>)
    ensures AddrsUpTo(tx, 0) == {} && OwnedUpTo(tx, addrs, 0) == {}
    ensures AddrsUpTo(tx, |tx.outputs|) == OutputAddrs(tx)
    ensures OwnedUpTo(tx, addrs, |tx.outputs|) == OwnedOutputs(tx, addrs)
  {
  }

  lemma AppendCoin(allTx: TxMap, utxos: seq<Utxo>, tx: Tx, j: nat)
    requires tx.hash in allTx && allTx[tx.hash] == tx && j < |tx.outputs| && Distinct(utxos)
    requires forall i | 0 <= i < |utxos| :: utxos[i].hash == tx.hash ==> utxos[i].n < j
    ensures Distinct(utxos + [Utxo(tx.hash, j)])
    ensures Sum(allTx, utxos + [Utxo(tx.hash, j)]) == Sum(allTx, utxos) + tx.outputs[j].amount
  {
    assert (utxos + [Utxo(tx.hash, j)])[..|utxos|] == utxos;
  }

  lemma AppendElems<T>(s: seq<T>, x: T)
    ensures Elements(s + [x]) == Elements(s) + {x}
  {
  }

  lemma HistorySnoc(allTx: TxMap, txs: seq<Tx>, st: seq<Status>, s: Status, addrs: set<Address>, hist: seq<nat>,
                    utxos: seq<Utxo>)
    requires |st| < |txs| && History(allTx, txs, st, addrs, hist)
    requires Distinct(utxos) && Elements(utxos) == Unspent(txs, st + [s], addrs, |st| + 1)
    ensures History(allTx, txs, st + [s], addrs, hist + [Sum(allTx, utxos)])
  {
    hide Distinct, Elements, Sum, Spent, Owned, Settled;
    var st', hist' := st + [s], hist + [Sum(allTx, utxos)];
    forall k, l: seq<Utxo> | 0 <= k < |st'| && Distinct(l) && Elements(l) == Unspent(txs, st', addrs, k + 1)
      ensures hist'[k] == Sum(allTx, l)
    {
      if k < |st| {
        StatusFrame(txs, st, s, addrs, k + 1);
        StatusFrame(txs, st, s, addrs, Settled(st, k + 1));
      } else {
        SumByElems(allTx, l, utxos);
      }
    }
  }

  // -------------------------------------------------- what the ledger guarantees

  lemma {:induction false} SpentByEarlier(txs: seq<Tx>, st: seq<Status>, n: nat, u: Utxo)
    requires n <= |st| && n <= |txs|
    ensures u in Spent(txs, st, n) <==> exists k | 0 <= k < n :: st[k] != Invalid && u in Inputs(txs[k])
  {
    if n > 0 { SpentByEarlier(txs, st, n - 1, u); }
  }

  lemma {:induction false} SettledBeforeAccepted(st: seq<Status>, n: nat, k: nat)
    requires n <= |st|
    ensures k < Settled(st, n) <==> exists m | k <= m < n :: st[m] == Accepted
  {
    if n > 0 { SettledBeforeAccepted(st, n - 1, k); }
  }

  /** An output is unspent exactly when an accepted transaction pays it to the wallet and no
      transaction that is not invalid, up to the last accepted one, spends it. */
  lemma UnspentMeaning(txs: seq<Tx>, st: seq<Status>, addrs: set<Address>, u: Utxo)
    requires |st| == |txs|
    ensures u in Unspent(txs, st, addrs, |txs|) <==>
            && (exists k | 0 <= k < |txs| :: st[k] == Accepted && u in OwnedOutputs(txs[k], addrs))
            && (forall k, m | 0 <= k <= m < |txs| && st[k] != Invalid && st[m] == Accepted :: u !in Inputs(txs[k]))
  {
    hide Inputs, OwnedOutputs, Spent, Owned, Settled;
    var n := |txs|;
    OwnedByEarlier(txs, st, addrs, n, u);
    SpentByEarlier(txs, st, Settled(st, n), u);
    forall k | 0 <= k < n && st[k] != Invalid
      ensures k < Settled(st, n) <==> exists m | k <= m < n :: st[m] == Accepted
    {
      SettledBeforeAccepted(st, n, k);
    }
  }

  /** Two transactions that are not invalid share an input only if the later one is confirmed. */
  lemma DoubleSpendIsConfirmed(now: Now, txs: seq<Tx>, st: seq<Status>, a: nat, b: nat, u: Utxo)
    requires StatusOk(now, txs, st) && a < b < |st|
    requires st[a] != Invalid && st[b] != Invalid && u in Inputs(txs[a]) && u in Inputs(txs[b])
    ensures !txs[b].Unconfirmed()
  {
    hide Inputs, IsPending, Spent;
    SpentByEarlier(txs, st, b, u);
    assert st[b] == StatusAt(now, txs, st, b);
  }

  lemma ConfirmedAccepted(now: Now, txs: seq<Tx>, st: seq<Status>, k: nat)
    requires StatusOk(now, txs, st) && k < |st| && !txs[k].Unconfirmed()
    ensures st[k] == Accepted
  {
    assert st[k] == StatusAt(now, txs, st, k);
  }

  /** When all transactions are confirmed, neither the unspent outputs nor the balance depends
      on the order of the list. */
  lemma OrderIrrelevant(now: Now, txs: seq<Tx>, st: seq<Status>, txs': seq<Tx>, st': seq<Status>, addrs: set<Address>,
                        allTx: TxMap, utxos: seq<Utxo>, utxos': seq<Utxo>)
    requires StatusOk(now, txs, st) && StatusOk(now, txs', st') && |st| == |txs| && |st'| == |txs'|
    requires Elements(txs) == Elements(txs') && forall k | 0 <= k < |txs| :: !txs[k].Unconfirmed()
    requires Distinct(utxos) && Distinct(utxos')
    requires Elements(utxos) == Unspent(txs, st, addrs, |txs|) && Elements(utxos') == Unspent(txs', st', addrs, |txs'|)
    ensures Elements(utxos) == Elements(utxos') && Sum(allTx, utxos) == Sum(allTx, utxos')
  {
    assert forall k | 0 <= k < |txs'| :: txs'[k] in Elements(txs');
    UnspentWithin(now, txs, st, txs', st', addrs);
    UnspentWithin(now, txs', st', txs, st, addrs);
    SumByElems(allTx, utxos, utxos');
  }

  lemma UnspentWithin(now: Now, txs: seq<Tx>, st: seq<Status>, txs': seq<Tx>, st': seq<Status>, addrs: set<Address>)
    requires StatusOk(now, txs, st) && StatusOk(now, txs', st') && |st| == |txs| && |st'| == |txs'|
    requires Elements(txs) == Elements(txs')
    requires forall k | 0 <= k < |txs| :: !txs[k].Unconfirmed()
    requires forall k | 0 <= k < |txs'| :: !txs'[k].Unconfirmed()
    ensures Unspent(txs, st, addrs, |txs|) <= Unspent(txs', st', addrs, |txs'|)
  {
    hide Inputs, OwnedOutputs, Unspent, StatusOk;
    forall k | 0 <= k < |txs| ensures st[k] == Accepted { ConfirmedAccepted(now, txs, st, k); }
    forall k | 0 <= k < |txs'| ensures st'[k] == Accepted { ConfirmedAccepted(now, txs', st', k); }
    forall u | u in Unspent(txs, st, addrs, |txs|) ensures u in Unspent(txs', st', addrs, |txs'|) {
      UnspentMeaning(txs, st, addrs, u);
      UnspentMeaning(txs', st', addrs, u);
      var k :| 0 <= k < |txs| && st[k] == Accepted && u in OwnedOutputs(txs[k], addrs);
      assert txs[k] in Elements(txs');
      var k' :| 0 <= k' < |txs'| && txs'[k'] == txs[k];
      forall i | 0 <= i < |txs'| ensures u !in Inputs(txs'[i]) {
        assert txs'[i] in Elements(txs);
        var i' :| 0 <= i' < |txs| && txs[i'] == txs'[i];
      }
    }
  }

  // --------------------------------------------------- spending what is unspent

  lemma {:induction false} HashedBy(txs: seq<Tx>, st: seq<Status>, s: Status, n: nat, h: Hash)
    requires n <= |st| && n <= |txs|
    ensures h in Hashes(txs, st, s, n) <==> exists k | 0 <= k < n :: st[k] == s && txs[k].hash == h
  {
    if n > 0 { HashedBy(txs, st, s, n - 1, h); }
  }

  lemma {:induction false} MoreTxs(txs: seq<Tx>, next: Tx, st: seq<Status>, n: nat)
    requires n <= |st| && n <= |txs|
    ensures Spent(txs + [next], st, n) == Spent(txs, st, n)
    ensures Hashes(txs + [next], st, Invalid, n) == Hashes(txs, st, Invalid, n)
  {
    if n > 0 { MoreTxs(txs, next, st, n - 1); }
  }

  /** A pending transaction after the last accepted one spends the output. */
  ghost predicate Reserved(txs: seq<Tx>, st: seq<Status>, u: Utxo)
    requires |st| == |txs|
  {
    exists k | Settled(st, |st|) <= k < |txs| :: st[k] == Pending && u in Inputs(txs[k])
  }

  /** An unspent output is in the spent set if and only if such a transaction spends it. */
  lemma UnspentButSpent(txs: seq<Tx>, st: seq<Status>, addrs: set<Address>, u: Utxo)
    requires |st| == |txs| && u in Unspent(txs, st, addrs, |txs|)
    ensures u in Spent(txs, st, |txs|) <==> Reserved(txs, st, u)
  {
    hide Inputs, Spent, Owned, Settled;
    var n := |txs|;
    SpentByEarlier(txs, st, n, u);
    SpentByEarlier(txs, st, Settled(st, n), u);
    forall k | Settled(st, n) <= k < n ensures st[k] != Accepted {
      SettledBeforeAccepted(st, n, k);
    }
  }

  /** An unspent output is not of an invalid transaction. */
  lemma UnspentNotInvalid(txs: seq<Tx>, st: seq<Status>, addrs: set<Address>, u: Utxo)
    requires |st| == |txs| && u in Unspent(txs, st, addrs, |txs|)
    requires forall i, j | 0 <= i < j < |txs| :: txs[i].hash != txs[j].hash
    ensures u.hash !in Hashes(txs, st, Invalid, |txs|)
  {
    hide Spent, Owned, Settled, Hashes;
    OwnedByEarlier(txs, st, addrs, |txs|, u);
    HashedBy(txs, st, Invalid, |txs|, u.hash);
  }

  /** A new transaction that spends unspent outputs is invalid if and only if one of them is reserved. */
  lemma NextIsInvalid(txs: seq<Tx>, st: seq<Status>, addrs: set<Address>, next: Tx)
    requires |st| == |txs| && next.Unconfirmed() && Inputs(next) <= Unspent(txs, st, addrs, |txs|)
    requires forall i, j | 0 <= i < j < |txs| :: txs[i].hash != txs[j].hash
    ensures IsInvalid(txs + [next], st, |txs|) <==> exists u | u in Inputs(next) :: Reserved(txs, st, u)
  {
    hide Inputs, Spent, Owned, Settled, Hashes, Unspent, Reserved;
    MoreTxs(txs, next, st, |txs|);
    forall u | u in Inputs(next)
      ensures u in Spent(txs, st, |txs|) <==> Reserved(txs, st, u)
      ensures u.hash !in Hashes(txs, st, Invalid, |txs|)
    {
      UnspentButSpent(txs, st, addrs, u);
      UnspentNotInvalid(txs, st, addrs, u);
    }
  }

  /** Such an output: a confirmed payment, spent by a transaction that is locked. */
  lemma ReservedAndUnspent(now: Now, a: Hash, b: Hash)
    requires a != b && now.time < UINT32_MAX
    ensures var pay := Tx(a, [], [Output("x", 1, 25)], 0, 0, 200);
            var locked := Tx(b, [Input(Utxo(a, 0), 0)], [], TX_UNCONFIRMED, UINT32_MAX, 200);
            var txs, st := [pay, locked], [Accepted, Pending];
            && StatusOk(now, txs, st)
            && Utxo(a, 0) in Unspent(txs, st, {"x"}, 2) && Reserved(txs, st, Utxo(a, 0))
  {
    var pay := Tx(a, [], [Output("x", 1, 25)], 0, 0, 200);
    var locked := Tx(b, [Input(Utxo(a, 0), 0)], [], TX_UNCONFIRMED, UINT32_MAX, 200);
    var txs, st := [pay, locked], [Accepted, Pending];
    assert Settled(st, 2) == Settled(st, 1) == 1;
    assert Utxo(a, 0) in OwnedOutputs(pay, {"x"});
    assert Owned(txs, st, {"x"}, 1) == OwnedOutputs(pay, {"x"});
    assert Inputs(pay) == {} && Spent(txs, st, 0) == {} && Spent(txs, st, 1) == {};
    assert locked.inputs[0].prev in Inputs(locked);
    assert Hashes(txs, st, Invalid, 1) == {} && Hashes(txs, st, Invalid, 0) == {};
    assert Locked(now, locked, locked.inputs[0]);
    assert StatusAt(now, txs, st, 0) == Accepted && StatusAt(now, txs, st, 1) == Pending;
  }
}
