/**
Building a transaction from many coins: when as many as fit do not pay for the outputs, the
last output is reduced to what those coins leave for it and the whole call is made again.

The fee is raised so that the wallet keeps a multiple of 100, which depends on the amount
paid.  The reduced amount therefore fits only if reducing it does not change that rounding.
*/
module Retries {
  import opened Collections
  import opened Transactions
  import opened CoinSelection
  import TxWire

  // ------------------------------------------------------------ adjusted outputs

  /** What the outputs before the last one pay. */
  function Others(outs: seq<Output>): nat {
    if outs == [] then 0 else OutputSum(outs[..|outs| - 1])
  }

  /** The outputs with the last one set so that they pay `a` in all. */
  function Paying(outs: seq<Output>, a: int): seq<Output> {
    if outs == [] then []
    else
      var n := |outs| - 1;
      outs[..n] + [outs[n].(amount := if a < Others(outs) then 0 else a - Others(outs))]
  }

  lemma PayingMeans(outs: seq<Output>, a: nat)
    requires outs != [] && Others(outs) <= a
    ensures |Paying(outs, a)| == |outs| && Others(Paying(outs, a)) == Others(outs)
    ensures OutputSum(Paying(outs, a)) == a && OutputBytes(Paying(outs, a)) == OutputBytes(outs)
  {
    var n := |outs| - 1;
    var last := outs[n].(amount := a - Others(outs));
    OutputsSnoc(outs[..n], last);
    OutputsSnoc(outs[..n], outs[n]);
    assert outs == outs[..n] + [outs[n]];
    assert Paying(outs, a)[..n] == outs[..n];
  }

  /** Sizes do not depend on amounts. */
  lemma SameSize(w: Wallet, ins: seq<Utxo>, outs: seq<Output>, outs': seq<Output>)
    requires |outs| == |outs'| && OutputBytes(outs) == OutputBytes(outs')
    ensures Size(Draft(ins, outs)) == Size(Draft(ins, outs')) && BaseFee(w, ins, outs) == BaseFee(w, ins, outs')
    ensures Oversize(ins, outs) <==> Oversize(ins, outs')
  {
  }

  lemma MoreIsLarger(a: seq<Utxo>, b: seq<Utxo>, outs: seq<Output>)
    requires |a| <= |b| && Oversize(a, outs)
    ensures Oversize(b, outs)
  {
    VarIntMonotone(|a|, |b|);
    hide OutputBytes, TxWire.VarIntSize;
  }

  // ------------------------------------------------------- as many coins as fit

  /** The first `m` coins fit into a transaction with these outputs, and one more do not. */
  ghost predicate Fitting(w: Wallet, outs: seq<Output>, m: nat) {
    var coins := Coins(w, w.utxos);
    0 < m < |coins| && !Oversize(coins[..m], outs) && Oversize(coins[..m + 1], outs)
  }

  function Kept(w: Wallet, m: nat): seq<Utxo> {
    var coins := Coins(w, w.utxos);
    if m <= |coins| then coins[..m] else coins
  }

  /** What the wallet keeps if the first `m` coins are spent. */
  function Remainder(w: Wallet, m: nat): int {
    w.balance - Sum(w.allTx, Kept(w, m))
  }

  lemma {:induction false} SumPositive(allTx: TxMap, us: seq<Utxo>)
    requires us != [] && Amount(allTx, us[0]) > 0
    ensures Sum(allTx, us) > 0
  {
    if |us| > 1 {
      SumPositive(allTx, us[..|us| - 1]);
    } else {
      assert Sum(allTx, us) == Sum(allTx, us[..0]) + Amount(allTx, us[0]);
    }
  }

  /** A coin that does not fit is worth something. */
  lemma SomethingRemains(w: Wallet, m: nat)
    requires w.balance == Sum(w.allTx, w.utxos) && m < |Coins(w, w.utxos)|
    ensures Remainder(w, m) > 0
  {
    CoinsHoldAll(w, w.utxos);
    var coins := Coins(w, w.utxos);
    hide Coins, Sum, Amount, Found;
    assert coins[m] in coins && coins[m..][0] == coins[m];
    assert coins == coins[..m] + coins[m..];
    SumConcat(w.allTx, coins[..m], coins[m..]);
    SumPositive(w.allTx, coins[m..]);
  }

  /** When a call is made again with as many outputs, the first coins that fit are to pay for them exactly. */
  lemma ReducedTo(w: Wallet, outs: seq<Output>, change: Output, next: seq<Output>, m: nat)
    requires Attempt(w, outs, change) == Again(next) && |next| == |outs| && |Selection(w, outs)| == m + 1
    ensures Fitting(w, outs, m) && outs != []
    ensures Others(outs) + Fee(w, Kept(w, m), outs) <= Sum(w.allTx, Kept(w, m))
    ensures next == Paying(outs, Sum(w.allTx, Kept(w, m)) - Fee(w, Kept(w, m), outs))
  {
    var ins := Selection(w, outs);
    var coins := Coins(w, w.utxos);
    SelectedIs(w, ins, outs);
    assert ins == coins[..m + 1] && ins[..m] == coins[..m];
    hide Coins, Oversize, Fee, Sum, OutputSum, Enough, MinOutput, RetryFunds, Selection;
    LastOf(outs);
    NothingFromNothing(w, outs);
    if m > 0 { assert !Oversize(coins[..m], outs); }
  }

  lemma LastOf(outs: seq<Output>)
    requires outs != []
    ensures OutputSum(outs) == Others(outs) + outs[|outs| - 1].amount
  {
  }

  lemma NothingFromNothing(w: Wallet, outs: seq<Output>)
    ensures Sum(w.allTx, []) == 0
  {
  }

  // -------------------------------------------------------------- the next call

  /** The fee of the kept coins when `r` more than their plain fee is left for it. */
  lemma FeeOfReduced(w: Wallet, outs: seq<Output>, m: nat, a: nat, r: nat)
    requires w.balance == Sum(w.allTx, w.utxos) && Fitting(w, outs, m) && outs != [] && Others(outs) <= a
    requires a + BaseFee(w, Kept(w, m), outs) + r == Sum(w.allTx, Kept(w, m))
    ensures Remainder(w, m) > 0
    ensures Fee(w, Kept(w, m), Paying(outs, a)) == BaseFee(w, Kept(w, m), outs) + (Remainder(w, m) + r) % 100
  {
    hide Sum, OutputSum, BaseFee, Oversize, Paying, Others, Fitting, Kept, Coins;
    KeptSome(w, outs, m);
    SomethingRemains(w, m);
    PayingMeans(outs, a);
    SameSize(w, Kept(w, m), outs, Paying(outs, a));
  }

  lemma KeptSome(w: Wallet, outs: seq<Output>, m: nat)
    requires Fitting(w, outs, m)
    ensures 0 < m < |Coins(w, w.utxos)| && |Kept(w, m)| == m
    ensures Kept(w, m + 1) != [] && Kept(w, m + 1)[..|Kept(w, m + 1)| - 1] == Kept(w, m)
  {
    hide Coins, Oversize;
  }

  lemma RoundsBack(x: nat, r: nat)
    requires r < 100
    ensures (x + r) % 100 == r <==> x % 100 == 0
  {
  }

  /** A call that stops with `m` coins at the latest builds its transaction. */
  lemma EnoughBuilds(w: Wallet, outs: seq<Output>, change: Output, m: nat)
    requires outs != [] && 0 < m < |Coins(w, w.utxos)| && Enough(w, Kept(w, m), outs) && !Oversize(Kept(w, m), outs)
    ensures Attempt(w, outs, change).Built?
  {
    var coins := Coins(w, w.utxos);
    var n := TakenFrom(w, coins, outs, 0);
    TakenStops(w, coins, outs, 0);
    hide Coins, TakenFrom;
    assert n <= m;
    if Oversize(coins[..n], outs) { MoreIsLarger(coins[..n], coins[..m], outs); }
    hide Oversize, Fee, Sum, OutputSum, MinOutput;
  }

  /** If what the wallet keeps is a multiple of 100, the call made in turn builds its transaction. */
  lemma RetrySettles(w: Wallet, outs: seq<Output>, change: Output, next: seq<Output>, m: nat)
    requires w.balance == Sum(w.allTx, w.utxos)
    requires Attempt(w, outs, change) == Again(next) && |next| == |outs|
    requires |Selection(w, outs)| == m + 1 && Remainder(w, m) % 100 == 0
    ensures Attempt(w, next, change).Built? && Returns(w, outs, change)
  {
    hide Attempt, Retried, Selection, Sum, Fitting, Fee, Paying, Others, Enough, Oversize, Kept, Remainder, Coins;
    ReducedTo(w, outs, change, next, m);
    var a := Sum(w.allTx, Kept(w, m)) - Fee(w, Kept(w, m), outs);
    FeeUnchanged(w, outs, m, a);
    ExactIsEnough(w, outs, m, a);
    EnoughBuilds(w, next, change, m);
    RetriedStep(w, outs, change, 0);
    RetriedNone(w, next, change);
    assert !Retried(w, outs, change, 1).Again?;
  }

  lemma FeeUnchanged(w: Wallet, outs: seq<Output>, m: nat, a: nat)
    requires w.balance == Sum(w.allTx, w.utxos) && Fitting(w, outs, m) && outs != [] && Others(outs) <= a
    requires a + Fee(w, Kept(w, m), outs) == Sum(w.allTx, Kept(w, m)) && Remainder(w, m) % 100 == 0
    ensures Fee(w, Kept(w, m), Paying(outs, a)) == Fee(w, Kept(w, m), outs)
  {
    hide Coins, Sum, Fitting, OutputSum, Fee, BaseFee, Paying;
    FeeBounds(w, Kept(w, m), outs);
    var r := Fee(w, Kept(w, m), outs) - BaseFee(w, Kept(w, m), outs);
    FeeOfReduced(w, outs, m, a, r);
    RoundsBack(Remainder(w, m), r);
  }

  lemma ExactIsEnough(w: Wallet, outs: seq<Output>, m: nat, a: nat)
    requires Fitting(w, outs, m) && outs != [] && Others(outs) <= a
    requires a + Fee(w, Kept(w, m), Paying(outs, a)) == Sum(w.allTx, Kept(w, m))
    ensures 0 < m < |Coins(w, w.utxos)|
    ensures Enough(w, Kept(w, m), Paying(outs, a)) && !Oversize(Kept(w, m), Paying(outs, a))
  {
    PayingMeans(outs, a);
    SameSize(w, Kept(w, m), outs, Paying(outs, a));
    assert |Kept(w, m)| == m;
    hide Coins, Sum, OutputSum, Fee, Oversize, Paying;
  }

  lemma RetriedStep(w: Wallet, outs: seq<Output>, change: Output, n: nat)
    requires Attempt(w, outs, change).Again?
    ensures Retried(w, outs, change, n + 1) == Retried(w, Attempt(w, outs, change).outs, change, n)
  {
    hide Attempt;
  }

  lemma RetriedNone(w: Wallet, outs: seq<Output>, change: Output)
    ensures Retried(w, outs, change, 0) == Attempt(w, outs, change)
  {
    hide Attempt;
  }

  // ---------------------------------------------------------- calls without end

  /**
  The coins that fit leave the last output more than a minimum, fewer coins do not pay as
  much, and the wallet can pay for a transaction with all its coins: amounts up to the
  rounding aside, so that no reduction changes any of it.
  */
  ghost predicate Plain(w: Wallet, outs: seq<Output>, m: nat) {
    && w.balance == Sum(w.allTx, w.utxos) && outs != [] && Fitting(w, outs, m)
    && var have, base := Sum(w.allTx, Kept(w, m)), BaseFee(w, Kept(w, m), outs);
    && Others(outs) + base + 198 + MinOutput(w.feePerKb) < have
    && have + TxFee(w.feePerKb, RetrySize(w, outs)) <= w.balance + base
    && forall k | 0 < k < m :: Poorer(w, outs, m, k)
  }

  function RetrySize(w: Wallet, outs: seq<Output>): nat {
    10 + |w.utxos| * TX_INPUT_SIZE + (|outs| + 1) * TX_OUTPUT_SIZE
  }

  /** The first `k` coins do not pay what the first `m` do. */
  ghost predicate Poorer(w: Wallet, outs: seq<Output>, m: nat, k: nat) {
    Sum(w.allTx, Kept(w, k)) + BaseFee(w, Kept(w, m), outs) + 99 <
    Sum(w.allTx, Kept(w, m)) + BaseFee(w, Kept(w, k), outs)
  }

  /** The outputs that leave the fee of the kept coins and `r` more. */
  function Leaving(w: Wallet, outs: seq<Output>, m: nat, r: nat): seq<Output> {
    Paying(outs, Sum(w.allTx, Kept(w, m)) - BaseFee(w, Kept(w, m), outs) - r)
  }

  /** One coin more than fits is selected when neither those that fit nor fewer are enough. */
  lemma OneTooMany(w: Wallet, outs: seq<Output>, m: nat)
    requires Fitting(w, outs, m) && forall k | 0 < k <= m :: !Enough(w, Kept(w, k), outs)
    ensures Selection(w, outs) == Kept(w, m + 1)
  {
    var coins := Coins(w, w.utxos);
    hide Coins, Enough;
    forall i | 0 < i < m + 1 ensures !Enough(w, coins[..i], outs) && !Oversize(coins[..i], outs) {
      assert coins[..i] == Kept(w, i);
      if Oversize(coins[..i], outs) { MoreIsLarger(coins[..i], coins[..m], outs); }
    }
    hide Oversize;
    TakenIs(w, coins, outs, 0, m + 1);
  }

  /** Fewer coins are not enough. */
  lemma FewerNotEnough(w: Wallet, outs: seq<Output>, m: nat, r: nat, k: nat)
    requires Plain(w, outs, m) && r < 100 && 0 < k < m
    ensures !Enough(w, Kept(w, k), Leaving(w, outs, m, r))
  {
    var have, base := Sum(w.allTx, Kept(w, m)), BaseFee(w, Kept(w, m), outs);
    hide Sum, OutputSum, BaseFee, MinOutput, Paying, Others, TxFee, Kept, Fitting, Fee;
    var a := have - base - r;
    PayingMeans(outs, a);
    SameSize(w, Kept(w, k), outs, Paying(outs, a));
    assert Poorer(w, outs, m, k);
    FeeBounds(w, Kept(w, k), Paying(outs, a));
  }

  /** The kept coins are not enough when their rounding changes. */
  lemma KeptNotEnough(w: Wallet, outs: seq<Output>, m: nat, r: nat)
    requires Plain(w, outs, m) && r < 100 && Remainder(w, m) % 100 != 0
    ensures Remainder(w, m) > 0
    ensures Fee(w, Kept(w, m), Leaving(w, outs, m, r)) ==
            BaseFee(w, Kept(w, m), outs) + (Remainder(w, m) + r) % 100
    ensures !Enough(w, Kept(w, m), Leaving(w, outs, m, r))
  {
    var have, base := Sum(w.allTx, Kept(w, m)), BaseFee(w, Kept(w, m), outs);
    hide Sum, OutputSum, BaseFee, MinOutput, Paying, Others, TxFee, Kept, Fitting, Fee, Remainder, Poorer;
    var a := have - base - r;
    PayingMeans(outs, a);
    FeeOfReduced(w, outs, m, a, r);
    RoundsBack(Remainder(w, m), r);
    MinOutputLarge(w.feePerKb);
  }

  lemma MinOutputLarge(feePerKb: nat)
    ensures MinOutput(feePerKb) > 99
  {
  }

  /** Every such call makes another one of the kind. */
  lemma AgainAndAgain(w: Wallet, outs: seq<Output>, change: Output, m: nat, r: nat)
    requires Plain(w, outs, m) && r < 100 && Remainder(w, m) % 100 != 0
    ensures Remainder(w, m) > 0
    ensures Attempt(w, Leaving(w, outs, m, r), change) == Again(Leaving(w, outs, m, (Remainder(w, m) + r) % 100))
  {
    var have, base := Sum(w.allTx, Kept(w, m)), BaseFee(w, Kept(w, m), outs);
    var a := have - base - r;
    var now := Leaving(w, outs, m, r);
    KeptNotEnough(w, outs, m, r);
    forall k | 0 < k <= m ensures !Enough(w, Kept(w, k), now) {
      if k < m { FewerNotEnough(w, outs, m, r, k); }
    }
    StillFitting(w, outs, m, a);
    OneTooMany(w, now, m);
    ReducedAgain(w, outs, m, r);
    hide Plain, Enough, Coins, Sum, Selection;
  }

  lemma StillFitting(w: Wallet, outs: seq<Output>, m: nat, a: nat)
    requires Fitting(w, outs, m) && outs != [] && Others(outs) <= a
    ensures Fitting(w, Paying(outs, a), m)
  {
    PayingMeans(outs, a);
    var coins := Coins(w, w.utxos);
    SameSize(w, coins[..m], outs, Paying(outs, a));
    SameSize(w, coins[..m + 1], outs, Paying(outs, a));
    hide Coins, Oversize, Paying;
  }

  lemma ReducedAgain(w: Wallet, outs: seq<Output>, m: nat, r: nat)
    requires Plain(w, outs, m) && r < 100 && Remainder(w, m) > 0
    requires Fee(w, Kept(w, m), Leaving(w, outs, m, r)) ==
             BaseFee(w, Kept(w, m), outs) + (Remainder(w, m) + r) % 100
    ensures Kept(w, m + 1) != []
    ensures Smaller(w, Kept(w, m + 1), Leaving(w, outs, m, r)) ==
            Again(Leaving(w, outs, m, (Remainder(w, m) + r) % 100))
  {
    hide Sum, OutputSum, BaseFee, MinOutput, Fee, Fitting, TxFee, Poorer, Kept, Coins, Paying, Others;
    KeptSome(w, outs, m);
    var have, base := Sum(w.allTx, Kept(w, m)), BaseFee(w, Kept(w, m), outs);
    var now, a, b := Leaving(w, outs, m, r), have - base - r, have - base - (Remainder(w, m) + r) % 100;
    PayingMeans(outs, a);
    LastOf(now);
    PayingFrom(outs, a, b);
  }

  /** Taking the difference from the last output. */
  lemma PayingFrom(outs: seq<Output>, a: nat, b: nat)
    requires outs != [] && Others(outs) <= a && Others(outs) <= b
    ensures var now := Paying(outs, a);
            var n := |now| - 1;
            n >= 0 && now[n].amount + b >= a &&
            Paying(outs, b) == now[..n] + [now[n].(amount := now[n].amount + b - a)]
  {
    hide OutputSum, Others;
  }

  lemma {:induction false} NeverEnds(w: Wallet, outs: seq<Output>, change: Output, m: nat, r: nat, n: nat)
    requires Plain(w, outs, m) && r < 100 && Remainder(w, m) % 100 != 0
    ensures Retried(w, Leaving(w, outs, m, r), change, n).Again?
    decreases n
  {
    hide Plain, Attempt, Retried, Leaving, Remainder;
    AgainAndAgain(w, outs, change, m, r);
    var r' := (Remainder(w, m) + r) % 100;
    if n == 0 {
      RetriedNone(w, Leaving(w, outs, m, r), change);
    } else {
      RetriedStep(w, Leaving(w, outs, m, r), change, n - 1);
      NeverEnds(w, outs, change, m, r', n - 1);
    }
  }

  /** A call that reduces the last output comes to an end if and only if what the wallet keeps beside the
      coins that fit is a multiple of 100. */
  lemma RetriesEnd(w: Wallet, outs: seq<Output>, change: Output, next: seq<Output>, m: nat)
    requires Attempt(w, outs, change) == Again(next) && |next| == |outs|
    requires |Selection(w, outs)| == m + 1 && Plain(w, outs, m)
    ensures Returns(w, outs, change) <==> Remainder(w, m) % 100 == 0
  {
    hide Attempt, Retried, Selection, Fitting, Leaving, Remainder, Fee, Paying, Others, Kept, Sum, Plain;
    ReducedTo(w, outs, change, next, m);
    if Remainder(w, m) % 100 == 0 {
      PlainBalance(w, outs, m);
      RetrySettles(w, outs, change, next, m);
    } else {
      var r := FirstReduction(w, outs, m, next);
      forall n: nat ensures Retried(w, outs, change, n).Again? {
        if n == 0 {
          RetriedNone(w, outs, change);
        } else {
          RetriedStep(w, outs, change, n - 1);
          NeverEnds(w, outs, change, m, r, n - 1);
        }
      }
    }
  }

  lemma PlainBalance(w: Wallet, outs: seq<Output>, m: nat)
    requires Plain(w, outs, m)
    ensures w.balance == Sum(w.allTx, w.utxos)
  {
    hide Sum, Fitting, BaseFee, Kept, Poorer, TxFee, MinOutput, Others;
  }

  lemma FirstReduction(w: Wallet, outs: seq<Output>, m: nat, next: seq<Output>) returns (r: nat)
    requires Plain(w, outs, m) && Others(outs) + Fee(w, Kept(w, m), outs) <= Sum(w.allTx, Kept(w, m))
    requires next == Paying(outs, Sum(w.allTx, Kept(w, m)) - Fee(w, Kept(w, m), outs))
    ensures r < 100 && next == Leaving(w, outs, m, r)
  {
    hide Plain, Coins, Sum, OutputSum, Fee, BaseFee, Paying;
    FeeBounds(w, Kept(w, m), outs);
    r := Fee(w, Kept(w, m), outs) - BaseFee(w, Kept(w, m), outs);
  }

  // ------------------------------------------------------------------ an example

  const COIN: nat := 100000001

  /** A wallet of 700 outputs worth a little more than a coin each, at the least fee rate. */
  function ManyCoins(): Wallet {
    var tx := Tx(0, [], seq(700, _ => Output("", COIN, 25)), 0, 0, 0);
    Wallet(seq(700, i requires i >= 0 => Utxo(0, i)), map[0 := tx], 700 * COIN, 0)
  }

  lemma ManyCoinsAre(w: Wallet)
    requires w == ManyCoins()
    ensures |w.utxos| == 700 && w.feePerKb == 0 && w.balance == 700 * COIN
    ensures forall i | 0 <= i < 700 :: Found(w.allTx, w.utxos[i]) && Amount(w.allTx, w.utxos[i]) == COIN
  {
  }

  lemma {:induction false} FirstCoins(w: Wallet, k: nat)
    requires w == ManyCoins() && k <= 700
    ensures |w.utxos| == 700 && Coins(w, w.utxos[..k]) == w.utxos[..k]
    ensures Sum(w.allTx, w.utxos[..k]) == k * COIN && FoundCount(w, w.utxos[..k]) == k
  {
    ManyCoinsAre(w);
    hide ManyCoins, Found, Amount;
    if k > 0 {
      FirstCoins(w, k - 1);
      assert w.utxos[..k][..k - 1] == w.utxos[..k - 1];
      assert w.utxos[..k] == w.utxos[..k - 1] + [w.utxos[k - 1]];
    }
  }

  lemma KeptCoins(w: Wallet, k: nat)
    requires w == ManyCoins() && k <= 700
    ensures Coins(w, w.utxos) == w.utxos && |w.utxos| == 700 && w.balance == Sum(w.allTx, w.utxos) == 700 * COIN
    ensures |Kept(w, k)| == k && Sum(w.allTx, Kept(w, k)) == k * COIN && FoundCount(w, w.utxos) == 700
  {
    ManyCoinsAre(w);
    FirstCoins(w, 700);
    FirstCoins(w, k);
    hide ManyCoins, Coins, Sum, FoundCount;
    assert w.utxos[..700] == w.utxos;
  }

  lemma FeesAndSizes(w: Wallet, k: nat, to: Address, a: nat)
    requires w == ManyCoins() && 0 < k <= 700
    ensures BaseFee(w, Kept(w, k), Payment(to, a)) == StandardFee(FullSize(k)) >= TX_FEE_PER_KB
    ensures Oversize(Kept(w, k), Payment(to, a)) <==> FullSize(k) > TX_MAX_SIZE
  {
    ManyCoinsAre(w);
    KeptCoins(w, k);
    hide ManyCoins, Coins, Sum, FoundCount, Kept, Size, FullSize;
    PaymentSize(Kept(w, k), to, a);
    NoRate(FullSize(k));
    assert FullSize(k) > 0 by { FullSizePositive(k); }
  }

  lemma NoRate(size: nat)
    ensures TxFee(0, size) == StandardFee(size) && (size > 0 ==> StandardFee(size) >= TX_FEE_PER_KB)
  {
  }

  lemma FullSizePositive(k: nat)
    ensures FullSize(k) > 0
  {
  }

  lemma ManyCoinsMaximum(w: Wallet)
    requires w == ManyCoins()
    ensures MaxOutput(w) == 700 * COIN - 104000000 && MinOutput(w.feePerKb) == TX_MIN_OUTPUT_AMOUNT
    ensures TxFee(w.feePerKb, 103678) == 104000000
  {
    KeptCoins(w, 700);
    ManyCoinsAre(w);
    hide ManyCoins, Coins, Sum, FoundCount, Kept;
    NoRate(103680);
    NoRate(103678);
  }

  lemma ManyCoinsPlain(w: Wallet, to: Address, outs: seq<Output>)
    requires w == ManyCoins() && outs == Payment(to, MaxOutput(w))
    ensures Plain(w, outs, 675)
  {
    hide ManyCoins, Coins, Sum, FoundCount, TxFee, BaseFee, Oversize, MinOutput, MaxOutput, Poorer, Fitting, OutputSum;
    KeptCoins(w, 675);
    FeesAndSizes(w, 675, to, MaxOutput(w));
    ManyCoinsMaximum(w);
    ManyCoinsFit(w, to, MaxOutput(w));
    assert Others(outs) == 0 by { NothingElse(to, MaxOutput(w)); }
    forall k | 0 < k < 675 ensures Poorer(w, outs, 675, k) {
      ManyCoinsPoorer(w, to, MaxOutput(w), k);
    }
  }

  lemma NothingElse(to: Address, a: nat)
    ensures Others(Payment(to, a)) == 0
  {
  }

  lemma ManyCoinsFit(w: Wallet, to: Address, a: nat)
    requires w == ManyCoins()
    ensures Fitting(w, Payment(to, a), 675)
  {
    FeesAndSizes(w, 675, to, a);
    FeesAndSizes(w, 676, to, a);
    KeptCoins(w, 676);
    hide ManyCoins, Coins, Sum, FoundCount, TxFee, BaseFee, Oversize, Payment;
    assert Kept(w, 675) == Coins(w, w.utxos)[..675] && Kept(w, 676) == Coins(w, w.utxos)[..676];
  }

  lemma ManyCoinsPoorer(w: Wallet, to: Address, a: nat, k: nat)
    requires w == ManyCoins() && 0 < k < 675
    ensures Poorer(w, Payment(to, a), 675, k)
  {
    hide ManyCoins, Sum, BaseFee, Payment, Kept, Coins, FoundCount, Oversize;
    KeptCoins(w, k);
    KeptCoins(w, 675);
    FeesAndSizes(w, k, to, a);
    FeesAndSizes(w, 675, to, a);
  }

  lemma ManyCoinsReduce(w: Wallet, to: Address, change: Output, outs: seq<Output>) returns (next: seq<Output>)
    requires w == ManyCoins() && outs == Payment(to, MaxOutput(w))
    ensures |Selection(w, outs)| == 676 && Attempt(w, outs, change) == Again(next) && |next| == |outs|
  {
    ManyCoinsPlain(w, to, outs);
    ManyCoinsMaximum(w);
    hide ManyCoins, Coins, Sum, TxFee, BaseFee, Oversize, MinOutput, MaxOutput, Kept, Fee, OutputSum, Selection;
    PaymentSize([], to, MaxOutput(w));
    forall k | 0 < k <= 675 ensures !Enough(w, Kept(w, k), outs) {
      KeptCoins(w, k);
      FeeBounds(w, Kept(w, k), outs);
    }
    OneTooMany(w, outs, 675);
    KeptCoins(w, 676);
    KeptCoins(w, 675);
    FeesAndSizes(w, 675, to, MaxOutput(w));
    KeptSome(w, outs, 675);
    FeeBounds(w, Kept(w, 675), outs);
    next := Attempt(w, outs, change).outs;
  }

  /** Sending everything from that wallet calls itself without end. */
  lemma SendingAllNeverReturns(to: Address, change: Output)
    ensures var w := ManyCoins();
            w.balance == Sum(w.allTx, w.utxos) && MaxOutput(w) > 0 && !Returns(w, Payment(to, MaxOutput(w)), change)
  {
    var w := ManyCoins();
    hide ManyCoins, Plain, Selection, Attempt, Returns, Coins, Sum, Kept;
    KeptCoins(w, 675);
    ManyCoinsMaximum(w);
    var outs := Payment(to, MaxOutput(w));
    hide MaxOutput, Payment;
    ManyCoinsPlain(w, to, outs);
    var next := ManyCoinsReduce(w, to, change, outs);
    RetriesEnd(w, outs, change, next, 675);
  }
}
