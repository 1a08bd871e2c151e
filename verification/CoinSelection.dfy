/**
Coin selection: building an unsigned transaction for requested outputs, and the largest
amount a wallet says it can send.

Coins are taken in the order of the unspent list until the fee for what is selected is
met exactly or with at least a minimum output to spare.  Amounts are unbounded integers,
so sums are those of the source as long as they fit 64 bits.
*/
module CoinSelection {
  import opened Collections
  import opened Transactions
  import Ledger
  import TxWire

  const TX_FEE_PER_KB: nat := 1000000
  const TX_OUTPUT_SIZE: nat := 34
  const TX_INPUT_SIZE: nat := 148
  const TX_MIN_OUTPUT_AMOUNT: nat := TX_FEE_PER_KB * 3 * (TX_OUTPUT_SIZE + TX_INPUT_SIZE) / 1000
  const MIN_FEE_PER_KB: nat := (TX_FEE_PER_KB * 1000 + 190) / 191

  /** An unsigned transaction. */
  datatype Draft = Draft(inputs: seq<Utxo>, outputs: seq<Output>)

  /** What one call comes to; `Again` is the call it makes in turn, for smaller outputs. */
  datatype Outcome = Built(tx: Draft) | Short | Again(outs: seq<Output>) | OutOfBounds

  datatype Wallet = Wallet(utxos: seq<Utxo>, allTx: TxMap, balance: nat, feePerKb: nat)

  // ------------------------------------------------------------ sizes and fees

  function OutputSize(o: Output): nat {
    8 + TxWire.VarIntSize(o.scriptLen) + o.scriptLen
  }

  function OutputBytes(outs: seq<Output>): nat {
    if outs == [] then 0 else OutputBytes(outs[..|outs| - 1]) + OutputSize(outs[|outs| - 1])
  }

  function OutputSum(outs: seq<Output>): nat {
    if outs == [] then 0 else OutputSum(outs[..|outs| - 1]) + outs[|outs| - 1].amount
  }

  lemma OutputsSnoc(outs: seq<Output>, o: Output)
    ensures OutputBytes(outs + [o]) == OutputBytes(outs) + OutputSize(o)
    ensures OutputSum(outs + [o]) == OutputSum(outs) + o.amount
  {
    assert (outs + [o])[..|outs|] == outs;
  }

  /** The size of an unsigned transaction, its inputs estimated. */
  function Size(tx: Draft): nat {
    8 + TxWire.VarIntSize(|tx.inputs|) + TxWire.VarIntSize(|tx.outputs|) +
    TX_INPUT_SIZE * |tx.inputs| + OutputBytes(tx.outputs)
  }

  function RateFee(feePerKb: nat, size: nat): nat {
    ((Times(size, feePerKb) / 1000 + 99) / 100) * 100
  }

  function StandardFee(size: nat): nat {
    ((size + 999) / 1000) * TX_FEE_PER_KB
  }

  function Times(a: nat, b: nat): nat {
    a * b
  }

  function TxFee(feePerKb: nat, size: nat): nat {
    if RateFee(feePerKb, size) > StandardFee(size) then RateFee(feePerKb, size) else StandardFee(size)
  }

  lemma TimesMono(a: nat, b: nat, c: nat)
    requires a <= b
    ensures Times(a, c) <= Times(b, c)
  {
  }

  /** A larger transaction never costs less. */
  lemma FeeMonotone(feePerKb: nat, s: nat, t: nat)
    requires s <= t
    ensures TxFee(feePerKb, s) <= TxFee(feePerKb, t)
  {
    hide StandardFee;
    TimesMono(s, t, feePerKb);
    RoundUpMono(Times(s, feePerKb), Times(t, feePerKb));
    StandardMono(s, t);
  }

  lemma RoundUpMono(x: nat, y: nat)
    requires x <= y
    ensures ((x / 1000 + 99) / 100) * 100 <= ((y / 1000 + 99) / 100) * 100
  {
  }

  lemma StandardMono(s: nat, t: nat)
    requires s <= t
    ensures StandardFee(s) <= StandardFee(t)
  {
  }

  function MinOutput(feePerKb: nat): nat {
    var amount := (TX_MIN_OUTPUT_AMOUNT * feePerKb + MIN_FEE_PER_KB - 1) / MIN_FEE_PER_KB;
    if amount > TX_MIN_OUTPUT_AMOUNT then amount else TX_MIN_OUTPUT_AMOUNT
  }

  // --------------------------------------------------------------------- coins

  /** The entries that selection uses: found, and not worth zero. */
  function Coins(w: Wallet, us: seq<Utxo>): seq<Utxo> {
    if us == [] then []
    else
      var n := |us| - 1;
      Coins(w, us[..n]) + if Found(w.allTx, us[n]) && Amount(w.allTx, us[n]) > 0 then [us[n]] else []
  }

  function FoundCount(w: Wallet, us: seq<Utxo>): nat {
    if us == [] then 0
    else FoundCount(w, us[..|us| - 1]) + if Found(w.allTx, us[|us| - 1]) then 1 else 0
  }

  /** Skipping worthless entries loses no money. */
  lemma {:induction false} CoinsHoldAll(w: Wallet, us: seq<Utxo>)
    ensures Sum(w.allTx, Coins(w, us)) == Sum(w.allTx, us)
    ensures |Coins(w, us)| <= FoundCount(w, us)
    ensures forall u | u in Coins(w, us) :: u in us && Found(w.allTx, u) && Amount(w.allTx, u) > 0
  {
    if us != [] {
      var n := |us| - 1;
      CoinsHoldAll(w, us[..n]);
      SumSnoc(w.allTx, Coins(w, us[..n]), us[n]);
      assert us == us[..n] + [us[n]];
      assert Coins(w, us[..n]) + [] == Coins(w, us[..n]);
    }
  }

  lemma {:induction false} CoinsDistinct(w: Wallet, us: seq<Utxo>)
    requires Distinct(us)
    ensures Distinct(Coins(w, us))
  {
    if us != [] {
      var n := |us| - 1;
      CoinsDistinct(w, us[..n]);
      CoinsHoldAll(w, us[..n]);
      assert us[n] !in us[..n];
      assert Coins(w, us[..n]) + [] == Coins(w, us[..n]);
    }
  }

  lemma {:induction false} CoinsPrefix(w: Wallet, us: seq<Utxo>, i: nat)
    requires i <= |us|
    ensures Prefix(Coins(w, us[..i]), Coins(w, us))
    decreases |us|
  {
    if i == |us| {
      assert us[..i] == us;
    } else {
      var n := |us| - 1;
      assert us[..n][..i] == us[..i];
      CoinsPrefix(w, us[..n], i);
    }
  }

  lemma CoinsTake(w: Wallet, us: seq<Utxo>, i: nat)
    requires i < |us|
    ensures Coins(w, us[..i + 1]) ==
      Coins(w, us[..i]) + if Found(w.allTx, us[i]) && Amount(w.allTx, us[i]) > 0 then [us[i]] else []
  {
    assert us[..i + 1][..i] == us[..i];
  }

  // ----------------------------------------------------- what selection decides

  /** The fee with a change output, before rounding. */
  function BaseFee(w: Wallet, ins: seq<Utxo>, outs: seq<Output>): nat {
    TxFee(w.feePerKb, Size(Draft(ins, outs)) + TX_OUTPUT_SIZE)
  }

  /** The fee, raised to round what stays in the wallet to a multiple of 100 once a coin is selected. */
  function Fee(w: Wallet, ins: seq<Utxo>, outs: seq<Output>): nat {
    var need := OutputSum(outs) + BaseFee(w, ins, outs);
    BaseFee(w, ins, outs) + if ins != [] && w.balance > need then (w.balance - need) % 100 else 0
  }

  predicate Oversize(ins: seq<Utxo>, outs: seq<Output>) {
    Size(Draft(ins, outs)) + TX_OUTPUT_SIZE > TX_MAX_SIZE
  }

  /** Selection stops with these coins. */
  predicate Enough(w: Wallet, ins: seq<Utxo>, outs: seq<Output>) {
    var need := OutputSum(outs) + Fee(w, ins, outs);
    ins != [] && (Sum(w.allTx, ins) == need || Sum(w.allTx, ins) >= need + MinOutput(w.feePerKb))
  }

  /** No shorter selection was enough or too large. */
  ghost predicate Passed(w: Wallet, coins: seq<Utxo>, n: nat, outs: seq<Output>)
    requires n <= |coins| + 1
  {
    forall k | 0 < k < n :: !Enough(w, coins[..k], outs) && !Oversize(coins[..k], outs)
  }

  /** `ins` is where selection ends: the first prefix of the coins that is enough or too large, or all of them. */
  ghost predicate Selected(w: Wallet, ins: seq<Utxo>, outs: seq<Output>) {
    var coins := Coins(w, w.utxos);
    && Prefix(ins, coins)
    && Passed(w, coins, |ins|, outs)
    && (ins == coins || Enough(w, ins, outs) || (ins != [] && Oversize(ins, outs)))
  }

  /** How many of the coins selection takes when it has taken `k`. */
  function TakenFrom(w: Wallet, coins: seq<Utxo>, outs: seq<Output>, k: nat): (n: nat)
    requires k <= |coins|
    ensures k <= n <= |coins|
    decreases |coins| - k
  {
    if k == |coins| then k
    else if Enough(w, coins[..k + 1], outs) || Oversize(coins[..k + 1], outs) then k + 1
    else TakenFrom(w, coins, outs, k + 1)
  }

  function Selection(w: Wallet, outs: seq<Output>): seq<Utxo> {
    var coins := Coins(w, w.utxos);
    coins[..TakenFrom(w, coins, outs, 0)]
  }

  /** Selection ends in one way only. */
  lemma SelectedIs(w: Wallet, ins: seq<Utxo>, outs: seq<Output>)
    ensures Selected(w, ins, outs) <==> ins == Selection(w, outs)
  {
    assert !Enough(w, [], outs);
    hide Enough, Oversize, Coins;
    var coins := Coins(w, w.utxos);
    if Selected(w, ins, outs) {
      assert ins == coins[..|ins|];
      TakenIs(w, coins, outs, 0, |ins|);
    }
    TakenStops(w, coins, outs, 0);
  }

  lemma {:induction false} TakenIs(w: Wallet, coins: seq<Utxo>, outs: seq<Output>, k: nat, n: nat)
    requires k <= n <= |coins| && (k < n || n == |coins|)
    requires forall i | k < i < n :: !Enough(w, coins[..i], outs) && !Oversize(coins[..i], outs)
    requires n == |coins| || Enough(w, coins[..n], outs) || Oversize(coins[..n], outs)
    ensures TakenFrom(w, coins, outs, k) == n
    decreases n - k
  {
    hide Enough, Oversize;
    if k < n && k + 1 < n { TakenIs(w, coins, outs, k + 1, n); }
  }

  lemma {:induction false} TakenStops(w: Wallet, coins: seq<Utxo>, outs: seq<Output>, k: nat)
    requires k <= |coins|
    ensures var n := TakenFrom(w, coins, outs, k);
            && (n == |coins| || Enough(w, coins[..n], outs) || (coins[..n] != [] && Oversize(coins[..n], outs)))
            && forall i | k < i < n :: !Enough(w, coins[..i], outs) && !Oversize(coins[..i], outs)
    decreases |coins| - k
  {
    hide Enough, Oversize;
    if k < |coins| && !(Enough(w, coins[..k + 1], outs) || Oversize(coins[..k + 1], outs)) {
      TakenStops(w, coins, outs, k + 1);
    }
  }

  method MinOutputAmount(w: Wallet) returns (r: nat)
    ensures r == MinOutput(w.feePerKb)
    ensures r >= TX_MIN_OUTPUT_AMOUNT && r * MIN_FEE_PER_KB >= TX_MIN_OUTPUT_AMOUNT * w.feePerKb
  {
    r := (TX_MIN_OUTPUT_AMOUNT * w.feePerKb + MIN_FEE_PER_KB - 1) / MIN_FEE_PER_KB;
    CeilingCovers(TX_MIN_OUTPUT_AMOUNT * w.feePerKb, MIN_FEE_PER_KB);
    r := if r > TX_MIN_OUTPUT_AMOUNT then r else TX_MIN_OUTPUT_AMOUNT;
  }

  lemma CeilingCovers(x: nat, d: nat)
    requires d > 0
    ensures (x + d - 1) / d * d >= x
  {
    assert x + d - 1 == (x + d - 1) / d * d + (x + d - 1) % d;
  }

  method AddOutputs(outputs: seq<Output>) returns (tx: Draft, amount: nat)
    ensures tx == Draft([], outputs) && amount == OutputSum(outputs)
  {
    tx, amount := Draft([], []), 0;
    for i := 0 to |outputs|
      invariant tx == Draft([], outputs[..i]) && amount == OutputSum(outputs[..i])
    {
      assert outputs[..i + 1] == outputs[..i] + [outputs[i]];
      OutputsSnoc(outputs[..i], outputs[i]);
      tx := tx.(outputs := tx.outputs + [outputs[i]]);
      amount := amount + outputs[i].amount;
    }
    assert outputs[..|outputs|] == outputs;
  }

  lemma PassedStep(w: Wallet, coins: seq<Utxo>, ins: seq<Utxo>, outs: seq<Output>)
    requires Prefix(ins, coins) && Passed(w, coins, |ins|, outs)
    requires ins != [] ==> !Enough(w, ins, outs) && !Oversize(ins, outs)
    ensures Passed(w, coins, |ins| + 1, outs)
  {
    hide Enough, Oversize;
  }

  /** The fee after adding a change output, rounding off the rest of the balance. */
  method RoundedFee(w: Wallet, tx: Draft, amount: nat) returns (fee: nat)
    requires amount == OutputSum(tx.outputs) && tx.inputs != []
    ensures fee == Fee(w, tx.inputs, tx.outputs)
    ensures BaseFee(w, tx.inputs, tx.outputs) <= fee <= BaseFee(w, tx.inputs, tx.outputs) + 99
    ensures w.balance > amount + BaseFee(w, tx.inputs, tx.outputs) ==>
              w.balance >= amount + fee && (w.balance - amount - fee) % 100 == 0
  {
    hide TxFee, Size, OutputSum;
    fee := TxFee(w.feePerKb, Size(tx) + TX_OUTPUT_SIZE);
    assert fee == BaseFee(w, tx.inputs, tx.outputs);
    if w.balance > amount + fee {
      RoundOff(w.balance - (amount + fee));
      fee := fee + (w.balance - (amount + fee)) % 100;
    }
  }

  lemma RoundOff(x: nat)
    ensures 0 <= x % 100 <= x && (x - x % 100) % 100 == 0
  {
  }

  /** The selection loop. */
  method Select(w: Wallet, outs: seq<Output>, amount: nat, minAmount: nat)
    returns (tx: Draft, balance: nat, fee: nat, large: bool)
    requires amount == OutputSum(outs) && minAmount == MinOutput(w.feePerKb)
    ensures tx.outputs == outs && Selected(w, tx.inputs, outs)
    ensures large <==> tx.inputs != [] && Oversize(tx.inputs, outs)
    ensures var kept := if large then tx.inputs[..|tx.inputs| - 1] else tx.inputs;
            balance == Sum(w.allTx, kept) && fee == Fee(w, kept, outs)
  {
    hide TxFee, Size, MinOutput, OutputSum, Coins, Passed, Sum, Fee;
    ghost var coins := Coins(w, w.utxos);
    tx, balance, large := Draft([], outs), 0, false;
    fee := TxFee(w.feePerKb, Size(tx) + TX_OUTPUT_SIZE);
    CoinsNone(w, outs);
    FeeNone(w, outs);
    for i := 0 to |w.utxos|
      invariant tx.outputs == outs && tx.inputs == Coins(w, w.utxos[..i]) && Prefix(tx.inputs, coins)
      invariant balance == Sum(w.allTx, tx.inputs) && fee == Fee(w, tx.inputs, outs)
      invariant Passed(w, coins, |tx.inputs| + 1, outs)
      invariant tx.inputs != [] ==> !Oversize(tx.inputs, outs)
    {
      var u := w.utxos[i];
      CoinsTake(w, w.utxos, i);
      CoinsPrefix(w, w.utxos, i + 1);
      if Found(w.allTx, u) && Amount(w.allTx, u) != 0 {
        SumSnoc(w.allTx, tx.inputs, u);
        assert (tx.inputs + [u])[..|tx.inputs|] == tx.inputs;
        tx := tx.(inputs := tx.inputs + [u]);
        if Size(tx) + TX_OUTPUT_SIZE > TX_MAX_SIZE {
          large := true;
          return;
        }
        balance := balance + Amount(w.allTx, u);
        fee := RoundedFee(w, tx, amount);
        if balance == amount + fee || balance >= amount + fee + minAmount {
          return;
        }
        PassedStep(w, coins, tx.inputs, outs);
      }
    }
    assert w.utxos[..|w.utxos|] == w.utxos;
    PassedFewer(w, coins, |tx.inputs|, outs);
  }

  lemma FeeNone(w: Wallet, outs: seq<Output>)
    ensures Sum(w.allTx, []) == 0 && Fee(w, [], outs) == BaseFee(w, [], outs)
  {
  }

  lemma CoinsNone(w: Wallet, outs: seq<Output>)
    ensures Coins(w, w.utxos[..0]) == [] && Passed(w, Coins(w, w.utxos), 1, outs)
  {
  }

  lemma PassedFewer(w: Wallet, coins: seq<Utxo>, n: nat, outs: seq<Output>)
    requires n <= |coins| && Passed(w, coins, n + 1, outs)
    ensures Passed(w, coins, n, outs)
  {
    hide Enough, Oversize;
  }

  // -------------------------------------------------------------- the transaction

  /** What a caller relies on in a transaction built for `outs`. */
  ghost predicate Balanced(w: Wallet, outs: seq<Output>, change: Output, tx: Draft) {
    var fee := Sum(w.allTx, tx.inputs) - OutputSum(tx.outputs);
    // distinct coins of the wallet, each worth something
    && (Distinct(w.utxos) ==> Distinct(tx.inputs))
    && (forall u | u in tx.inputs :: u in w.utxos && Found(w.allTx, u) && Amount(w.allTx, u) > 0)
    // the requested outputs, and change only if it is worth having
    && (tx.outputs == outs ||
        exists rest: nat :: tx.outputs == outs + [change.(amount := rest)] && rest > MinOutput(w.feePerKb))
    // at least the fee for its own size, at most the rounding and a minimum output more
    && (|outs| <= 251 && change.scriptLen <= 25 ==> fee >= TxFee(w.feePerKb, Size(tx)))
    && fee <= BaseFee(w, tx.inputs, outs) + 99 + MinOutput(w.feePerKb)
  }

  /** The transaction for a finished selection: short of money, exact, or with change. */
  function Finish(w: Wallet, ins: seq<Utxo>, outs: seq<Output>, change: Output): Outcome {
    var need := OutputSum(outs) + Fee(w, ins, outs);
    if outs == [] || Sum(w.allTx, ins) < need then Short
    else if Sum(w.allTx, ins) - need > MinOutput(w.feePerKb) then
      Built(Draft(ins, outs + [change.(amount := Sum(w.allTx, ins) - need)]))
    else Built(Draft(ins, outs))
  }

  lemma FeeBounds(w: Wallet, ins: seq<Utxo>, outs: seq<Output>)
    ensures BaseFee(w, ins, outs) <= Fee(w, ins, outs) <= BaseFee(w, ins, outs) + 99
  {
    hide BaseFee, OutputSum;
  }

  /** A change output with a short script makes the transaction at most 34 bytes larger. */
  lemma ChangeSize(ins: seq<Utxo>, outs: seq<Output>, change: Output)
    requires |outs| <= 251 && change.scriptLen <= 25
    ensures Size(Draft(ins, outs + [change])) <= Size(Draft(ins, outs)) + TX_OUTPUT_SIZE
  {
    OutputsSnoc(outs, change);
    hide OutputBytes;
  }

  lemma FinishBalanced(w: Wallet, ins: seq<Utxo>, outs: seq<Output>, change: Output)
    requires Selected(w, ins, outs) && Finish(w, ins, outs, change).Built?
    ensures Balanced(w, outs, change, Finish(w, ins, outs, change).tx)
  {
    hide Passed, Enough, Oversize, Coins, Sum, OutputSum, Fee, BaseFee, MinOutput, Size, TxFee;
    if Distinct(w.utxos) { CoinsDistinct(w, w.utxos); }
    CoinsHoldAll(w, w.utxos);
    FeeBounds(w, ins, outs);
    var tx := Finish(w, ins, outs, change).tx;
    if tx.outputs != outs {
      var rest := change.(amount := Sum(w.allTx, ins) - OutputSum(outs) - Fee(w, ins, outs));
      OutputsSnoc(outs, rest);
      assert tx.outputs == outs + [rest];
    }
    if |outs| <= 251 && change.scriptLen <= 25 {
      BaseCoversSize(w, ins, outs, tx, change);
    }
  }

  lemma BaseCoversSize(w: Wallet, ins: seq<Utxo>, outs: seq<Output>, tx: Draft, change: Output)
    requires |outs| <= 251 && change.scriptLen <= 25 && tx.inputs == ins
    requires tx.outputs == outs || exists rest: nat :: tx.outputs == outs + [change.(amount := rest)]
    ensures TxFee(w.feePerKb, Size(tx)) <= BaseFee(w, ins, outs)
  {
    hide Size, TxFee;
    if tx.outputs == outs {
      assert tx == Draft(ins, outs);
    } else {
      var rest: nat :| tx.outputs == outs + [change.(amount := rest)];
      ChangeSize(ins, outs, change.(amount := rest));
      assert tx == Draft(ins, outs + [change.(amount := rest)]);
    }
    FeeMonotone(w.feePerKb, Size(tx), Size(Draft(ins, outs)) + TX_OUTPUT_SIZE);
  }

  // ---------------------------------------------------------------- smaller outputs

  /** The funds asked for before a smaller transaction is attempted. */
  function RetryFunds(w: Wallet, outs: seq<Output>): nat {
    OutputSum(outs) + TxFee(w.feePerKb, 10 + |w.utxos| * TX_INPUT_SIZE + (|outs| + 1) * TX_OUTPUT_SIZE)
  }

  /** The call made instead when the coins `ins` are too many: the last output less what the coins before
      the last one fall short, or, if too little of it would be left, the outputs without it. */
  function Smaller(w: Wallet, ins: seq<Utxo>, outs: seq<Output>): Outcome
    requires ins != []
  {
    var kept := ins[..|ins| - 1];
    var have, need := Sum(w.allTx, kept), OutputSum(outs) + Fee(w, kept, outs);
    if w.balance < RetryFunds(w, outs) then Short
    else if outs == [] then OutOfBounds
    else
      var n := |outs| - 1;
      if outs[n].amount + have > need + MinOutput(w.feePerKb) then
        Again(outs[..n] + [outs[n].(amount := outs[n].amount + have - need)])
      else Again(outs[..n])
  }

  /** What a call comes to by itself. */
  function Attempt(w: Wallet, outs: seq<Output>, change: Output): Outcome {
    var ins := Selection(w, outs);
    if ins != [] && Oversize(ins, outs) then Smaller(w, ins, outs) else Finish(w, ins, outs, change)
  }

  /** What a call comes to after at most `n` calls in turn. */
  function Retried(w: Wallet, outs: seq<Output>, change: Output, n: nat): Outcome
    decreases n
  {
    hide Attempt;
    var r := Attempt(w, outs, change);
    if n == 0 || !r.Again? then r else Retried(w, r.outs, change, n - 1)
  }

  /** The calls come to an end. */
  ghost predicate Returns(w: Wallet, outs: seq<Output>, change: Output) {
    exists n: nat :: !Retried(w, outs, change, n).Again?
  }

  /** The requested outputs, except that some at the end may be missing and the last one may pay another amount. */
  ghost predicate Cut(outs: seq<Output>, cut: seq<Output>) {
    && |cut| <= |outs|
    && (forall i | 0 <= i < |cut| - 1 :: cut[i] == outs[i])
    && (cut != [] ==> cut[|cut| - 1].(amount := 0) == outs[|cut| - 1].(amount := 0))
  }

  lemma CutOnce(w: Wallet, outs: seq<Output>, change: Output)
    requires Attempt(w, outs, change).Again?
    ensures Cut(outs, Attempt(w, outs, change).outs)
  {
    hide Selection, OutputSum, Fee, Sum, RetryFunds, MinOutput, Oversize;
  }

  lemma CutTwice(a: seq<Output>, b: seq<Output>, c: seq<Output>)
    requires Cut(a, b) && Cut(b, c)
    ensures Cut(a, c)
  {
  }

  /** The difference taken from the last output does not wrap: the coins before the last one do not cover
      what is needed and a minimum output more. */
  lemma ShortfallIsPositive(w: Wallet, ins: seq<Utxo>, outs: seq<Output>)
    requires Selected(w, ins, outs) && ins != []
    ensures var kept := ins[..|ins| - 1];
            Sum(w.allTx, kept) < OutputSum(outs) + Fee(w, kept, outs) + MinOutput(w.feePerKb)
  {
    hide Coins, Fee, OutputSum, Oversize;
    var kept := ins[..|ins| - 1];
    if kept != [] {
      assert kept == Coins(w, w.utxos)[..|kept|];
      assert !Enough(w, kept, outs);
    }
  }

  /** One call, up to the call it makes in turn. */
  method CreateAttempt(w: Wallet, outs: seq<Output>, change: Output) returns (r: Outcome)
    ensures r == Attempt(w, outs, change)
    ensures r.Built? ==> Balanced(w, outs, change, r.tx)
  {
    hide Selected, Balanced, OutputSum, Fee, MinOutput, Selection, Sum, Oversize;
    var tx, amount := AddOutputs(outs);
    var minAmount := MinOutputAmount(w);
    var balance, fee, large;
    tx, balance, fee, large := Select(w, outs, amount, minAmount);
    SelectedIs(w, tx.inputs, outs);
    if large {
      r := Reduce(w, outs, amount, balance, fee, minAmount, tx.inputs);
      return;
    }
    if |outs| < 1 || balance < amount + fee {
      r := Short;
    } else if balance - (amount + fee) > minAmount {
      r := Built(tx.(outputs := tx.outputs + [change.(amount := balance - (amount + fee))]));
    } else {
      r := Built(tx);
    }
    assert r == Finish(w, tx.inputs, outs, change);
    if r.Built? { FinishBalanced(w, tx.inputs, outs, change); }
  }

  method Reduce(w: Wallet, outs: seq<Output>, amount: nat, balance: nat, fee: nat, minAmount: nat,
                ghost ins: seq<Utxo>) returns (r: Outcome)
    requires Selected(w, ins, outs) && ins != [] && amount == OutputSum(outs) && minAmount == MinOutput(w.feePerKb)
    requires balance == Sum(w.allTx, ins[..|ins| - 1]) && fee == Fee(w, ins[..|ins| - 1], outs)
    ensures r == Smaller(w, ins, outs)
  {
    hide OutputSum, Fee, MinOutput, Sum, TxFee, Selected;
    ShortfallIsPositive(w, ins, outs);
    var n := |outs| - 1;
    if w.balance < amount +
         TxFee(w.feePerKb, 10 + |w.utxos| * TX_INPUT_SIZE + (|outs| + 1) * TX_OUTPUT_SIZE) {
      r := Short;
    } else if outs == [] {
      r := OutOfBounds;
    } else if outs[n].amount > amount + fee + minAmount - balance {
      r := Again(outs[..n] + [outs[n].(amount := outs[n].amount - (amount + fee - balance))]);
    } else {
      r := Again(outs[..n]);
    }
  }

  /**
  A transaction for the requested outputs, by calls in turn for smaller ones.  The calls
  end after `n`; `change` gives the change address.
  */
  method CreateTxForOutputs(w: Wallet, outs: seq<Output>, change: Output, ghost n: nat)
    returns (r: Outcome, ghost cut: seq<Output>)
    requires !Retried(w, outs, change, n).Again?
    ensures r == Retried(w, outs, change, n) && Cut(outs, cut)
    ensures r.Built? ==> Balanced(w, cut, change, r.tx)
    decreases n
  {
    hide Attempt, Balanced;
    r := CreateAttempt(w, outs, change);
    cut := outs;
    if r.Again? {
      CutOnce(w, outs, change);
      ghost var next := r.outs;
      r, cut := CreateTxForOutputs(w, r.outs, change, n - 1);
      CutTwice(outs, next, cut);
    }
  }

  // ------------------------------------------------------------------ sending all

  /** The size assumed for a transaction with `n` inputs and two typical outputs. */
  function FullSize(n: nat): nat {
    8 + TxWire.VarIntSize(n) + TX_INPUT_SIZE * n + TxWire.VarIntSize(2) + TX_OUTPUT_SIZE * 2
  }

  function MaxOutput(w: Wallet): nat {
    var total, fee := Sum(w.allTx, w.utxos), TxFee(w.feePerKb, FullSize(FoundCount(w, w.utxos)));
    if total > fee then total - fee else 0
  }

  method MaxOutputAmount(w: Wallet) returns (r: nat)
    ensures r == MaxOutput(w)
  {
    var amount, inCount, i := 0, 0, |w.utxos|;
    assert w.utxos[..i] == w.utxos;
    while i > 0
      invariant 0 <= i <= |w.utxos|
      invariant amount + Sum(w.allTx, w.utxos[..i]) == Sum(w.allTx, w.utxos)
      invariant inCount + FoundCount(w, w.utxos[..i]) == FoundCount(w, w.utxos)
    {
      var u := w.utxos[i - 1];
      assert w.utxos[..i][..i - 1] == w.utxos[..i - 1];
      if Found(w.allTx, u) {
        inCount := inCount + 1;
        amount := amount + w.allTx[u.hash].outputs[u.n].amount;
      }
      i := i - 1;
    }
    var size := 8 + TxWire.VarIntSize(inCount) + TX_INPUT_SIZE * inCount + TxWire.VarIntSize(2) + TX_OUTPUT_SIZE * 2;
    var fee := TxFee(w.feePerKb, size);
    r := if amount > fee then amount - fee else 0;
  }

  lemma VarIntMonotone(a: nat, b: nat)
    requires a <= b
    ensures TxWire.VarIntSize(a) <= TxWire.VarIntSize(b)
  {
  }

  /** One pay-to-pubkey-hash output. */
  function Payment(to: Address, amount: nat): seq<Output> {
    [Output(to, amount, 25)]
  }

  lemma PaymentSize(ins: seq<Utxo>, to: Address, amount: nat)
    ensures Size(Draft(ins, Payment(to, amount))) + TX_OUTPUT_SIZE == FullSize(|ins|)
    ensures OutputSum(Payment(to, amount)) == amount
  {
    OutputsSnoc([], Output(to, amount, 25));
    assert [] + [Output(to, amount, 25)] == Payment(to, amount);
  }

  /** Paying the maximum leaves enough for the fee of a transaction with every coin. */
  lemma AllCoinsSuffice(w: Wallet, coins: seq<Utxo>, to: Address)
    requires w.balance == Sum(w.allTx, w.utxos) && MaxOutput(w) > 0 && coins == Coins(w, w.utxos)
    ensures Sum(w.allTx, coins) >= MaxOutput(w) + Fee(w, coins, Payment(to, MaxOutput(w)))
  {
    hide TxFee, Sum, Coins, FoundCount, Size, FullSize, Payment, OutputSum;
    CoinsHoldAll(w, w.utxos);
    PaymentSize(coins, to, MaxOutput(w));
    FullSizeMonotone(|coins|, FoundCount(w, w.utxos));
    FeeMonotone(w.feePerKb, FullSize(|coins|), FullSize(FoundCount(w, w.utxos)));
    var base := BaseFee(w, coins, Payment(to, MaxOutput(w)));
    assert MaxOutput(w) + base <= w.balance;
  }

  lemma FullSizeMonotone(a: nat, b: nat)
    requires a <= b
    ensures FullSize(a) <= FullSize(b)
  {
    VarIntMonotone(a, b);
    hide TxWire.VarIntSize;
  }

  /** A selection that stops because it is enough, or holds every coin, is not short. */
  lemma SpendAllFinishes(w: Wallet, ins: seq<Utxo>, to: Address, change: Output)
    requires w.balance == Sum(w.allTx, w.utxos) && MaxOutput(w) > 0
    requires Selected(w, ins, Payment(to, MaxOutput(w))) && !(ins != [] && Oversize(ins, Payment(to, MaxOutput(w))))
    ensures Finish(w, ins, Payment(to, MaxOutput(w)), change).Built?
  {
    hide Passed, Coins, Fee, MinOutput, Sum, MaxOutput, Size;
    var outs := Payment(to, MaxOutput(w));
    PaymentSize(ins, to, MaxOutput(w));
    if ins == Coins(w, w.utxos) {
      AllCoinsSuffice(w, ins, to);
    }
  }

  /**
  Sending the maximum succeeds: in a wallet whose balance is the sum of its unspent
  outputs and whose all-coins transaction fits, paying a positive maximum to one
  pay-to-pubkey-hash output builds a transaction.
  */
  method SpendAll(w: Wallet, to: Address, change: Output) returns (amount: nat, r: Outcome)
    requires w.balance == Sum(w.allTx, w.utxos)
    ensures amount == MaxOutput(w) && r == Attempt(w, Payment(to, amount), change)
    ensures amount > 0 && FullSize(|Coins(w, w.utxos)|) <= TX_MAX_SIZE ==>
              r.Built? && Balanced(w, Payment(to, amount), change, r.tx)
  {
    amount := MaxOutputAmount(w);
    r := CreateAttempt(w, Payment(to, amount), change);
    if amount > 0 && FullSize(|Coins(w, w.utxos)|) <= TX_MAX_SIZE {
      hide Finish, Balanced, MaxOutput, FullSize, Coins, Sum, Oversize, Selection, Selected;
      var ins := Selection(w, Payment(to, amount));
      SelectedIs(w, ins, Payment(to, amount));
      FitsSoFar(w, ins, to, amount);
      SpendAllFinishes(w, ins, to, change);
    }
  }

  /** The same once the ledger has been recomputed: its balance is the sum of its unspent outputs. */
  method SpendAllAfterUpdate(ledger: Ledger.Wallet, now: Ledger.Now, feePerKb: nat, to: Address, change: Output)
    returns (w: Wallet, amount: nat, r: Outcome, ghost st: seq<Ledger.Status>)
    requires ledger.Registered()
    modifies ledger`utxos, ledger`balanceHist, ledger`spentOutputs, ledger`invalidTx, ledger`pendingTx
    modifies ledger`usedAddrs, ledger`totalSent, ledger`totalReceived, ledger`balance
    ensures w == Wallet(ledger.utxos, ledger.allTx, ledger.balance, feePerKb)
    ensures |st| == |ledger.transactions| && ledger.Walked(now, st, ledger.balance)
    ensures amount == MaxOutput(w) && r == Attempt(w, Payment(to, amount), change)
    ensures amount > 0 && FullSize(|Coins(w, w.utxos)|) <= TX_MAX_SIZE ==>
              r.Built? && Balanced(w, Payment(to, amount), change, r.tx) && Distinct(r.tx.inputs) &&
              forall u | u in r.tx.inputs :: u in Ledger.Unspent(ledger.transactions, st, ledger.allAddrs, |st|)
  {
    st := ledger.UpdateBalance(now);
    w := Wallet(ledger.utxos, ledger.allTx, ledger.balance, feePerKb);
    amount, r := SpendAll(w, to, change);
  }

  lemma FitsSoFar(w: Wallet, ins: seq<Utxo>, to: Address, amount: nat)
    requires Selected(w, ins, Payment(to, amount)) && FullSize(|Coins(w, w.utxos)|) <= TX_MAX_SIZE
    ensures !Oversize(ins, Payment(to, amount))
  {
    hide Passed, Coins, Enough, FullSize, Size;
    PaymentSize(ins, to, amount);
    FullSizeMonotone(|ins|, |Coins(w, w.utxos)|);
  }
}
