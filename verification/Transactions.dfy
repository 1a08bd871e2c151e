/**
The wallet's transactions: what the ledger reads of them and coin selection spends.
*/
module Transactions {
  type Hash = nat
  type Address = string

  const TX_UNCONFIRMED: nat := 0x7FFF_FFFF
  const TX_MAX_SIZE: nat := 100000

  /** A reference to output `n` of the transaction with the given hash. */
  datatype Utxo = Utxo(hash: Hash, n: nat)
  datatype Input = Input(prev: Utxo, sequence: nat)
  datatype Output = Output(address: Address, amount: nat, scriptLen: nat)

  datatype Tx = Tx(hash: Hash, inputs: seq<Input>, outputs: seq<Output>, blockHeight: nat, lockTime: nat, size: nat) {
    predicate Unconfirmed() {
      blockHeight == TX_UNCONFIRMED
    }
  }

  type TxMap = map<Hash, Tx>

  /** The output is one of a registered transaction. */
  predicate Found(allTx: TxMap, u: Utxo) {
    u.hash in allTx && u.n < |allTx[u.hash].outputs|
  }

  function Amount(allTx: TxMap, u: Utxo): nat {
    if Found(allTx, u) then allTx[u.hash].outputs[u.n].amount else 0
  }

  function Sum(allTx: TxMap, utxos: seq<Utxo>): nat {
    if utxos == [] then 0 else Sum(allTx, utxos[..|utxos| - 1]) + Amount(allTx, utxos[|utxos| - 1])
  }

  lemma SumSnoc(allTx: TxMap, utxos: seq<Utxo>, u: Utxo)
    ensures Sum(allTx, utxos + [u]) == Sum(allTx, utxos) + Amount(allTx, u)
  {
    assert (utxos + [u])[..|utxos|] == utxos;
  }

  lemma {:induction false} SumConcat(allTx: TxMap, a: seq<Utxo>, b: seq<Utxo>)
    ensures Sum(allTx, a + b) == Sum(allTx, a) + Sum(allTx, b)
  {
    if b == [] {
      assert a + b == a;
    } else {
      var n := |b| - 1;
      assert (a + b)[..|a + b| - 1] == a + b[..n];
      SumConcat(allTx, a, b[..n]);
    }
  }
}
