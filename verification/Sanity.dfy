/** Checks on transactions and block bodies that need no chain (src/primitives/tx.js,
    src/primitives/block.js). */
module Sanity {
  import opened Primitives
  import opened Ledger
  import opened Merkle

  const MAX_BLOCK_SIZE: nat := 1000000

  /** Every value and every running total is an amount of money. */
  predicate ValuesOk(outs: seq<Output>) {
    && (forall i :: 0 <= i < |outs| ==> InRange(outs[i].value))
    && (forall k :: 0 < k <= |outs| ==> InRange(OutputTotal(outs, k)))
  }

  predicate NoNullInput(ins: seq<Input>) {
    forall i :: 0 <= i < |ins| ==> ins[i].prevout != NullOutpoint
  }

  predicate TxPasses(tx: Tx) {
    && tx.inputs != [] && tx.outputs != []
    && ValuesOk(tx.outputs) && NoDuplicateInputs(tx.inputs)
    && (tx.IsCoinbase() || NoNullInput(tx.inputs))
  }

  predicate BodyPasses(txs: seq<Tx>) {
    && 0 < |txs| <= MAX_BLOCK_SIZE && !Malleated(Leaves(txs))
    && (forall i :: 0 <= i < |txs| ==> TxPasses(txs[i]) && (txs[i].IsCoinbase() <==> i == 0))
  }

  method CheckSanity(tx: Tx) returns (ok: bool)
    ensures ok <==> TxPasses(tx)
  {
    if |tx.inputs| == 0 {
      return false;
    }
    if |tx.outputs| == 0 {
      return false;
    }
    var total := 0;
    for i := 0 to |tx.outputs|
      invariant total == OutputTotal(tx.outputs, i) && ValuesUpTo(tx.outputs, i)
    {
      var value := tx.outputs[i].value;
      if value < 0 || value > MAX_MONEY {
        return false;
      }
      total := total + value;
      assert total == OutputTotal(tx.outputs, i + 1);
      if total < 0 || total > MAX_MONEY {
        return false;
      }
    }
    var prevouts: set<Outpoint> := {};
    for i := 0 to |tx.inputs|
      invariant forall op :: op in prevouts <==> exists j :: 0 <= j < i && tx.inputs[j].prevout == op
      invariant NoDuplicateInputs(tx.inputs[..i])
    {
      var key := tx.inputs[i].prevout;
      if key in prevouts {
        return false;
      }
      prevouts := prevouts + {key};
    }
    assert tx.inputs[..|tx.inputs|] == tx.inputs;
    if !tx.IsCoinbase() {
      for i := 0 to |tx.inputs|
        invariant NoNullInput(tx.inputs[..i])
      {
        if tx.inputs[i].prevout == NullOutpoint {
          return false;
        }
      }
      assert tx.inputs[..|tx.inputs|] == tx.inputs;
    }
    return true;
  }

  predicate ValuesUpTo(outs: seq<Output>, n: nat)
    requires n <= |outs|
  {
    && (forall i :: 0 <= i < n ==> InRange(outs[i].value))
    && (forall k :: 0 < k <= n ==> InRange(OutputTotal(outs, k)))
  }

  /** The body must not be one that another list of transactions could stand for, starts with the one
      coinbase, and every transaction passes. */
  method CheckBody(txs: seq<Tx>) returns (ok: bool)
    ensures ok <==> BodyPasses(txs)
  {
    hide TxPasses, Malleated;
    var root := CreateMerkleRoot(txs);
    if root.None? {
      return false;
    }
    if |txs| == 0 || |txs| > MAX_BLOCK_SIZE {
      return false;
    }
    if !txs[0].IsCoinbase() {
      return false;
    }
    for i := 0 to |txs|
      invariant forall j :: 0 <= j < i ==> TxPasses(txs[j]) && (txs[j].IsCoinbase() <==> j == 0)
    {
      if i > 0 && txs[i].IsCoinbase() {
        return false;
      }
      var valid := CheckSanity(txs[i]);
      if !valid {
        return false;
      }
    }
    return true;
  }

  /** A body that passes is one the ledger can take. */
  lemma PassingBody(txs: seq<Tx>)
    requires BodyPasses(txs)
    ensures BodyOk(txs)
  {
    hide Malleated;
  }

  /** Two bodies that pass and build the same root list the same transactions in the same order, so
      the root in a header stands for one body only. */
  lemma RootStandsForOneBody(a: seq<Tx>, b: seq<Tx>)
    requires BodyPasses(a) && BodyPasses(b) && Root(Leaves(a)) == Root(Leaves(b))
    ensures |a| == |b| && forall i :: 0 <= i < |a| ==> a[i].txid == b[i].txid
  {
    HeaderPinsTransactions(a, b);
  }
}
