/** The figures kept beside the coins: their number, their total value and the address index. */
module Totals {
  import opened Primitives
  import opened Ledger

  function Drop(coins: Coins, op: Outpoint): (r: Coins)
    requires op in coins
    ensures r.Keys == coins.Keys - {op}
    ensures |r.Keys| == |coins.Keys| - 1
  {
    coins - {op}
  }

  ghost function SumOver(coins: Coins, ops: set<Outpoint>): int
    requires ops <= coins.Keys
  {
    if ops == {} then 0
    else
      var op :| op in ops;
      coins[op].output.value + SumOver(coins, ops - {op})
  }

  /** What a set of coins is worth. */
  ghost function TotalValue(coins: Coins): int {
    SumOver(coins, coins.Keys)
  }

  lemma {:induction false} SumWithout(coins: Coins, ops: set<Outpoint>, op: Outpoint)
    requires op in ops && ops <= coins.Keys
    ensures SumOver(coins, ops) == coins[op].output.value + SumOver(coins, ops - {op})
  {
    var first :| first in ops && SumOver(coins, ops) == coins[first].output.value + SumOver(coins, ops - {first});
    if first != op {
      SumWithout(coins, ops - {first}, op);
      SumWithout(coins, ops - {op}, first);
      assert ops - {first} - {op} == ops - {op} - {first};
    }
  }

  lemma {:induction false} SumAgrees(a: Coins, b: Coins, ops: set<Outpoint>)
    requires ops <= a.Keys && ops <= b.Keys
    requires forall op :: op in ops ==> a[op] == b[op]
    ensures SumOver(a, ops) == SumOver(b, ops)
  {
    if ops != {} {
      var op :| op in ops;
      SumAgrees(a, b, ops - {op});
      SumWithout(a, ops, op);
      SumWithout(b, ops, op);
    }
  }

  lemma TotalValueWithout(coins: Coins, op: Outpoint)
    requires op in coins
    ensures TotalValue(coins) == coins[op].output.value + TotalValue(Drop(coins, op))
  {
    SumWithout(coins, coins.Keys, op);
    SumAgrees(coins, Drop(coins, op), coins.Keys - {op});
  }

  lemma TotalValueWith(coins: Coins, op: Outpoint, coin: Coin)
    requires op !in coins
    ensures TotalValue(coins[op := coin]) == TotalValue(coins) + coin.output.value
    ensures |coins[op := coin].Keys| == |coins.Keys| + 1
  {
    TotalValueWithout(coins[op := coin], op);
    assert Drop(coins[op := coin], op) == coins;
  }

  function AddressOf(o: Output): Option<Addr> {
    if o.Spendable? then o.addr else None
  }

  type AddrIndex = set<(Addr, Outpoint)>

  predicate Indexed(coins: Coins, a: Addr, op: Outpoint) {
    op in coins && AddressOf(coins[op].output) == Some(a)
  }

  /** The address index that belongs to a set of coins. */
  function IndexOf(coins: Coins): AddrIndex {
    set op | op in coins && AddressOf(coins[op].output).Some? :: (AddressOf(coins[op].output).value, op)
  }

  function Entry(a: Option<Addr>, op: Outpoint): AddrIndex {
    if a.Some? then {(a.value, op)} else {}
  }

  lemma IndexMembers(coins: Coins)
    ensures forall a: Addr, op :: (a, op) in IndexOf(coins) <==> Indexed(coins, a, op)
  {
    forall a: Addr, op | Indexed(coins, a, op) ensures (a, op) in IndexOf(coins) {
      assert AddressOf(coins[op].output).Some?;
    }
  }

  lemma IndexWith(coins: Coins, op: Outpoint, coin: Coin)
    requires op !in coins
    ensures IndexOf(coins[op := coin]) == IndexOf(coins) + Entry(AddressOf(coin.output), op)
  {
    IndexMembers(coins);
    IndexMembers(coins[op := coin]);
  }

  lemma IndexWithout(coins: Coins, op: Outpoint)
    requires op in coins
    ensures IndexOf(Drop(coins, op)) == IndexOf(coins) - Entry(AddressOf(coins[op].output), op)
  {
    IndexMembers(coins);
    IndexMembers(Drop(coins, op));
  }

  // ----- conservation of value

  /** Value sent to unspendable outputs: it leaves the ledger. */
  function Burned(outs: seq<Output>, k: nat): int
    requires k <= |outs|
  {
    if k == 0 then 0 else Burned(outs, k - 1) + if outs[k - 1].Unspendable? then outs[k - 1].value else 0
  }

  function BurnedBy(txs: seq<Tx>): int {
    if txs == [] then 0
    else BurnedBy(txs[..|txs| - 1]) + Burned(txs[|txs| - 1].outputs, |txs[|txs| - 1].outputs|)
  }

  lemma {:induction false} OutputsValue(coins: Coins, tx: Tx, h: int, k: nat)
    requires k <= |tx.outputs| && Fresh(coins, tx.txid)
    ensures TotalValue(AddOutputs(coins, tx, h, k)) + Burned(tx.outputs, k) == TotalValue(coins) + OutputTotal(tx.outputs, k)
  {
    if k > 0 {
      OutputsValue(coins, tx, h, k - 1);
      AddOutputsShape(coins, tx, h, k - 1);
      if tx.outputs[k - 1].Spendable? {
        TotalValueWith(AddOutputs(coins, tx, h, k - 1), Outpoint(tx.txid, k - 1), CoinOf(tx, k - 1, h));
      }
    }
  }

  function SpendFirst(coins: Coins, ins: seq<Input>, k: nat): Coins
    requires k <= |ins|
  {
    coins - Prevouts(ins[..k])
  }

  lemma SpendNone(coins: Coins, ins: seq<Input>)
    ensures SpendFirst(coins, ins, 0) == coins
  {}

  lemma SpendStep(coins: Coins, ins: seq<Input>, k: nat)
    requires CanSpend(coins, ins) && NoDuplicateInputs(ins) && k < |ins|
    ensures ins[k].prevout in SpendFirst(coins, ins, k)
    ensures SpendFirst(coins, ins, k + 1) == Drop(SpendFirst(coins, ins, k), ins[k].prevout)
  {
    assert Prevouts(ins[..k + 1]) == Prevouts(ins[..k]) + {ins[k].prevout};
  }

  lemma SpendStepValue(coins: Coins, ins: seq<Input>, k: nat)
    requires CanSpend(coins, ins) && NoDuplicateInputs(ins) && k < |ins|
    ensures TotalValue(SpendFirst(coins, ins, k)) == TotalValue(SpendFirst(coins, ins, k + 1)) + SpentCoins(coins, ins)[k].output.value
  {
    SpendStep(coins, ins, k);
    TotalValueWithout(SpendFirst(coins, ins, k), ins[k].prevout);
  }

  lemma {:induction false} SpendValue(coins: Coins, ins: seq<Input>, k: nat)
    requires CanSpend(coins, ins) && NoDuplicateInputs(ins) && k <= |ins|
    ensures TotalValue(SpendFirst(coins, ins, k)) + CoinTotal(SpentCoins(coins, ins), k) == TotalValue(coins)
  {
    if k == 0 {
      SpendNone(coins, ins);
    } else {
      SpendValue(coins, ins, k - 1);
      SpendStepValue(coins, ins, k - 1);
    }
  }

  /** Connecting conserves value exactly: what the coins are worth afterwards, plus what was
      burned and what was left as fees, is what they were worth before plus the coinbase. */
  lemma {:induction false} ConnectConservesValue(coins: Coins, txs: seq<Tx>, h: int)
    requires FreshBlock(coins, txs) && ConnectTxs(coins, txs, h).Some?
    requires forall i :: 0 <= i < |txs| ==> NoDuplicateInputs(txs[i].inputs)
    ensures var c := ConnectTxs(coins, txs, h).value;
      TotalValue(c.coins) + BurnedBy(txs) + c.fees
        == TotalValue(coins) + if txs == [] then 0 else OutputTotal(txs[0].outputs, |txs[0].outputs|)
    decreases |txs|
  {
    if txs != [] {
      var n := |txs| - 1;
      var p := ConnectTxs(coins, txs[..n], h).value;
      FreshPrefix(coins, txs, n);
      ConnectConservesValue(coins, txs[..n], h);
      StaysFresh(coins, txs[..n], h, txs[n].txid);
      var mid := p.coins;
      if n > 0 {
        SpendValue(p.coins, txs[n].inputs, |txs[n].inputs|);
        assert txs[n].inputs[..|txs[n].inputs|] == txs[n].inputs;
        mid := SpendFirst(p.coins, txs[n].inputs, |txs[n].inputs|);
      }
      OutputsValue(mid, txs[n], h, |txs[n].outputs|);
    }
  }

  lemma {:induction false} BurnedNonNegative(outs: seq<Output>, k: nat)
    requires k <= |outs| && NonNegative(outs)
    ensures Burned(outs, k) >= 0
  {
    if k > 0 { BurnedNonNegative(outs, k - 1); }
  }

  lemma {:induction false} BurnedByNonNegative(txs: seq<Tx>)
    requires forall i :: 0 <= i < |txs| ==> NonNegative(txs[i].outputs)
    ensures BurnedBy(txs) >= 0
    decreases |txs|
  {
    if txs != [] {
      BurnedByNonNegative(txs[..|txs| - 1]);
      BurnedNonNegative(txs[|txs| - 1].outputs, |txs[|txs| - 1].outputs|);
    }
  }

  // ----- one transaction's share of the figures

  function SpendableCount(outs: seq<Output>, k: nat): nat
    requires k <= |outs|
  {
    if k == 0 then 0 else SpendableCount(outs, k - 1) + if outs[k - 1].Spendable? then 1 else 0
  }

  function SpendableValue(outs: seq<Output>, k: nat): int
    requires k <= |outs|
  {
    if k == 0 then 0 else SpendableValue(outs, k - 1) + if outs[k - 1].Spendable? then outs[k - 1].value else 0
  }

  /** Index entries of the first `k` outputs. */
  function OutIndex(tx: Tx, k: nat): AddrIndex
    requires k <= |tx.outputs|
  {
    if k == 0 then {} else OutIndex(tx, k - 1) + Entry(AddressOf(tx.outputs[k - 1]), Outpoint(tx.txid, k - 1))
  }

  /** Index entries of the coins behind the first `k` inputs. */
  function InIndex(ins: seq<Input>, spent: seq<Coin>, k: nat): AddrIndex
    requires k <= |ins| == |spent|
  {
    if k == 0 then {} else InIndex(ins, spent, k - 1) + Entry(AddressOf(spent[k - 1].output), ins[k - 1].prevout)
  }

  lemma {:induction false} AddCount(coins: Coins, tx: Tx, h: int, k: nat)
    requires k <= |tx.outputs| && Fresh(coins, tx.txid)
    ensures |AddOutputs(coins, tx, h, k).Keys| == |coins.Keys| + SpendableCount(tx.outputs, k)
  {
    if k > 0 {
      AddCount(coins, tx, h, k - 1);
      AddOutputsShape(coins, tx, h, k - 1);
      if tx.outputs[k - 1].Spendable? {
        TotalValueWith(AddOutputs(coins, tx, h, k - 1), Outpoint(tx.txid, k - 1), CoinOf(tx, k - 1, h));
      }
    }
  }

  lemma {:induction false} AddValue(coins: Coins, tx: Tx, h: int, k: nat)
    requires k <= |tx.outputs| && Fresh(coins, tx.txid)
    ensures TotalValue(AddOutputs(coins, tx, h, k)) == TotalValue(coins) + SpendableValue(tx.outputs, k)
  {
    if k > 0 {
      AddValue(coins, tx, h, k - 1);
      AddOutputsShape(coins, tx, h, k - 1);
      if tx.outputs[k - 1].Spendable? {
        TotalValueWith(AddOutputs(coins, tx, h, k - 1), Outpoint(tx.txid, k - 1), CoinOf(tx, k - 1, h));
      }
    }
  }

  lemma {:induction false} AddIndex(coins: Coins, tx: Tx, h: int, k: nat)
    requires k <= |tx.outputs| && Fresh(coins, tx.txid)
    ensures IndexOf(AddOutputs(coins, tx, h, k)) == IndexOf(coins) + OutIndex(tx, k)
  {
    if k > 0 {
      AddIndex(coins, tx, h, k - 1);
      AddOutputsShape(coins, tx, h, k - 1);
      if tx.outputs[k - 1].Spendable? {
        IndexWith(AddOutputs(coins, tx, h, k - 1), Outpoint(tx.txid, k - 1), CoinOf(tx, k - 1, h));
      }
    }
  }

  lemma {:induction false} SpendCount(coins: Coins, ins: seq<Input>, k: nat)
    requires CanSpend(coins, ins) && NoDuplicateInputs(ins) && k <= |ins|
    ensures Prevouts(ins[..k]) <= coins.Keys && |Prevouts(ins[..k])| == k
  {
    if k > 0 {
      SpendCount(coins, ins, k - 1);
      assert Prevouts(ins[..k]) == Prevouts(ins[..k - 1]) + {ins[k - 1].prevout};
    }
  }

  lemma CountAfterSpend(coins: Coins, ins: seq<Input>)
    requires CanSpend(coins, ins) && NoDuplicateInputs(ins)
    ensures |SpendFirst(coins, ins, |ins|).Keys| == |coins.Keys| - |ins|
  {
    SpendCount(coins, ins, |ins|);
    assert SpendFirst(coins, ins, |ins|).Keys == coins.Keys - Prevouts(ins[..|ins|]);
  }

  lemma SpendStepIndex(coins: Coins, ins: seq<Input>, k: nat)
    requires CanSpend(coins, ins) && NoDuplicateInputs(ins) && k < |ins|
    ensures IndexOf(SpendFirst(coins, ins, k + 1))
      == IndexOf(SpendFirst(coins, ins, k)) - Entry(AddressOf(SpentCoins(coins, ins)[k].output), ins[k].prevout)
    ensures Entry(AddressOf(SpentCoins(coins, ins)[k].output), ins[k].prevout) <= IndexOf(coins)
  {
    SpendStep(coins, ins, k);
    IndexWithout(SpendFirst(coins, ins, k), ins[k].prevout);
    IndexMembers(coins);
  }

  lemma {:induction false} SpendIndex(coins: Coins, ins: seq<Input>, k: nat)
    requires CanSpend(coins, ins) && NoDuplicateInputs(ins) && k <= |ins|
    ensures IndexOf(SpendFirst(coins, ins, k)) == IndexOf(coins) - InIndex(ins, SpentCoins(coins, ins), k)
    ensures InIndex(ins, SpentCoins(coins, ins), k) <= IndexOf(coins)
  {
    if k == 0 {
      SpendNone(coins, ins);
    } else {
      SpendIndex(coins, ins, k - 1);
      SpendStepIndex(coins, ins, k - 1);
    }
  }

  lemma {:induction false} OutIndexFresh(coins: Coins, tx: Tx, k: nat)
    requires k <= |tx.outputs| && Fresh(coins, tx.txid)
    ensures OutIndex(tx, k) !! IndexOf(coins)
  {
    if k > 0 { OutIndexFresh(coins, tx, k - 1); }
  }

  /** What is kept about a set of coins. */
  datatype Books = Books(coin: int, value: int, index: AddrIndex)

  ghost function BooksOf(coins: Coins): Books {
    Books(|coins.Keys|, TotalValue(coins), IndexOf(coins))
  }

  /** The books moved over one transaction that spends `spent`. */
  function Forward(k: Books, tx: Tx, ins: seq<Input>, spent: seq<Coin>): Books
    requires |ins| == |spent|
  {
    var n := |tx.outputs|;
    Books(
      k.coin - |ins| + SpendableCount(tx.outputs, n),
      k.value - CoinTotal(spent, |ins|) + SpendableValue(tx.outputs, n),
      (k.index - InIndex(ins, spent, |ins|)) + OutIndex(tx, n))
  }

  /** The books moved back over it. */
  function Backward(k: Books, tx: Tx, ins: seq<Input>, spent: seq<Coin>): Books
    requires |ins| == |spent|
  {
    var n := |tx.outputs|;
    Books(
      k.coin + |ins| - SpendableCount(tx.outputs, n),
      k.value + CoinTotal(spent, |ins|) - SpendableValue(tx.outputs, n),
      (k.index + InIndex(ins, spent, |ins|)) - OutIndex(tx, n))
  }

  lemma TxIndex(coins: Coins, tx: Tx, ins: seq<Input>, h: int)
    requires Fresh(coins, tx.txid) && CanSpend(coins, ins) && NoDuplicateInputs(ins)
    ensures var after := AddOutputs(coins - Prevouts(ins), tx, h, |tx.outputs|);
      var spent, n := SpentCoins(coins, ins), |tx.outputs|;
      && IndexOf(after) == (IndexOf(coins) - InIndex(ins, spent, |ins|)) + OutIndex(tx, n)
      && IndexOf(coins) == (IndexOf(after) + InIndex(ins, spent, |ins|)) - OutIndex(tx, n)
  {
    assert ins[..|ins|] == ins;
    SpendIndex(coins, ins, |ins|);
    AddIndex(SpendFirst(coins, ins, |ins|), tx, h, |tx.outputs|);
    OutIndexFresh(coins, tx, |tx.outputs|);
  }

  lemma TxAmounts(coins: Coins, tx: Tx, ins: seq<Input>, h: int)
    requires Fresh(coins, tx.txid) && CanSpend(coins, ins) && NoDuplicateInputs(ins)
    ensures var after := AddOutputs(coins - Prevouts(ins), tx, h, |tx.outputs|);
      && |after.Keys| == |coins.Keys| - |ins| + SpendableCount(tx.outputs, |tx.outputs|)
      && TotalValue(after) == TotalValue(coins) - CoinTotal(SpentCoins(coins, ins), |ins|) + SpendableValue(tx.outputs, |tx.outputs|)
  {
    assert ins[..|ins|] == ins;
    CountAfterSpend(coins, ins);
    SpendValue(coins, ins, |ins|);
    AddCount(SpendFirst(coins, ins, |ins|), tx, h, |tx.outputs|);
    AddValue(SpendFirst(coins, ins, |ins|), tx, h, |tx.outputs|);
  }

  /** Moving the books over a transaction keeps them right about the coins, in both directions. */
  lemma TxDelta(coins: Coins, tx: Tx, ins: seq<Input>, h: int)
    requires Fresh(coins, tx.txid) && CanSpend(coins, ins) && NoDuplicateInputs(ins)
    ensures var after := AddOutputs(coins - Prevouts(ins), tx, h, |tx.outputs|);
      && BooksOf(after) == Forward(BooksOf(coins), tx, ins, SpentCoins(coins, ins))
      && BooksOf(coins) == Backward(BooksOf(after), tx, ins, SpentCoins(coins, ins))
  {
    TxAmounts(coins, tx, ins, h);
    TxIndex(coins, tx, ins, h);
  }
}
