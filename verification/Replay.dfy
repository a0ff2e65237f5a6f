/** The ledger as a function of a block alone: replay every block from genesis to it. */
module Replay {
  import opened Primitives
  import opened Ledger
  import opened Totals
  import Consensus

  /** Coins after connecting the chain that ends in `b`. The coinbase of genesis is never stored. */
  function CoinsAt(b: Block, interval: nat): Coins {
    if b.prev.None? then map[]
    else
      var before := CoinsAt(b.prev.value, interval);
      match ConnectBlock(before, b, interval)
      case None => before
      case Some(c) => c.coins
  }

  /** Number of transactions connected, genesis included. */
  function TxCountAt(b: Block): nat {
    |b.txs| + if b.prev.None? then 0 else TxCountAt(b.prev.value)
  }

  predicate Connectable(b: Block, interval: nat)
    requires b.prev.Some?
  {
    var before := CoinsAt(b.prev.value, interval);
    BodyOk(b.txs) && FreshBlock(before, b.txs) && ConnectBlock(before, b, interval).Some?
  }

  /** Every block above genesis connects on top of the ones below it. */
  predicate ValidChain(b: Block, interval: nat) {
    b.prev.Some? ==> ValidChain(b.prev.value, interval) && Connectable(b, interval)
  }

  function UndoOf(b: Block, interval: nat): seq<Coin>
    requires b.prev.Some? && Connectable(b, interval)
  {
    ConnectBlock(CoinsAt(b.prev.value, interval), b, interval).value.undo
  }

  function SubsidyUpTo(h: nat, interval: nat): int {
    if h == 0 then 0 else SubsidyUpTo(h - 1, interval) + Consensus.GetReward(h, interval)
  }

  /** No inflation: the live coins are never worth more than the subsidies of heights 1..tip. */
  lemma {:induction false} SupplyBound(b: Block, interval: nat)
    requires ValidChain(b, interval)
    ensures TotalValue(CoinsAt(b, interval)) <= SubsidyUpTo(Height(b), interval)
  {
    if b.prev.Some? {
      var before := CoinsAt(b.prev.value, interval);
      SupplyBound(b.prev.value, interval);
      ConnectConservesValue(before, b.txs, Height(b));
      BurnedByNonNegative(b.txs);
    }
  }

  /** Null outpoints are never stored, so a coinbase can be told from a spend by its inputs. */
  lemma {:induction false} NoNullCoins(b: Block, interval: nat)
    requires ValidChain(b, interval)
    ensures NullOutpoint !in CoinsAt(b, interval)
  {
    if b.prev.Some? {
      NoNullCoins(b.prev.value, interval);
      NoNullAfter(CoinsAt(b.prev.value, interval), b.txs, Height(b));
    }
  }

  lemma {:induction false} NoNullAfter(coins: Coins, txs: seq<Tx>, h: int)
    requires NullOutpoint !in coins && FreshBlock(coins, txs) && ConnectTxs(coins, txs, h).Some?
    ensures NullOutpoint !in ConnectTxs(coins, txs, h).value.coins
    decreases |txs|
  {
    if txs != [] {
      var n := |txs| - 1;
      var p := ConnectTxs(coins, txs[..n], h).value;
      FreshPrefix(coins, txs, n);
      NoNullAfter(coins, txs[..n], h);
      StaysFresh(coins, txs[..n], h, txs[n].txid);
      var mid := if n == 0 then p.coins else p.coins - Prevouts(txs[n].inputs);
      AddOutputsShape(mid, txs[n], h, |txs[n].outputs|);
    }
  }
}
