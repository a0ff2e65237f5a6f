/** A block whose coinbase collects a fee. */
module Collecting {
  import opened Primitives
  import opened Ledger
  import opened Replay
  import opened Consensus
  import opened Merkle
  import opened Sanity
  import opened Outcomes
  import opened Witness
  import opened Mining

  /** A transaction that spends the first coinbase of the chain and leaves `fee` of it. */
  function Spend(interval: nat, fee: int): Tx {
    Tx(502, 1, [Input(Outpoint(1, 0), 0)], [Spendable(GetReward(1, interval) - fee, None)])
  }

  /** A block at height 501, the first that may spend that coinbase, with a claim of its own. */
  function Collector(g: Block, interval: nat, fee: int, claim: int): Block
    requires g.time + 501 < 0x1_0000_0000
  {
    Block(Some(Mined(g, 500, interval)), g.time + 501, g.bits, 4, 0, [Body(501, claim)[0], Spend(interval, fee)])
  }

  lemma FirstStep(coins: Coins, h: int, claim: int)
    ensures ConnectTx(Conn(coins, [], 0), Body(501, claim)[0], h, true)
      == Some(Conn(coins[Outpoint(501, 0) := CoinOf(Body(501, claim)[0], 0, h)], [], 0))
  {
    var tx := Body(501, claim)[0];
    assert AddOutputs(coins, tx, h, 1) == AddOutputs(coins, tx, h, 0)[Outpoint(501, 0) := CoinOf(tx, 0, h)];
  }

  /** The spend connects and leaves exactly its fee. */
  lemma SpendStep(coins: Coins, p: Conn, interval: nat, fee: int)
    requires Coinbases(coins, 500, interval) && 0 <= fee <= GetReward(1, interval)
    requires p.fees == 0 && Outpoint(1, 0) in p.coins && p.coins[Outpoint(1, 0)] == Paid(1, interval)
    ensures var c := ConnectTx(p, Spend(interval, fee), 501, false); c.Some? && c.value.fees == fee
  {
    hide GetReward;
    SubsidyInRange(1, interval);
    var tx := Spend(interval, fee);
    var spent := SpentCoins(p.coins, tx.inputs);
    assert spent == [Paid(1, interval)];
    assert CoinTotal(spent, 1) == CoinTotal(spent, 0) + GetReward(1, interval);
    assert OutputTotal(tx.outputs, 1) == OutputTotal(tx.outputs, 0) + GetReward(1, interval) - fee;
  }

  lemma BothSteps(coins: Coins, b: Block, interval: nat, fee: int, claim: int)
    requires Coinbases(coins, 500, interval) && 0 <= fee <= GetReward(1, interval) && Height(b) == 501
    requires b.txs == [Body(501, claim)[0], Spend(interval, fee)]
    ensures ConnectTxs(coins, b.txs, 501).Some? && ConnectTxs(coins, b.txs, 501).value.fees == fee
  {
    hide ConnectTx, GetReward, Coinbases;
    CoinbaseThere(coins, interval);
    var txs := b.txs;
    FirstStep(coins, 501, claim);
    var p := Conn(coins[Outpoint(501, 0) := CoinOf(txs[0], 0, 501)], [], 0);
    SpendStep(coins, p, interval, fee);
    assert txs[..0] == [] && txs[..2] == txs;
    ConnectAppend(coins, txs, 501, 0);
    ConnectAppend(coins, txs, 501, 1);
  }

  lemma CoinbaseThere(coins: Coins, interval: nat)
    requires Coinbases(coins, 500, interval)
    ensures Outpoint(1, 0) in coins && coins[Outpoint(1, 0)] == Paid(1, interval)
    ensures Fresh(coins, 501) && Fresh(coins, 502)
  {}

  /** The block passes exactly when its coinbase claims no more than the subsidy and the fee. */
  lemma CollectsTheFee(g: Block, interval: nat, fee: int, claim: int, judge: Judge)
    requires g.prev.None? && g.time + 501 < 0x1_0000_0000 && 0 <= fee <= GetReward(1, interval) && InRange(claim)
    requires var b := Collector(g, interval, fee, claim); judge.header(b).Accept? && judge.inputs(b)
    ensures var b := Collector(g, interval, fee, claim);
      && BodyPasses(b.txs)
      && (Passes(CoinsAt(b.prev.value, interval), b, interval, judge) <==> claim <= GetReward(501, interval) + fee)
  {
    hide GetReward, ConnectTxs, Coinbases, CoinsAt, Mined, ValidChain;
    var b := Collector(g, interval, fee, claim);
    var coins := CoinsAt(b.prev.value, interval);
    MinedShape(g, 500, interval);
    MinedCoins(g, 500, interval);
    CoinbaseThere(coins, interval);
    BothSteps(coins, b, interval, fee, claim);
    Claimed(501, claim);
    BodiesPass(interval, fee, claim);
  }

  lemma BodiesPass(interval: nat, fee: int, claim: int)
    requires 0 <= fee <= GetReward(1, interval) && InRange(claim)
    ensures BodyPasses([Body(501, claim)[0], Spend(interval, fee)])
  {
    hide GetReward;
    SubsidyInRange(1, interval);
    Claimed(501, claim);
    var tx := Spend(interval, fee);
    assert OutputTotal(tx.outputs, 1) == OutputTotal(tx.outputs, 0) + GetReward(1, interval) - fee;
    var leaves := Leaves([Body(501, claim)[0], Spend(interval, fee)]);
    assert Malleated(leaves) <==> EndsTwice(leaves) || Malleated(Up(leaves));
  }
}
