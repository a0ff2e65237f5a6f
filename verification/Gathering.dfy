/** A block that makes a coin of 2^53 or more and spends it at once. */
module Gathering {
  import opened Primitives
  import opened Ledger
  import opened Replay
  import opened Consensus
  import opened MedianTime
  import opened Retarget
  import opened Compact
  import opened CoinRecords
  import opened UndoRecords
  import opened Merkle
  import opened Sanity
  import opened Outcomes
  import opened Witness
  import opened Mining

  /** A transaction that gathers coins in one output. */
  function Gather(id: TxId, ins: seq<Input>, total: int): Tx {
    Tx(id + 1, 1, ins, [Spendable(total, None)])
  }

  /** One that spends that output. */
  function Split(id: TxId, total: int): Tx {
    Tx(id + 2, 1, [Input(Outpoint(id + 1, 0), 0)], [Spendable(total / 2, None), Spendable(total - total / 2, None)])
  }

  /** Both in one block, under a coinbase that claims nothing. */
  function Txs(id: TxId, ins: seq<Input>, total: int): seq<Tx> {
    [Body(id, 0)[0], Gather(id, ins, total), Split(id, total)]
  }

  /** Coins that a block at height `h` may spend, worth `total` together. */
  predicate Gathers(coins: Coins, ins: seq<Input>, total: int, h: int) {
    && ins != [] && CanSpend(coins, ins) && NoDuplicateInputs(ins) && NoNullInput(ins)
    && var spent := SpentCoins(coins, ins);
      && (forall i :: 0 <= i < |spent| ==> Mature(spent[i], h) && InRange(spent[i].output.value))
      && (forall k :: 0 < k <= |spent| ==> InRange(CoinTotal(spent, k)))
      && total == CoinTotal(spent, |spent|)
  }

  /** The coin made and spent. */
  function Gathered(total: int, h: int): Coin {
    Coin(1, h, false, Spendable(total, None))
  }

  lemma OutputTotals(id: TxId, ins: seq<Input>, total: int)
    ensures OutputTotal(Gather(id, ins, total).outputs, 1) == total && OutputTotal(Split(id, total).outputs, 2) == total
  {
    var outs := Split(id, total).outputs;
    assert OutputTotal(outs, 2) == OutputTotal(outs, 1) + outs[1].value;
    assert OutputTotal(outs, 1) == OutputTotal(outs, 0) + outs[0].value;
    assert OutputTotal(Gather(id, ins, total).outputs, 1) == OutputTotal(Gather(id, ins, total).outputs, 0) + total;
  }

  /** After the coinbase, the gathering one spends the coins it names. */
  lemma GatherConnects(coins: Coins, id: TxId, ins: seq<Input>, total: int, h: int)
    requires Gathers(coins, ins, total, h) && Fresh(coins, id) && Fresh(coins, id + 1)
    ensures var p := Conn(coins[Outpoint(id, 0) := CoinOf(Body(id, 0)[0], 0, h)], [], 0);
      var c := ConnectTx(p, Gather(id, ins, total), h, false);
      && c.Some? && c.value.undo == SpentCoins(coins, ins) && c.value.fees == 0
      && Outpoint(id + 1, 0) in c.value.coins && c.value.coins[Outpoint(id + 1, 0)] == Gathered(total, h)
  {
    var p := Conn(coins[Outpoint(id, 0) := CoinOf(Body(id, 0)[0], 0, h)], [], 0);
    var tx := Gather(id, ins, total);
    OutputTotals(id, ins, total);
    assert SpentCoins(p.coins, ins) == SpentCoins(coins, ins);
    assert p.undo + SpentCoins(p.coins, ins) == SpentCoins(coins, ins);
    var left := p.coins - Prevouts(ins);
    assert AddOutputs(left, tx, h, 1) == AddOutputs(left, tx, h, 0)[Outpoint(id + 1, 0) := CoinOf(tx, 0, h)];
  }

  lemma SplitConnects(p: Conn, id: TxId, total: int, h: int)
    requires Outpoint(id + 1, 0) in p.coins && p.coins[Outpoint(id + 1, 0)] == Gathered(total, h) && p.fees == 0
    requires InRange(total)
    ensures var c := ConnectTx(p, Split(id, total), h, false);
      c.Some? && c.value.undo == p.undo + [Gathered(total, h)] && c.value.fees == 0
  {
    var ins := Split(id, total).inputs;
    OutputTotals(id, [], total);
    assert SpentCoins(p.coins, ins) == [Gathered(total, h)];
    assert CoinTotal([Gathered(total, h)], 1) == CoinTotal([Gathered(total, h)], 0) + total;
  }

  /** The block connects, and its undo log ends in the coin it made itself. */
  lemma TxsConnect(coins: Coins, b: Block, id: TxId, ins: seq<Input>, total: int, interval: nat)
    requires b.txs == Txs(id, ins, total) && Gathers(coins, ins, total, Height(b))
    requires Fresh(coins, id) && Fresh(coins, id + 1) && Fresh(coins, id + 2)
    ensures FreshBlock(coins, b.txs) && ConnectBlock(coins, b, interval).Some?
    ensures ConnectBlock(coins, b, interval).value.undo == SpentCoins(coins, ins) + [Gathered(total, Height(b))]
  {
    hide ConnectTx, GetReward, Gathers;
    var h, txs := Height(b), b.txs;
    var p := Conn(coins[Outpoint(id, 0) := CoinOf(txs[0], 0, h)], [], 0);
    FirstConnects(coins, id, h);
    GatherConnects(coins, id, ins, total, h);
    var q := ConnectTx(p, txs[1], h, false).value;
    TotalInRange(coins, ins, total, h);
    SplitConnects(q, id, total, h);
    assert txs[..0] == [] && txs[..3] == txs;
    ConnectAppend(coins, txs, h, 0);
    ConnectAppend(coins, txs, h, 1);
    ConnectAppend(coins, txs, h, 2);
    Claimed(id, 0);
  }

  lemma FirstConnects(coins: Coins, id: TxId, h: int)
    ensures ConnectTx(Conn(coins, [], 0), Body(id, 0)[0], h, true)
      == Some(Conn(coins[Outpoint(id, 0) := CoinOf(Body(id, 0)[0], 0, h)], [], 0))
  {
    var tx := Body(id, 0)[0];
    assert AddOutputs(coins, tx, h, 1) == AddOutputs(coins, tx, h, 0)[Outpoint(id, 0) := CoinOf(tx, 0, h)];
  }

  lemma TotalInRange(coins: Coins, ins: seq<Input>, total: int, h: int)
    requires Gathers(coins, ins, total, h)
    ensures InRange(total)
  {}

  lemma TxsAreSane(id: TxId, ins: seq<Input>, total: int)
    requires ins != [] && NoDuplicateInputs(ins) && NoNullInput(ins) && InRange(total)
    ensures BodyPasses(Txs(id, ins, total)) && BodyOk(Txs(id, ins, total))
  {
    var txs := Txs(id, ins, total);
    OutputTotals(id, ins, total);
    Claimed(id, 0);
    var outs := Split(id, total).outputs;
    assert OutputTotal(outs, 1) == OutputTotal(outs, 0) + total / 2;
    var leaves := Leaves(txs);
    assert Malleated(leaves) <==> Malleated(Up(leaves));
    assert Malleated(Up(leaves)) <==> Malleated(Up(Up(leaves)));
    PassingBody(txs);
  }

  /** A block can spend a coin worth 2^53 or more that it makes itself: the block connects, whatever the coins
      from below are worth, and no record of its undo log can be read back. */
  lemma {:induction false} LocalCoinLost(p: Block, b: Block, id: TxId, ins: seq<Input>, total: int, interval: nat)
    requires ValidChain(p, interval) && b.prev == Some(p) && b.txs == Txs(id, ins, total) && total >= SAFE
    requires var coins := CoinsAt(p, interval);
      && Gathers(coins, ins, total, Height(b)) && Fresh(coins, id) && Fresh(coins, id + 1) && Fresh(coins, id + 2)
    ensures BodyPasses(b.txs) && ValidChain(b, interval)
    ensures forall entries {:trigger AllStand(entries, UndoOf(b, interval))} ::
      AllStand(entries, UndoOf(b, interval)) ==> AllFormed(entries) && !ReadsBack(entries)
  {
    hide Gathers, BodyOk, BodyPasses, CoinsAt, ConnectBlock, FreshBlock, AllStand, AllFormed, ReadsBack, Txs;
    var coins := CoinsAt(p, interval);
    TotalInRange(coins, ins, total, Height(b));
    GathersInputs(coins, ins, total, Height(b));
    TxsAreSane(id, ins, total);
    TxsConnect(coins, b, id, ins, total, interval);
    var log := UndoOf(b, interval);
    assert log[|log| - 1] == Gathered(total, Height(b));
    forall entries {:trigger AllStand(entries, UndoOf(b, interval))} | AllStand(entries, UndoOf(b, interval))
      ensures AllFormed(entries) && !ReadsBack(entries)
    {
      UndoSurvives(b, interval, entries);
    }
  }

  lemma GathersInputs(coins: Coins, ins: seq<Input>, total: int, h: int)
    requires Gathers(coins, ins, total, h)
    ensures ins != [] && NoDuplicateInputs(ins) && NoNullInput(ins)
  {}

  // ----- such a block on a chain

  const COINS: nat := 176
  const ENOUGH: nat := 675

  /** The coinbases of the first 176 heights, which the block at height 676 may spend. */
  function Oldest(): seq<Input> {
    seq(COINS, i requires 0 <= i < COINS => Input(Outpoint(i + 1, 0), 0))
  }

  function GatheringBlock(g: Block, interval: nat): Block
    requires g.time + 676 < 0x1_0000_0000
  {
    Block(Some(Mined(g, ENOUGH, interval)), g.time + 676, g.bits, 4, 0, Txs(676, Oldest(), COINS * BASE_REWARD))
  }

  lemma {:induction false} TotalOf(spent: seq<Coin>, k: nat)
    requires k <= |spent| && forall i :: 0 <= i < |spent| ==> spent[i].output.value == BASE_REWARD
    ensures CoinTotal(spent, k) == k * BASE_REWARD
  {
    if k > 0 { TotalOf(spent, k - 1); }
  }

  lemma OldestGather(coins: Coins, interval: nat)
    requires Coinbases(coins, ENOUGH, interval) && (interval == 0 || interval > COINS)
    ensures Gathers(coins, Oldest(), COINS * BASE_REWARD, 676)
  {
    hide GetReward;
    var ins := Oldest();
    assert CanSpend(coins, ins);
    var spent := SpentCoins(coins, ins);
    forall i | 0 <= i < |spent| ensures spent[i].output.value == BASE_REWARD && spent[i].height == i + 1 {
      FullSubsidy(i + 1, interval);
    }
    forall k | 0 < k <= |spent| ensures InRange(CoinTotal(spent, k)) {
      TotalOf(spent, k);
    }
    TotalOf(spent, |spent|);
  }

  /** From any genesis block, on a chain that pays out its subsidies and whose coins can all be read: a
      block the code accepts and, having to read its undo log, cannot take back. */
  lemma GatheringLost(g: Block, interval: nat, pow: Pow)
    requires g.prev.None? && g.time + 676 < 0x1_0000_0000 && (interval == 0 || interval > COINS)
    requires Retarget.Sensible(pow) && g.bits == pow.bits && (pow.retargetInterval > 676 || pow.noRetargeting)
    ensures var b := GatheringBlock(g, interval);
      && BodyPasses(b.txs) && ValidChain(b, interval) && TimesOk(b) && BitsOk(b, pow)
      && (var coins := CoinsAt(b.prev.value, interval); forall op :: op in coins ==> Fits(coins[op]))
      && forall entries {:trigger AllStand(entries, UndoOf(b, interval))} ::
        AllStand(entries, UndoOf(b, interval)) ==> AllFormed(entries) && !ReadsBack(entries)
  {
    hide Gathers, CoinsAt, Coinbases, ValidChain, BodyPasses, AllStand, ReadsBack, Mined, TimesOk, BitsOk, Oldest, Txs;
    var b, p := GatheringBlock(g, interval), Mined(g, ENOUGH, interval);
    MinedCoins(g, ENOUGH, interval);
    MinedShape(g, ENOUGH, interval);
    var coins := CoinsAt(p, interval);
    OldestGather(coins, interval);
    CoinbasesFit(coins, interval);
    LaterIdsFresh(coins, interval);
    LocalCoinLost(p, b, 676, Oldest(), COINS * BASE_REWARD, interval);
    SameHeader(g, b, interval, pow);
  }

  lemma CoinbasesFit(coins: Coins, interval: nat)
    requires Coinbases(coins, ENOUGH, interval)
    ensures forall op :: op in coins ==> Fits(coins[op])
  {
    hide GetReward;
    forall op | op in coins ensures Fits(coins[op]) {
      assert op == Outpoint(op.hash, 0);
    }
  }

  lemma LaterIdsFresh(coins: Coins, interval: nat)
    requires Coinbases(coins, ENOUGH, interval)
    ensures Fresh(coins, 676) && Fresh(coins, 677) && Fresh(coins, 678)
  {}

  lemma SameHeader(g: Block, b: Block, interval: nat, pow: Pow)
    requires g.prev.None? && g.time + 676 < 0x1_0000_0000 && b == GatheringBlock(g, interval)
    requires Retarget.Sensible(pow) && g.bits == pow.bits && (pow.retargetInterval > 676 || pow.noRetargeting)
    ensures TimesOk(b) && BitsOk(b, pow)
  {
    hide Mined, Mtp, Demanded, FromCompact, Txs, Oldest;
    MinedStep(g, 676, interval);
    MinedFollows(g, 676, interval, pow);
    MinedFollows(g, ENOUGH, interval, pow);
    assert TimesOk(Mined(g, 676, interval)) && BitsOk(Mined(g, 676, interval), pow);
  }
}
