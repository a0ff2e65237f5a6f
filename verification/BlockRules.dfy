/** Which blocks are accepted, and what comes of them, said of the coins before and after each
    transaction without connecting anything. */
module BlockRules {
  import opened Primitives
  import opened Ledger
  import Consensus

  /** What an outpoint is worth, if it is a coin. */
  function Worth(coins: Coins, op: Outpoint): int {
    if op in coins then coins[op].output.value else 0
  }

  /** The value of the first `k` inputs. */
  function InValue(coins: Coins, ins: seq<Input>, k: nat): int
    requires k <= |ins|
  {
    if k == 0 then 0 else InValue(coins, ins, k - 1) + Worth(coins, ins[k - 1].prevout)
  }

  /** What the transaction leaves to the miner. */
  function Fee(coins: Coins, tx: Tx): int {
    InValue(coins, tx.inputs, |tx.inputs|) - OutputTotal(tx.outputs, |tx.outputs|)
  }

  /** Every input spends a coin, no coinbase before its 500th block, and all amounts are in range. */
  ghost predicate MaySpend(coins: Coins, tx: Tx, h: int) {
    && (forall i :: 0 <= i < |tx.inputs| ==> tx.inputs[i].prevout in coins)
    && (forall i :: 0 <= i < |tx.inputs| ==>
      var c := coins[tx.inputs[i].prevout]; (c.coinbase ==> c.height + 500 <= h) && 0 <= c.output.value <= MAX_MONEY)
    && (forall k :: 0 < k <= |tx.inputs| ==> 0 <= InValue(coins, tx.inputs, k) <= MAX_MONEY)
    && 0 <= Fee(coins, tx) <= MAX_MONEY
  }

  ghost predicate Names(tx: Tx, op: Outpoint) {
    exists i :: 0 <= i < |tx.inputs| && tx.inputs[i].prevout == op
  }

  /** `op` is an output of the transaction that can be spent. */
  predicate Makes(tx: Tx, op: Outpoint) {
    op.Outpoint? && op.hash == tx.txid && op.index < |tx.outputs| && tx.outputs[op.index].Spendable?
  }

  /** The coins `next` are `coins` less those the transaction spends, and with those it makes. */
  ghost predicate Leads(coins: Coins, tx: Tx, h: int, spends: bool, next: Coins) {
    && (forall op :: op in next <==> Makes(tx, op) || (op in coins && !(spends && Names(tx, op))))
    && (forall op :: op in next && Makes(tx, op) ==>
      next[op] == Coin(tx.version, h, |tx.inputs| == 1 && tx.inputs[0].prevout == NullOutpoint, tx.outputs[op.index]))
    && (forall op :: op in next && !Makes(tx, op) ==> next[op] == coins[op])
  }

  /** `trail` holds the coins before each transaction of the block and after the last. */
  ghost predicate Course(coins: Coins, txs: seq<Tx>, h: int, trail: seq<Coins>) {
    && |trail| == |txs| + 1 && trail[0] == coins
    && forall i :: 0 <= i < |txs| ==>
      (i > 0 ==> MaySpend(trail[i], txs[i], h)) && Leads(trail[i], txs[i], h, i > 0, trail[i + 1])
  }

  /** The fees of transactions 1 up to `n`; the coinbase pays none. */
  function Fees(trail: seq<Coins>, txs: seq<Tx>, n: nat): int
    requires n <= |txs| < |trail|
  {
    if n <= 1 then 0 else Fees(trail, txs, n - 1) + Fee(trail[n - 1], txs[n - 1])
  }

  /** The coins that transactions 1 up to `n` spend, in order. */
  function Log(trail: seq<Coins>, txs: seq<Tx>, n: nat): seq<Coin>
    requires n <= |txs| < |trail|
    requires forall i, j :: 1 <= i < n && 0 <= j < |txs[i].inputs| ==> txs[i].inputs[j].prevout in trail[i]
  {
    if n <= 1 then []
    else
      var ins := txs[n - 1].inputs;
      Log(trail, txs, n - 1) + seq(|ins|, j requires 0 <= j < |ins| => trail[n - 1][ins[j].prevout])
  }

  /** A block may be connected: its transactions may go one after the other, the fees stay in range, and
      the coinbase claims no more than the subsidy and all the fees. */
  ghost predicate Acceptable(coins: Coins, b: Block, interval: nat) {
    |b.txs| > 0 && exists trail :: Course(coins, b.txs, Height(b), trail) && Affords(b, trail, interval)
  }

  ghost predicate Affords(b: Block, trail: seq<Coins>, interval: nat)
    requires 0 < |b.txs| < |trail|
  {
    && (forall n :: 0 <= n <= |b.txs| ==> Fees(trail, b.txs, n) <= MAX_MONEY)
    && OutputTotal(b.txs[0].outputs, |b.txs[0].outputs|)
      <= Consensus.GetReward(Height(b), interval) + Fees(trail, b.txs, |b.txs|)
  }

  // ----- one transaction

  lemma {:induction false} ValuesAgree(coins: Coins, ins: seq<Input>, k: nat)
    requires CanSpend(coins, ins) && k <= |ins|
    ensures InValue(coins, ins, k) == CoinTotal(SpentCoins(coins, ins), k)
  {
    if k > 0 { ValuesAgree(coins, ins, k - 1); }
  }

  lemma MaySpendExactly(coins: Coins, tx: Tx, h: int)
    ensures MaySpend(coins, tx, h) <==> CanSpend(coins, tx.inputs) && InputsValid(SpentCoins(coins, tx.inputs), tx, h)
    ensures CanSpend(coins, tx.inputs) ==> Fee(coins, tx) == TxFee(SpentCoins(coins, tx.inputs), tx)
  {
    if CanSpend(coins, tx.inputs) {
      var spent := SpentCoins(coins, tx.inputs);
      forall k | 0 <= k <= |tx.inputs| ensures InValue(coins, tx.inputs, k) == CoinTotal(spent, k) {
        ValuesAgree(coins, tx.inputs, k);
      }
      assert forall i :: 0 <= i < |tx.inputs| ==> spent[i] == coins[tx.inputs[i].prevout];
    }
  }

  lemma {:induction false} AddOutputsLeads(coins: Coins, tx: Tx, h: int, k: nat)
    requires k <= |tx.outputs|
    ensures var next := AddOutputs(coins, tx, h, k);
      && (forall op :: op in next <==> (Makes(tx, op) && op.index < k) || op in coins)
      && (forall op :: op in next ==> next[op] == if Makes(tx, op) && op.index < k then CoinOf(tx, op.index, h) else coins[op])
  {
    if k > 0 { AddOutputsLeads(coins, tx, h, k - 1); }
  }

  lemma LeadsExactly(coins: Coins, tx: Tx, h: int, spends: bool, next: Coins)
    ensures Leads(coins, tx, h, spends, next)
      <==> next == AddOutputs(if spends then coins - Prevouts(tx.inputs) else coins, tx, h, |tx.outputs|)
  {
    var left := if spends then coins - Prevouts(tx.inputs) else coins;
    AddOutputsLeads(left, tx, h, |tx.outputs|);
    assert forall op :: op in Prevouts(tx.inputs) <==> Names(tx, op);
    var made := AddOutputs(left, tx, h, |tx.outputs|);
    if Leads(coins, tx, h, spends, next) {
      assert next.Keys == made.Keys;
      assert next == made;
    }
  }

  lemma OneWay(coins: Coins, tx: Tx, h: int, spends: bool, one: Coins, two: Coins)
    requires Leads(coins, tx, h, spends, one) && Leads(coins, tx, h, spends, two)
    ensures one == two
  {
    hide Leads, AddOutputs;
    LeadsExactly(coins, tx, h, spends, one);
    LeadsExactly(coins, tx, h, spends, two);
  }

  /** One step of connecting, said of the coins before and after. */
  lemma StepExactly(p: Conn, tx: Tx, h: int, first: bool)
    ensures ConnectTx(p, tx, h, first).Some? <==> first || (MaySpend(p.coins, tx, h) && p.fees + Fee(p.coins, tx) <= MAX_MONEY)
    ensures ConnectTx(p, tx, h, first).Some? ==>
      var c := ConnectTx(p, tx, h, first).value;
      && Leads(p.coins, tx, h, !first, c.coins)
      && c.fees == p.fees + (if first then 0 else Fee(p.coins, tx))
      && (first ==> c.undo == p.undo)
      && (!first ==> CanSpend(p.coins, tx.inputs) && c.undo == p.undo + SpentCoins(p.coins, tx.inputs))
  {
    hide MaySpend, Leads, InputsValid, AddOutputs, Fee;
    MaySpendExactly(p.coins, tx, h);
    if ConnectTx(p, tx, h, first).Some? {
      var c := ConnectTx(p, tx, h, first).value;
      LeadsExactly(p.coins, tx, h, !first, c.coins);
    }
  }

  // ----- the block

  lemma CourseSpends(coins: Coins, txs: seq<Tx>, h: int, trail: seq<Coins>)
    requires Course(coins, txs, h, trail)
    ensures forall i, j :: 1 <= i < |txs| && 0 <= j < |txs[i].inputs| ==> txs[i].inputs[j].prevout in trail[i]
  {
    hide Leads;
  }

  /** Following a course, the transactions connect, with its coins, its fees and its log. */
  lemma {:induction false} CourseConnects(coins: Coins, txs: seq<Tx>, h: int, trail: seq<Coins>, n: nat)
    requires Course(coins, txs, h, trail) && n <= |txs| && forall m :: 0 <= m <= n ==> Fees(trail, txs, m) <= MAX_MONEY
    requires forall i, j :: 1 <= i < |txs| && 0 <= j < |txs[i].inputs| ==> txs[i].inputs[j].prevout in trail[i]
    ensures ConnectTxs(coins, txs[..n], h) == Some(Conn(trail[n], Log(trail, txs, n), Fees(trail, txs, n)))
  {
    hide MaySpend, Leads, ConnectTx, Fee;
    if n > 0 {
      CourseConnects(coins, txs, h, trail, n - 1);
      ConnectAppend(coins, txs, h, n - 1);
      var p := Conn(trail[n - 1], Log(trail, txs, n - 1), Fees(trail, txs, n - 1));
      StepExactly(p, txs[n - 1], h, n == 1);
      assert Fees(trail, txs, n) <= MAX_MONEY && (n > 1 ==> MaySpend(trail[n - 1], txs[n - 1], h));
      OneWay(p.coins, txs[n - 1], h, n > 1, trail[n], ConnectTx(p, txs[n - 1], h, n == 1).value.coins);
    } else {
      assert txs[..0] == [];
    }
  }

  /** The coins after the first `i` transactions. */
  function CoinsAlong(coins: Coins, txs: seq<Tx>, h: int, i: nat): Coins
    requires i <= |txs|
  {
    match ConnectTxs(coins, txs[..i], h) case None => coins case Some(c) => c.coins
  }

  function TrailOf(coins: Coins, txs: seq<Tx>, h: int): seq<Coins> {
    seq(|txs| + 1, i requires 0 <= i <= |txs| => CoinsAlong(coins, txs, h, i))
  }

  lemma TrailStep(coins: Coins, txs: seq<Tx>, h: int, i: nat)
    requires ConnectTxs(coins, txs, h).Some? && i < |txs|
    ensures ConnectTxs(coins, txs[..i], h).Some? && ConnectTxs(coins, txs[..i + 1], h).Some?
    ensures var p, q := ConnectTxs(coins, txs[..i], h).value, ConnectTxs(coins, txs[..i + 1], h).value;
      && Leads(p.coins, txs[i], h, i > 0, q.coins) && (i > 0 ==> MaySpend(p.coins, txs[i], h))
      && q.fees == p.fees + (if i == 0 then 0 else Fee(p.coins, txs[i]))
      && (i > 0 ==> q.fees <= MAX_MONEY)
  {
    hide MaySpend, Leads, ConnectTx, Fee;
    ConnectPrefix(coins, txs, h, i);
    ConnectPrefix(coins, txs, h, i + 1);
    ConnectAppend(coins, txs, h, i);
    StepExactly(ConnectTxs(coins, txs[..i], h).value, txs[i], h, i == 0);
  }

  /** A list of transactions that connects has followed a course. */
  lemma TrailIsCourse(coins: Coins, txs: seq<Tx>, h: int)
    requires ConnectTxs(coins, txs, h).Some?
    ensures Course(coins, txs, h, TrailOf(coins, txs, h))
  {
    hide MaySpend, Leads, ConnectTx;
    assert txs[..0] == [];
    var trail := TrailOf(coins, txs, h);
    forall i | 0 <= i < |txs|
      ensures (i > 0 ==> MaySpend(trail[i], txs[i], h)) && Leads(trail[i], txs[i], h, i > 0, trail[i + 1])
    {
      TrailStep(coins, txs, h, i);
    }
  }

  lemma {:induction false} TrailFees(coins: Coins, txs: seq<Tx>, h: int, n: nat)
    requires ConnectTxs(coins, txs, h).Some? && n <= |txs|
    ensures ConnectTxs(coins, txs[..n], h).Some?
    ensures Fees(TrailOf(coins, txs, h), txs, n) == ConnectTxs(coins, txs[..n], h).value.fees <= MAX_MONEY
  {
    hide MaySpend, Leads, ConnectTx, Fee;
    if n == 0 {
      assert txs[..0] == [];
    } else {
      TrailFees(coins, txs, h, n - 1);
      TrailStep(coins, txs, h, n - 1);
    }
  }

  /** What following the course comes to: the last coins, all that was spent, and the fees. */
  ghost function Outcome(coins: Coins, b: Block, trail: seq<Coins>): Conn
    requires Course(coins, b.txs, Height(b), trail)
  {
    CourseSpends(coins, b.txs, Height(b), trail);
    Conn(trail[|b.txs|], Log(trail, b.txs, |b.txs|), Fees(trail, b.txs, |b.txs|))
  }

  /** A block connects exactly when it is acceptable, and then to the coins and the log of its course,
      which is the only one. */
  lemma AcceptedExactly(coins: Coins, b: Block, interval: nat)
    ensures ConnectBlock(coins, b, interval).Some? <==> Acceptable(coins, b, interval)
    ensures forall trail :: Course(coins, b.txs, Height(b), trail) && |b.txs| > 0 && Affords(b, trail, interval) ==>
      ConnectBlock(coins, b, interval) == Some(Outcome(coins, b, trail))
  {
    hide MaySpend, Leads, Fees, Log, ConnectTxs;
    var txs, h := b.txs, Height(b);
    assert txs[..|txs|] == txs;
    forall trail | Course(coins, txs, h, trail) && |txs| > 0 && Affords(b, trail, interval)
      ensures ConnectBlock(coins, b, interval) == Some(Outcome(coins, b, trail))
    {
      CourseSpends(coins, txs, h, trail);
      CourseConnects(coins, txs, h, trail, |txs|);
    }
    if ConnectBlock(coins, b, interval).Some? {
      var trail := TrailOf(coins, txs, h);
      TrailIsCourse(coins, txs, h);
      forall n | 0 <= n <= |txs| ensures Fees(trail, txs, n) <= MAX_MONEY {
        TrailFees(coins, txs, h, n);
      }
      TrailFees(coins, txs, h, |txs|);
      assert Course(coins, txs, h, trail) && Affords(b, trail, interval);
    }
  }

  lemma AcceptedIff(coins: Coins, b: Block, interval: nat)
    ensures ConnectBlock(coins, b, interval).Some? <==> Acceptable(coins, b, interval)
  {
    AcceptedExactly(coins, b, interval);
  }
}
