/** The reference meaning of connecting and disconnecting a block: what happens to the set of
    unspent coins, to the undo log and to the counters, one transaction after the other and
    without any cache. The classes in `CoinStore` and `ChainStore` are proved against it. */
module Ledger {
  import opened Primitives
  import Consensus

  predicate Fresh(coins: Coins, id: TxId) {
    forall op :: op in coins && op.Outpoint? ==> op.hash != id
  }

  predicate DistinctIds(txs: seq<Tx>) {
    forall i, j :: 0 <= i < j < |txs| ==> txs[i].txid != txs[j].txid
  }

  /** The situation BIP30 secures: no transaction of the block reuses the id of a live coin. */
  predicate FreshBlock(coins: Coins, txs: seq<Tx>) {
    && DistinctIds(txs)
    && forall i :: 0 <= i < |txs| ==> Fresh(coins, txs[i].txid)
  }

  function Prevouts(ins: seq<Input>): set<Outpoint> {
    set i | 0 <= i < |ins| :: ins[i].prevout
  }

  predicate NoDuplicateInputs(ins: seq<Input>) {
    forall i, j :: 0 <= i < j < |ins| ==> ins[i].prevout != ins[j].prevout
  }

  predicate NonNegative(outs: seq<Output>) {
    forall i :: 0 <= i < |outs| ==> 0 <= outs[i].value
  }

  predicate TxSane(tx: Tx) {
    NoDuplicateInputs(tx.inputs) && NonNegative(tx.outputs)
  }

  /** What the body check leaves true of every stored block. */
  predicate BodyOk(txs: seq<Tx>) {
    && |txs| > 0
    && txs[0].IsCoinbase()
    && (forall i :: 1 <= i < |txs| ==> !txs[i].IsCoinbase())
    && forall i :: 0 <= i < |txs| ==> TxSane(txs[i])
  }

  // ----- one transaction

  predicate CanSpend(coins: Coins, ins: seq<Input>) {
    forall i :: 0 <= i < |ins| ==> ins[i].prevout in coins
  }

  function SpentCoins(coins: Coins, ins: seq<Input>): (r: seq<Coin>)
    requires CanSpend(coins, ins)
  {
    seq(|ins|, i requires 0 <= i < |ins| => coins[ins[i].prevout])
  }

  /** The coin that output `i` of `tx` becomes when connected at height `h`. */
  function CoinOf(tx: Tx, i: nat, h: int): Coin
    requires i < |tx.outputs|
  {
    Coin(tx.version, h, tx.IsCoinbase(), tx.outputs[i])
  }

  /** `coins` with the first `k` outputs of `tx` added; unspendable ones are never stored. */
  function AddOutputs(coins: Coins, tx: Tx, h: int, k: nat): Coins
    requires k <= |tx.outputs|
  {
    if k == 0 then coins
    else
      var m := AddOutputs(coins, tx, h, k - 1);
      if tx.outputs[k - 1].Spendable? then m[Outpoint(tx.txid, k - 1) := CoinOf(tx, k - 1, h)] else m
  }

  function WithoutTx(coins: Coins, id: TxId): Coins {
    map op | op in coins && !(op.Outpoint? && op.hash == id) :: coins[op]
  }

  function OutputTotal(outs: seq<Output>, k: nat): int
    requires k <= |outs|
  {
    if k == 0 then 0 else OutputTotal(outs, k - 1) + outs[k - 1].value
  }

  function CoinTotal(cs: seq<Coin>, k: nat): int
    requires k <= |cs|
  {
    if k == 0 then 0 else CoinTotal(cs, k - 1) + cs[k - 1].output.value
  }

  lemma {:induction false} CoinTotalAppend(a: seq<Coin>, b: seq<Coin>, k: nat)
    requires k <= |a|
    ensures CoinTotal(a + b, k) == CoinTotal(a, k)
  {
    if k > 0 { CoinTotalAppend(a, b, k - 1); }
  }

  lemma CoinTotalPrefix(a: seq<Coin>, b: seq<Coin>)
    ensures forall k :: 0 <= k <= |a| ==> CoinTotal(a + b, k) == CoinTotal(a, k)
  {
    forall k | 0 <= k <= |a| ensures CoinTotal(a + b, k) == CoinTotal(a, k) {
      CoinTotalAppend(a, b, k);
    }
  }

  predicate InRange(v: int) { 0 <= v <= MAX_MONEY }

  predicate Mature(coin: Coin, h: int) {
    coin.coinbase ==> h - coin.height >= COINBASE_MATURITY
  }

  /** The checks on the coins one transaction spends. */
  predicate InputsValid(spent: seq<Coin>, tx: Tx, h: int) {
    && (forall i :: 0 <= i < |spent| ==> Mature(spent[i], h) && InRange(spent[i].output.value))
    && (forall k :: 0 < k <= |spent| ==> InRange(CoinTotal(spent, k)))
    && InRange(TxFee(spent, tx))
  }

  function TxFee(spent: seq<Coin>, tx: Tx): int {
    CoinTotal(spent, |spent|) - OutputTotal(tx.outputs, |tx.outputs|)
  }

  // ----- a list of transactions

  datatype Conn = Conn(coins: Coins, undo: seq<Coin>, fees: int)

  /** Connecting one transaction after those summed up in `p`; `None` when an input is missing or
      already spent or a value check fails. A coinbase spends nothing. */
  function ConnectTx(p: Conn, tx: Tx, h: int, first: bool): Option<Conn> {
    if first then
      Some(Conn(AddOutputs(p.coins, tx, h, |tx.outputs|), p.undo, p.fees))
    else if CanSpend(p.coins, tx.inputs) then
      var spent := SpentCoins(p.coins, tx.inputs);
      if InputsValid(spent, tx, h) && p.fees + TxFee(spent, tx) <= MAX_MONEY then
        Some(Conn(
          AddOutputs(p.coins - Prevouts(tx.inputs), tx, h, |tx.outputs|),
          p.undo + spent,
          p.fees + TxFee(spent, tx)))
      else None
    else None
  }

  /** Connecting `txs` in order on top of `coins`; the first transaction is the coinbase. */
  function ConnectTxs(coins: Coins, txs: seq<Tx>, h: int): Option<Conn> {
    if txs == [] then Some(Conn(coins, [], 0))
    else
      var n := |txs| - 1;
      match ConnectTxs(coins, txs[..n], h)
      case None => None
      case Some(p) => ConnectTx(p, txs[n], h, n == 0)
  }

  /** A whole block: the coinbase may claim no more than the fees and the subsidy. */
  function ConnectBlock(coins: Coins, b: Block, interval: nat): Option<Conn> {
    var h := Height(b);
    match ConnectTxs(coins, b.txs, h)
    case None => None
    case Some(p) =>
      if |b.txs| > 0
         && OutputTotal(b.txs[0].outputs, |b.txs[0].outputs|) <= p.fees + Consensus.GetReward(h, interval)
      then Some(p) else None
  }

  /** Giving spent coins back, last input first; one undo entry per input. */
  function Unspend(coins: Coins, ins: seq<Input>, undo: seq<Coin>): Coins
    requires |ins| == |undo|
    decreases |ins|
  {
    if ins == [] then coins
    else
      var n := |ins| - 1;
      Unspend(coins[ins[n].prevout := undo[n]], ins[..n], undo[..n])
  }

  lemma UnspendStep(coins: Coins, ins: seq<Input>, undo: seq<Coin>, j: nat)
    requires |ins| == |undo| && j < |ins|
    ensures Unspend(coins, ins[..j + 1], undo[..j + 1]) == Unspend(coins[ins[j].prevout := undo[j]], ins[..j], undo[..j])
  {
    assert ins[..j + 1][..j] == ins[..j] && undo[..j + 1][..j] == undo[..j];
  }

  lemma UnspendNone(coins: Coins)
    ensures Unspend(coins, [], []) == coins
  {}

  lemma FreshOne(coins: Coins, txs: seq<Tx>, i: nat)
    requires FreshBlock(coins, txs) && i < |txs|
    ensures Fresh(coins, txs[i].txid) && forall j :: 0 <= j < i ==> txs[..i][j].txid != txs[i].txid
  {}

  /** What transaction `i` of a block spends: the coinbase spends nothing. */
  function Spends(txs: seq<Tx>, i: nat): seq<Input>
    requires i < |txs|
  {
    if i > 0 then txs[i].inputs else []
  }

  /** The last step of connecting, coinbase and other transactions alike. */
  lemma ConnectLast(coins: Coins, txs: seq<Tx>, h: int)
    requires txs != [] && ConnectTxs(coins, txs, h).Some?
    ensures var n := |txs| - 1;
      var c := ConnectTxs(coins, txs, h).value;
      ConnectTxs(coins, txs[..n], h).Some? &&
      var p := ConnectTxs(coins, txs[..n], h).value;
      && CanSpend(p.coins, Spends(txs, n))
      && c.coins == AddOutputs(p.coins - Prevouts(Spends(txs, n)), txs[n], h, |txs[n].outputs|)
      && c.undo == p.undo + SpentCoins(p.coins, Spends(txs, n))
  {
    var n := |txs| - 1;
    ConnectOne(ConnectTxs(coins, txs[..n], h).value, txs, n, h);
  }

  lemma ConnectOne(p: Conn, txs: seq<Tx>, n: nat, h: int)
    requires n < |txs| && ConnectTx(p, txs[n], h, n == 0).Some?
    ensures var c := ConnectTx(p, txs[n], h, n == 0).value;
      && CanSpend(p.coins, Spends(txs, n))
      && c.coins == AddOutputs(p.coins - Prevouts(Spends(txs, n)), txs[n], h, |txs[n].outputs|)
      && c.undo == p.undo + SpentCoins(p.coins, Spends(txs, n))
  {
    if n == 0 {
      assert Prevouts([]) == {};
      assert p.coins - Prevouts([]) == p.coins;
      assert p.undo + SpentCoins(p.coins, []) == p.undo;
    }
  }

  lemma ConnectAppend(coins: Coins, txs: seq<Tx>, h: int, i: nat)
    requires i < |txs|
    ensures ConnectTxs(coins, txs[..i + 1], h)
      == match ConnectTxs(coins, txs[..i], h) { case None => None case Some(p) => ConnectTx(p, txs[i], h, i == 0) }
  {
    assert txs[..i + 1][..i] == txs[..i];
  }

  /** A block that connects has connected every prefix of itself on the way. */
  lemma {:induction false} ConnectPrefix(coins: Coins, txs: seq<Tx>, h: int, k: nat)
    requires k <= |txs| && ConnectTxs(coins, txs, h).Some?
    ensures ConnectTxs(coins, txs[..k], h).Some?
    decreases |txs|
  {
    if k == |txs| {
      assert txs[..k] == txs;
    } else {
      ConnectPrefix(coins, txs[..|txs| - 1], h, k);
      assert txs[..|txs| - 1][..k] == txs[..k];
    }
  }

  datatype Undone = Undone(coins: Coins, undo: seq<Coin>)

  function DisconnectTx(coins: Coins, tx: Tx, ins: seq<Input>, undo: seq<Coin>): Coins
    requires |ins| == |undo|
  {
    WithoutTx(Unspend(coins, ins, undo), tx.txid)
  }

  /** Disconnecting `txs`, last one first, popping undo entries off the end of the log. `None`
      when the log runs dry. */
  function DisconnectTxs(coins: Coins, txs: seq<Tx>, undo: seq<Coin>): Option<Undone>
    decreases |txs|
  {
    if txs == [] then Some(Undone(coins, undo))
    else
      var n := |txs| - 1;
      var ins := Spends(txs, n);
      if |undo| < |ins| then None
      else
        var cut := |undo| - |ins|;
        DisconnectTxs(DisconnectTx(coins, txs[n], ins, undo[cut..]), txs[..n], undo[..cut])
  }

  // ----- disconnecting undoes connecting

  lemma {:induction false} AddOutputsShape(coins: Coins, tx: Tx, h: int, k: nat)
    requires k <= |tx.outputs| && Fresh(coins, tx.txid)
    ensures WithoutTx(AddOutputs(coins, tx, h, k), tx.txid) == coins
    ensures forall op :: op in AddOutputs(coins, tx, h, k) && op !in coins ==>
      op.Outpoint? && op.hash == tx.txid && op.index < k && tx.outputs[op.index].Spendable?
    ensures forall op :: op in coins ==> op in AddOutputs(coins, tx, h, k) && AddOutputs(coins, tx, h, k)[op] == coins[op]
    ensures forall i :: 0 <= i < k && tx.outputs[i].Spendable? ==>
      Outpoint(tx.txid, i) in AddOutputs(coins, tx, h, k) && AddOutputs(coins, tx, h, k)[Outpoint(tx.txid, i)] == CoinOf(tx, i, h)
  {
    if k > 0 {
      AddOutputsShape(coins, tx, h, k - 1);
    }
    assert WithoutTx(AddOutputs(coins, tx, h, k), tx.txid) == coins;
  }

  lemma {:induction false} UnspendRestores(now: Coins, before: Coins, ins: seq<Input>, undo: seq<Coin>)
    requires CanSpend(before, ins) && undo == SpentCoins(before, ins)
    requires now.Keys + Prevouts(ins) == before.Keys
    requires forall op :: op in now ==> now[op] == before[op]
    ensures Unspend(now, ins, undo) == before
    decreases |ins|
  {
    if ins == [] {
      assert now == before;
    } else {
      var n := |ins| - 1;
      var now' := now[ins[n].prevout := undo[n]];
      assert Prevouts(ins) == Prevouts(ins[..n]) + {ins[n].prevout};
      assert undo[..n] == SpentCoins(before, ins[..n]);
      UnspendRestores(now', before, ins[..n], undo[..n]);
    }
  }

  lemma FreshPrefix(coins: Coins, txs: seq<Tx>, k: nat)
    requires k <= |txs| && FreshBlock(coins, txs)
    ensures FreshBlock(coins, txs[..k])
  {}

  /** After a prefix, ids of later transactions are still unused. */
  lemma {:induction false} StaysFresh(coins: Coins, txs: seq<Tx>, h: int, id: TxId)
    requires FreshBlock(coins, txs) && Fresh(coins, id)
    requires forall i :: 0 <= i < |txs| ==> txs[i].txid != id
    requires ConnectTxs(coins, txs, h).Some?
    ensures Fresh(ConnectTxs(coins, txs, h).value.coins, id)
  {
    if txs != [] {
      var n := |txs| - 1;
      ConnectLast(coins, txs, h);
      var p := ConnectTxs(coins, txs[..n], h).value;
      FreshPrefix(coins, txs, n);
      StaysFresh(coins, txs[..n], h, id);
      StaysFresh(coins, txs[..n], h, txs[n].txid);
      AddOutputsShape(p.coins - Prevouts(Spends(txs, n)), txs[n], h, |txs[n].outputs|);
    }
  }

  /** Disconnecting the transactions just connected gives back exactly the coins there were
      before, and takes from the log exactly the entries that connecting appended. */
  lemma {:induction false} DisconnectInvertsConnect(coins: Coins, txs: seq<Tx>, h: int, after: Conn, log: seq<Coin>)
    requires FreshBlock(coins, txs) && ConnectTxs(coins, txs, h) == Some(after)
    ensures DisconnectTxs(after.coins, txs, log + after.undo) == Some(Undone(coins, log))
    decreases |txs|
  {
    if txs == [] {
      assert log + after.undo == log;
    } else {
      var n := |txs| - 1;
      ConnectLast(coins, txs, h);
      var p := ConnectTxs(coins, txs[..n], h).value;
      var spent := SpentCoins(p.coins, Spends(txs, n));
      FreshPrefix(coins, txs, n);
      StaysFresh(coins, txs[..n], h, txs[n].txid);
      UnspendOverOutputs(p.coins, txs[n], Spends(txs, n), h);
      assert log + after.undo == (log + p.undo) + spent;
      DisconnectLast(after.coins, txs, log + after.undo, log + p.undo, spent);
      DisconnectInvertsConnect(coins, txs[..n], h, p, log);
    }
  }

  /** The first step of disconnecting, with the log split where the last transaction's part begins. */
  lemma DisconnectLast(coins: Coins, txs: seq<Tx>, undo: seq<Coin>, front: seq<Coin>, spent: seq<Coin>)
    requires txs != [] && undo == front + spent && |spent| == |Spends(txs, |txs| - 1)|
    ensures var n := |txs| - 1;
      DisconnectTxs(coins, txs, undo) == DisconnectTxs(DisconnectTx(coins, txs[n], Spends(txs, n), spent), txs[..n], front)
  {
    assert undo[|undo| - |spent|..] == spent && undo[..|undo| - |spent|] == front;
  }

  /** One transaction: the outputs it added are gone and its inputs are back. */
  lemma UnspendOverOutputs(coins: Coins, tx: Tx, ins: seq<Input>, h: int)
    requires Fresh(coins, tx.txid) && CanSpend(coins, ins)
    ensures var after := AddOutputs(coins - Prevouts(ins), tx, h, |tx.outputs|);
      DisconnectTx(after, tx, ins, SpentCoins(coins, ins)) == coins
  {
    var mid := coins - Prevouts(ins);
    AddOutputsShape(mid, tx, h, |tx.outputs|);
    var after := AddOutputs(mid, tx, h, |tx.outputs|);
    var full := coins + (map op | op in after && op !in mid :: after[op]);
    forall i | 0 <= i < |ins| ensures ins[i].prevout in full && full[ins[i].prevout] == coins[ins[i].prevout] {}
    assert SpentCoins(full, ins) == SpentCoins(coins, ins);
    assert after.Keys + Prevouts(ins) == full.Keys;
    UnspendRestores(after, full, ins, SpentCoins(coins, ins));
    assert WithoutTx(full, tx.txid) == coins;
  }

  /** Block form: the whole log is consumed and the emptiness assertion at the end cannot fail. */
  lemma DisconnectBlockInverts(coins: Coins, b: Block, interval: nat)
    requires FreshBlock(coins, b.txs) && ConnectBlock(coins, b, interval).Some?
    ensures var c := ConnectBlock(coins, b, interval).value;
      DisconnectTxs(c.coins, b.txs, c.undo) == Some(Undone(coins, []))
  {
    var c := ConnectBlock(coins, b, interval).value;
    DisconnectInvertsConnect(coins, b.txs, Height(b), c, []);
    assert [] + c.undo == c.undo;
  }
}
