/** The states a block goes through, transaction by transaction, with the books kept about them. */
module BlockTrail {
  import opened Primitives
  import opened Ledger
  import opened Totals
  import opened CoinStore
  import opened BlockInputs

  /** `db` after the entries `ops` of the view have been written over it. */
  function Written(db: Coins, v: View, ops: set<Outpoint>): Coins {
    Overlay(db, map op | op in v && op in ops :: v[op])
  }

  lemma OverlayNone(db: Coins, v: View)
    ensures Written(db, v, {}) == db
  {}

  lemma OverlayOne(db: Coins, v: View, ops: set<Outpoint>, op: Outpoint)
    requires op in v && op !in ops
    ensures Written(db, v, ops + {op})
      == if v[op].spent then Written(db, v, ops) - {op} else Written(db, v, ops)[op := v[op].coin]
  {}

  lemma OverlayAll(db: Coins, v: View)
    ensures Written(db, v, v.Keys) == Overlay(db, v)
  {
    assert (map op | op in v && op in v.Keys :: v[op]) == v;
  }

  lemma AfterOne(coins: Coins, txs: seq<Tx>, h: int, i: nat)
    requires i < |txs| && FreshBlock(coins, txs) && ConnectTxs(coins, txs, h).Some?
    ensures var before := CoinsAfter(coins, txs, h, i);
      && CanSpend(before, Spends(txs, i))
      && Fresh(before, txs[i].txid)
      && CoinsAfter(coins, txs, h, i + 1) == AddOutputs(before - Prevouts(Spends(txs, i)), txs[i], h, |txs[i].outputs|)
  {
    hide Fresh, FreshBlock, InputsValid, AddOutputs;
    ConnectPrefix(coins, txs, h, i);
    ConnectPrefix(coins, txs, h, i + 1);
    ConnectAppend(coins, txs, h, i);
    ConnectOne(ConnectTxs(coins, txs[..i], h).value, txs, i, h);
    FreshPrefix(coins, txs, i);
    FreshOne(coins, txs, i);
    StaysFresh(coins, txs[..i], h, txs[i].txid);
  }

  lemma BooksForward(coins: Coins, txs: seq<Tx>, h: int, i: nat)
    requires i < |txs| && BodyOk(txs) && FreshBlock(coins, txs) && ConnectTxs(coins, txs, h).Some?
    ensures |SpentAt(coins, txs, h, i)| == |Spends(txs, i)|
    ensures BooksOf(CoinsAfter(coins, txs, h, i + 1))
      == Forward(BooksOf(CoinsAfter(coins, txs, h, i)), txs[i], Spends(txs, i), SpentAt(coins, txs, h, i))
  {
    AfterOne(coins, txs, h, i);
    TxDelta(CoinsAfter(coins, txs, h, i), txs[i], Spends(txs, i), h);
  }

  /** The undo log after the first `i` transactions. */
  function UndoAfter(coins: Coins, txs: seq<Tx>, h: int, i: nat): seq<Coin>
    requires i <= |txs|
  {
    match ConnectTxs(coins, txs[..i], h) case None => [] case Some(c) => c.undo
  }

  predicate NotFrom(ins: seq<Input>, id: TxId) {
    forall j :: 0 <= j < |ins| ==> !(ins[j].prevout.Outpoint? && ins[j].prevout.hash == id)
  }

  /** Taking transaction `i` back off: coins and undo log return to what they were. */
  lemma StateBackward(coins: Coins, txs: seq<Tx>, h: int, i: nat)
    requires i < |txs| && BodyOk(txs) && FreshBlock(coins, txs) && ConnectTxs(coins, txs, h).Some?
    ensures var ins, spent := Spends(txs, i), SpentAt(coins, txs, h, i);
      && |spent| == |ins|
      && NotFrom(ins, txs[i].txid)
      && UndoAfter(coins, txs, h, i + 1) == UndoAfter(coins, txs, h, i) + spent
      && DisconnectTx(CoinsAfter(coins, txs, h, i + 1), txs[i], ins, spent) == CoinsAfter(coins, txs, h, i)
  {
    AfterOne(coins, txs, h, i);
    UndoOne(coins, txs, h, i);
    UnspendOverOutputs(CoinsAfter(coins, txs, h, i), txs[i], Spends(txs, i), h);
  }

  lemma BooksBackward(coins: Coins, txs: seq<Tx>, h: int, i: nat)
    requires i < |txs| && BodyOk(txs) && FreshBlock(coins, txs) && ConnectTxs(coins, txs, h).Some?
    ensures var ins, spent := Spends(txs, i), SpentAt(coins, txs, h, i);
      && |spent| == |ins|
      && BooksOf(CoinsAfter(coins, txs, h, i)) == Backward(BooksOf(CoinsAfter(coins, txs, h, i + 1)), txs[i], ins, spent)
  {
    AfterOne(coins, txs, h, i);
    TxDelta(CoinsAfter(coins, txs, h, i), txs[i], Spends(txs, i), h);
  }

  /** The states a connected block went through, one before each transaction and one at the end. */
  datatype Trail = Trail(coins: seq<Coins>, books: seq<Books>, logs: seq<seq<Coin>>, spent: seq<seq<Coin>>)

  /** Transaction `i` leads from state `i` to state `i + 1` and can be taken back. */
  ghost predicate StepBack(t: Trail, txs: seq<Tx>, i: nat)
    requires i < |txs| && |t.coins| == |t.books| == |t.logs| == |txs| + 1 && |t.spent| == |txs|
  {
    var ins, spent := Spends(txs, i), t.spent[i];
    && |spent| == |ins|
    && NotFrom(ins, txs[i].txid)
    && t.logs[i + 1] == t.logs[i] + spent
    && DisconnectTx(t.coins[i + 1], txs[i], ins, spent) == t.coins[i]
    && t.books[i] == Backward(t.books[i + 1], txs[i], ins, spent)
    && OnlyOwn(t.coins[i + 1], txs[i]) && OnlyOwn(t.coins[|txs|], txs[i])
  }

  ghost predicate TrailOf(t: Trail, txs: seq<Tx>, coins: Coins, c: Conn) {
    && |t.coins| == |t.books| == |t.logs| == |txs| + 1 && |t.spent| == |txs|
    && t.coins[0] == coins && t.logs[0] == []
    && t.coins[|txs|] == c.coins && t.logs[|txs|] == c.undo
    && forall i :: 0 <= i < |txs| ==> StepBack(t, txs, i)
  }

  lemma MakeTrail(coins: Coins, txs: seq<Tx>, h: int) returns (t: Trail)
    requires BodyOk(txs) && FreshBlock(coins, txs) && ConnectTxs(coins, txs, h).Some?
    ensures var c := ConnectTxs(coins, txs, h).value;
      TrailOf(t, txs, coins, c) && t.books[0] == BooksOf(coins) && t.books[|txs|] == BooksOf(c.coins)
  {
    t := Trail(
      seq(|txs| + 1, i requires 0 <= i <= |txs| => CoinsAfter(coins, txs, h, i)),
      seq(|txs| + 1, i requires 0 <= i <= |txs| => BooksOf(CoinsAfter(coins, txs, h, i))),
      seq(|txs| + 1, i requires 0 <= i <= |txs| => UndoAfter(coins, txs, h, i)),
      seq(|txs|, i requires 0 <= i < |txs| => SpentAt(coins, txs, h, i)));
    assert txs[..|txs|] == txs;
    forall i | 0 <= i < |txs| ensures StepBack(t, txs, i) {
      MakeStep(t, coins, txs, h, i);
    }
  }

  lemma MakeStep(t: Trail, coins: Coins, txs: seq<Tx>, h: int, i: nat)
    requires i < |txs| && |t.coins| == |t.books| == |t.logs| == |txs| + 1 && |t.spent| == |txs|
    requires BodyOk(txs) && FreshBlock(coins, txs) && ConnectTxs(coins, txs, h).Some?
    requires t.coins[i] == CoinsAfter(coins, txs, h, i) && t.coins[i + 1] == CoinsAfter(coins, txs, h, i + 1)
    requires t.books[i] == BooksOf(t.coins[i]) && t.books[i + 1] == BooksOf(t.coins[i + 1])
    requires t.logs[i] == UndoAfter(coins, txs, h, i) && t.logs[i + 1] == UndoAfter(coins, txs, h, i + 1)
    requires t.spent[i] == SpentAt(coins, txs, h, i) && t.coins[|txs|] == ConnectTxs(coins, txs, h).value.coins
    ensures StepBack(t, txs, i)
  {
    StateBackward(coins, txs, h, i);
    BooksBackward(coins, txs, h, i);
    OwnBoth(coins, txs, h, i);
  }

  lemma OwnBoth(coins: Coins, txs: seq<Tx>, h: int, i: nat)
    requires i < |txs| && FreshBlock(coins, txs) && ConnectTxs(coins, txs, h).Some?
    ensures OnlyOwn(CoinsAfter(coins, txs, h, i + 1), txs[i])
    ensures OnlyOwn(ConnectTxs(coins, txs, h).value.coins, txs[i])
  {
    assert txs[..|txs|] == txs;
    OwnOutputs(coins, txs, h, i, |txs|);
    OwnOutputs(coins, txs, h, i, i + 1);
  }

  lemma UndoOne(coins: Coins, txs: seq<Tx>, h: int, i: nat)
    requires i < |txs| && ConnectTxs(coins, txs, h).Some?
    ensures UndoAfter(coins, txs, h, i + 1) == UndoAfter(coins, txs, h, i) + SpentAt(coins, txs, h, i)
  {
    hide Fresh, FreshBlock, InputsValid, AddOutputs;
    ConnectPrefix(coins, txs, h, i);
    ConnectPrefix(coins, txs, h, i + 1);
    ConnectAppend(coins, txs, h, i);
    ConnectOne(ConnectTxs(coins, txs[..i], h).value, txs, i, h);
  }

  /** No transaction but `txs[i]` itself puts coins under its id. */
  lemma {:induction false} OwnOutputs(coins: Coins, txs: seq<Tx>, h: int, i: nat, k: nat)
    requires i < k <= |txs| && FreshBlock(coins, txs) && ConnectTxs(coins, txs, h).Some?
    ensures OnlyOwn(CoinsAfter(coins, txs, h, k), txs[i])
  {
    AfterOne(coins, txs, h, k - 1);
    AddOutputsShape(CoinsAfter(coins, txs, h, k - 1) - Prevouts(Spends(txs, k - 1)), txs[k - 1], h,
      |txs[k - 1].outputs|);
    if i < k - 1 {
      OwnOutputs(coins, txs, h, i, k - 1);
    }
  }

  lemma {:induction false} UnspendOwn(coins: Coins, tx: Tx, ins: seq<Input>, spent: seq<Coin>)
    requires |ins| == |spent| && OnlyOwn(coins, tx) && NotFrom(ins, tx.txid)
    ensures OnlyOwn(Unspend(coins, ins, spent), tx)
    decreases |ins|
  {
    if ins != [] {
      var n := |ins| - 1;
      UnspendOwn(coins[ins[n].prevout := spent[n]], tx, ins[..n], spent[..n]);
    }
  }

  lemma OverlayPut(db: Coins, v: View, op: Outpoint, coin: Coin)
    ensures Overlay(db, v[op := ViewCoin(coin, false)]) == Overlay(db, v)[op := coin]
  {}
}
