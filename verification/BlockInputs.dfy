/** Verification of the inputs of a whole block (src/blockchain/chain.js, verifyInputs). */
module BlockInputs {
  import opened Primitives
  import opened Ledger
  import opened CoinStore
  import opened BlockRules
  import Consensus

  /** The coins after the first `i` transactions of a block that connects. */
  function CoinsAfter(coins: Coins, txs: seq<Tx>, h: int, i: nat): Coins
    requires i <= |txs|
  {
    match ConnectTxs(coins, txs[..i], h) case None => coins case Some(c) => c.coins
  }

  /** The coins spent by transaction `i`, as they were when spent. */
  function SpentAt(coins: Coins, txs: seq<Tx>, h: int, i: nat): seq<Coin>
    requires i < |txs|
  {
    var before := CoinsAfter(coins, txs, h, i);
    if CanSpend(before, Spends(txs, i)) then SpentCoins(before, Spends(txs, i)) else []
  }

  /** The view can name the coins that transaction `i` spent. */
  ghost predicate CanTell(v: View, ins: seq<Input>, spent: seq<Coin>) {
    |spent| == |ins| && forall j :: 0 <= j < |ins| ==> ins[j].prevout in v && v[ins[j].prevout].coin == spent[j]
  }

  /** The view still knows the coins spent by the first `i` transactions, as they were when spent. */
  ghost predicate RemembersAll(db: Coins, v: View, txs: seq<Tx>, h: int, i: nat)
    requires i <= |txs|
  {
    forall k :: 0 <= k < i ==> CanTell(v, Spends(txs, k), SpentAt(db, txs, h, k))
  }

  /** What a view holds once a block has been verified on top of `db`. */
  ghost predicate Prepared(db: Coins, v: View, undo: seq<Coin>, b: Block, interval: nat) {
    && ConnectBlock(db, b, interval).Some?
    && var c := ConnectBlock(db, b, interval).value;
    && Overlay(db, v) == c.coins
    && undo == c.undo
    && RemembersAll(db, v, b.txs, Height(b), |b.txs|)
  }

  /** The loop invariant of `VerifyInputs`: the view stands for the first `i` transactions. */
  ghost predicate Verified(db: Coins, v: View, undo: seq<Coin>, fees: int, txs: seq<Tx>, h: int, i: nat)
    requires i <= |txs|
  {
    && ConnectTxs(db, txs[..i], h) == Some(Conn(Overlay(db, v), undo, fees))
    && RemembersAll(db, v, txs, h, i)
    && forall m :: i <= m < |txs| ==> NoneOf(v, txs[m].txid)
  }

  lemma VerifiedStart(db: Coins, txs: seq<Tx>, h: int)
    ensures Verified(db, map[], [], 0, txs, h, 0)
  {
    assert Overlay(db, map[]) == db;
  }

  lemma VerifiedEnd(db: Coins, v: View, undo: seq<Coin>, fees: int, txs: seq<Tx>, h: int)
    requires Verified(db, v, undo, fees, txs, h, |txs|)
    ensures ConnectTxs(db, txs, h) == Some(Conn(Overlay(db, v), undo, fees)) && RemembersAll(db, v, txs, h, |txs|)
  {
    assert txs[..|txs|] == txs;
  }

  lemma RemembersLater(db: Coins, v: View, w: View, txs: seq<Tx>, h: int, i: nat)
    requires i <= |txs| && RemembersAll(db, v, txs, h, i) && Extends(v, w)
    ensures RemembersAll(db, w, txs, h, i)
  {}

  /** Spending through the view, from `v` to `w`, did what transaction `i` asks for. */
  ghost predicate SpendDone(db: Coins, v: View, undo: seq<Coin>, fees: int, w: View, undo': seq<Coin>, fees': int,
      txs: seq<Tx>, h: int, i: nat)
    requires i < |txs|
  {
    && Extends(v, w)
    && (forall op :: op in w ==> op in v || op in db)
    && if i == 0 then w == v && undo' == undo && fees' == fees
       else
         && Remembers(w, Overlay(db, v), txs[i].inputs)
         && Overlay(db, w) == Overlay(db, v) - Prevouts(txs[i].inputs)
         && undo' == undo + SpentCoins(Overlay(db, v), txs[i].inputs)
         && InputsValid(SpentCoins(Overlay(db, v), txs[i].inputs), txs[i], h)
         && fees' == fees + TxFee(SpentCoins(Overlay(db, v), txs[i].inputs), txs[i]) <= MAX_MONEY
  }

  lemma ConnectsLike(db: Coins, v: View, undo: seq<Coin>, fees: int, w: View, undo': seq<Coin>, fees': int,
      txs: seq<Tx>, h: int, i: nat)
    requires i < |txs| && SpendDone(db, v, undo, fees, w, undo', fees', txs, h, i)
    ensures ConnectTx(Conn(Overlay(db, v), undo, fees), txs[i], h, i == 0)
      == Some(Conn(AddOutputs(Overlay(db, w), txs[i], h, |txs[i].outputs|), undo', fees'))
  {}

  /** Adding the outputs of transaction `i`, after its inputs were spent, takes the invariant on. */
  lemma VerifiedStep(db: Coins, v: View, undo: seq<Coin>, fees: int, w: View, undo': seq<Coin>, fees': int,
      txs: seq<Tx>, h: int, i: nat)
    requires i < |txs| && FreshBlock(db, txs) && Verified(db, v, undo, fees, txs, h, i)
    requires SpendDone(db, v, undo, fees, w, undo', fees', txs, h, i)
    ensures var x := WithoutHash(w, txs[i].txid) + OutputEntries(txs[i], h, |txs[i].outputs|, false);
      Verified(db, x, undo', fees', txs, h, i + 1)
  {
    var x := WithoutHash(w, txs[i].txid) + OutputEntries(txs[i], h, |txs[i].outputs|, false);
    OverlayAddTx(db, w, txs[i], h);
    ConnectAppend(db, txs, h, i);
    ConnectsLike(db, v, undo, fees, w, undo', fees', txs, h, i);
    RemembersLater(db, v, x, txs, h, i);
    StillNone(w, txs, h, i);
    TellsLatest(db, v, undo, fees, w, undo', fees', txs, h, i);
  }

  lemma TellsLatest(db: Coins, v: View, undo: seq<Coin>, fees: int, w: View, undo': seq<Coin>, fees': int,
      txs: seq<Tx>, h: int, i: nat)
    requires i < |txs| && FreshBlock(db, txs) && Verified(db, v, undo, fees, txs, h, i)
    requires SpendDone(db, v, undo, fees, w, undo', fees', txs, h, i)
    ensures var x := WithoutHash(w, txs[i].txid) + OutputEntries(txs[i], h, |txs[i].outputs|, false);
      CanTell(x, Spends(txs, i), SpentAt(db, txs, h, i))
  {
    OverlayAddTx(db, w, txs[i], h);
    assert CoinsAfter(db, txs, h, i) == Overlay(db, v);
  }

  lemma StillNone(w: View, txs: seq<Tx>, h: int, i: nat)
    requires i < |txs| && DistinctIds(txs)
    requires forall m :: i <= m < |txs| ==> NoneOf(w, txs[m].txid)
    ensures var x := WithoutHash(w, txs[i].txid) + OutputEntries(txs[i], h, |txs[i].outputs|, false);
      forall m :: i + 1 <= m < |txs| ==> NoneOf(x, txs[m].txid)
  {
    OutputEntriesShape(txs[i], h, |txs[i].outputs|, false);
  }

  lemma PrefixFails(db: Coins, txs: seq<Tx>, h: int, i: nat)
    requires i <= |txs| && ConnectTxs(db, txs[..i], h).None?
    ensures ConnectTxs(db, txs, h).None?
  {
    if ConnectTxs(db, txs, h).Some? {
      ConnectPrefix(db, txs, h, i);
    }
  }

  /** Transaction `i` is the one that does not connect. */
  lemma StepFails(db: Coins, v: View, undo: seq<Coin>, fees: int, txs: seq<Tx>, h: int, i: nat)
    requires 0 < i < |txs| && Verified(db, v, undo, fees, txs, h, i)
    requires !CanSpend(Overlay(db, v), txs[i].inputs)
      || !InputsValid(SpentCoins(Overlay(db, v), txs[i].inputs), txs[i], h)
      || fees + TxFee(SpentCoins(Overlay(db, v), txs[i].inputs), txs[i]) > MAX_MONEY
    ensures ConnectTxs(db, txs, h).None?
  {
    ConnectAppend(db, txs, h, i);
    PrefixFails(db, txs, h, i + 1);
  }

  /** Spends every input and adds every output through the view, in order, checking values on the
      way. Accepts exactly the blocks that connect, and leaves the view ready to be written. */
  method VerifyInputs(db: Coins, b: Block, interval: nat) returns (ok: bool, view: CoinView)
    requires BodyOk(b.txs) && FreshBlock(db, b.txs)
    ensures fresh(view) && fresh(view.undo)
    ensures ok <==> ConnectBlock(db, b, interval).Some?
    ensures ok <==> Acceptable(db, b, interval)
    ensures ok ==> Prepared(db, view.entries, view.undo.items, b, interval)
  {
    hide Acceptable, Verified, ConnectTxs, InputsValid, RemembersAll, FreshBlock;
    AcceptedIff(db, b, interval);
    view := new CoinView();
    var txs, h := b.txs, Height(b);
    var reward := 0;
    VerifiedStart(db, txs, h);
    for i := 0 to |txs|
      invariant fresh(view) && fresh(view.undo)
      invariant Verified(db, view.entries, view.undo.items, reward, txs, h, i)
    {
      ghost var v, undo, fees := view.entries, view.undo.items, reward;
      if i > 0 {
        var spent := view.SpendInputs(db, txs[i]);
        if !spent {
          StepFails(db, v, undo, fees, txs, h, i);
          return false, view;
        }
        assert view.Known(txs[i].inputs) == SpentCoins(Overlay(db, v), txs[i].inputs);
        var fee := view.CheckInputs(txs[i], h);
        if fee == -1 {
          StepFails(db, v, undo, fees, txs, h, i);
          return false, view;
        }
        reward := reward + fee;
        if reward > MAX_MONEY {
          StepFails(db, v, undo, fees, txs, h, i);
          return false, view;
        }
      }
      VerifiedStep(db, v, undo, fees, view.entries, view.undo.items, reward, txs, h, i);
      view.AddTx(txs[i], h);
    }
    VerifiedEnd(db, view.entries, view.undo.items, reward, txs, h);
    reward := reward + Consensus.GetReward(h, interval);
    ok := OutputTotal(txs[0].outputs, |txs[0].outputs|) <= reward;
  }
}
