/** The coin viewpoint: an overlay of coins read, created and spent while one block is verified
    or disconnected, and the undo log beside it (src/coins). */
module CoinStore {
  import opened Primitives
  import opened Ledger
  import Consensus

  datatype ViewCoin = ViewCoin(coin: Coin, spent: bool)

  type View = map<Outpoint, ViewCoin>

  /** The stored coins with the view written over them. */
  function Overlay(db: Coins, v: View): Coins {
    map op | op in db.Keys + v.Keys && (op in v ==> !v[op].spent) :: if op in v then v[op].coin else db[op]
  }

  /** Later views keep every coin of earlier ones; only spent flags change. */
  ghost predicate Extends(v: View, w: View) {
    forall op :: op in v ==> op in w && w[op].coin == v[op].coin
  }

  function WithoutHash(v: View, id: TxId): View {
    map op | op in v && !(op.Outpoint? && op.hash == id) :: v[op]
  }

  /** The entries for the first `k` outputs of `tx`. */
  function OutputEntries(tx: Tx, h: int, k: nat, spent: bool): View
    requires k <= |tx.outputs|
  {
    if k == 0 then map[]
    else
      var m := OutputEntries(tx, h, k - 1, spent);
      if tx.outputs[k - 1].Spendable? then m[Outpoint(tx.txid, k - 1) := ViewCoin(CoinOf(tx, k - 1, h), spent)] else m
  }

  /** `op` names one of the first `k` outputs of `tx`, and a spendable one. */
  predicate Names(op: Outpoint, tx: Tx, k: nat)
    requires k <= |tx.outputs|
  {
    op.Outpoint? && op.hash == tx.txid && op.index < k && tx.outputs[op.index].Spendable?
  }

  lemma {:induction false} OutputEntriesShape(tx: Tx, h: int, k: nat, spent: bool)
    requires k <= |tx.outputs|
    ensures forall op :: op in OutputEntries(tx, h, k, spent) <==> Names(op, tx, k)
    ensures forall op :: Names(op, tx, k) ==> OutputEntries(tx, h, k, spent)[op] == ViewCoin(CoinOf(tx, op.index, h), spent)
  {
    if k > 0 {
      OutputEntriesShape(tx, h, k - 1, spent);
    }
  }

  ghost predicate NoneOf(v: View, id: TxId) {
    forall op :: op in v && op.Outpoint? ==> op.hash != id
  }

  lemma OverlayAddTx(db: Coins, v: View, tx: Tx, h: int)
    requires Fresh(db, tx.txid) && NoneOf(v, tx.txid)
    ensures var w := WithoutHash(v, tx.txid) + OutputEntries(tx, h, |tx.outputs|, false);
      && Overlay(db, w) == AddOutputs(Overlay(db, v), tx, h, |tx.outputs|)
      && Extends(v, w)
  {
    var n := |tx.outputs|;
    OutputEntriesShape(tx, h, n, false);
    var w := WithoutHash(v, tx.txid) + OutputEntries(tx, h, n, false);
    var a, b := Overlay(db, w), AddOutputs(Overlay(db, v), tx, h, n);
    forall op ensures (op in a <==> op in b) && (op in a ==> a[op] == b[op]) {
      AddOutputsAt(Overlay(db, v), tx, h, n, op);
    }
  }

  lemma AddOutputsAt(coins: Coins, tx: Tx, h: int, k: nat, op: Outpoint)
    requires k <= |tx.outputs| && Fresh(coins, tx.txid)
    ensures var b := AddOutputs(coins, tx, h, k);
      && (op in b <==> op in coins || Names(op, tx, k))
      && (op in coins ==> b[op] == coins[op])
      && (Names(op, tx, k) ==> b[op] == CoinOf(tx, op.index, h))
  {
    AddOutputsShape(coins, tx, h, k);
    if Names(op, tx, k) {
      assert op == Outpoint(tx.txid, op.index);
    }
  }

  /** The coins under the id of `tx` are outputs of `tx`. */
  ghost predicate OnlyOwn(coins: Coins, tx: Tx) {
    forall op :: op in coins && op.Outpoint? && op.hash == tx.txid ==> Names(op, tx, |tx.outputs|)
  }

  lemma OverlayRemoveTx(db: Coins, v: View, tx: Tx, h: int)
    requires OnlyOwn(db, tx) && OnlyOwn(Overlay(db, v), tx)
    ensures var w := WithoutHash(v, tx.txid) + OutputEntries(tx, h, |tx.outputs|, true);
      Overlay(db, w) == WithoutTx(Overlay(db, v), tx.txid)
  {
    hide AddOutputs, OutputEntries;
    OutputEntriesShape(tx, h, |tx.outputs|, true);
    var w := WithoutHash(v, tx.txid) + OutputEntries(tx, h, |tx.outputs|, true);
    var a, b := Overlay(db, w), WithoutTx(Overlay(db, v), tx.txid);
    hide Names;
    forall op ensures (op in a <==> op in b) && (op in a ==> a[op] == b[op]) {
      if op.Outpoint? && op.hash == tx.txid {
        assert op in w ==> !Names(op, tx, |tx.outputs|) || w[op].spent;
      } else {
        assert op in w <==> op in v;
      }
    }
  }

  lemma MarkSpent(db: Coins, v: View, op: Outpoint)
    requires op in v && !v[op].spent
    ensures op in Overlay(db, v) && Overlay(db, v)[op] == v[op].coin
    ensures Overlay(db, v[op := ViewCoin(v[op].coin, true)]) == Overlay(db, v) - {op}
  {}

  /** The coin of every input, as it was before the transaction, can still be looked up. */
  ghost predicate Remembers(v: View, before: Coins, ins: seq<Input>) {
    forall i :: 0 <= i < |ins| ==>
      ins[i].prevout in before && ins[i].prevout in v && v[ins[i].prevout].coin == before[ins[i].prevout]
  }

  /** The first `j` inputs have been spent from the view `start`; `v` and `undo` are the result. */
  ghost predicate Spent(db: Coins, start: View, v: View, log: seq<Coin>, undo: seq<Coin>, ins: seq<Input>, j: nat)
    requires j <= |ins|
  {
    var O := Overlay(db, start);
    && Extends(start, v)
    && (forall op :: op in v ==> op in start || op in db)
    && CanSpend(O, ins[..j])
    && Overlay(db, v) == O - Prevouts(ins[..j])
    && undo == log + SpentCoins(O, ins[..j])
    && Remembers(v, O, ins[..j])
  }

  lemma SpentStart(db: Coins, start: View, log: seq<Coin>, ins: seq<Input>)
    ensures Spent(db, start, start, log, log, ins, 0)
  {
    assert Overlay(db, start) - Prevouts(ins[..0]) == Overlay(db, start);
  }

  lemma SpentRead(db: Coins, start: View, v: View, w: View, log: seq<Coin>, undo: seq<Coin>, ins: seq<Input>, j: nat)
    requires j <= |ins| && Spent(db, start, v, log, undo, ins, j)
    requires Extends(v, w) && Overlay(db, w) == Overlay(db, v)
    requires forall op :: op in w ==> op in v || op in db
    ensures Spent(db, start, w, log, undo, ins, j)
    ensures Extends(start, v)
  {}

  lemma SpentStep(db: Coins, start: View, v: View, log: seq<Coin>, undo: seq<Coin>, ins: seq<Input>, j: nat)
    requires j < |ins| && NoDuplicateInputs(ins) && Spent(db, start, v, log, undo, ins, j)
    requires ins[j].prevout in v && !v[ins[j].prevout].spent
    ensures var coin := v[ins[j].prevout].coin;
      Spent(db, start, v[ins[j].prevout := ViewCoin(coin, true)], log, undo + [coin], ins, j + 1)
  {
    hide Overlay, Prevouts;
    var O, op := Overlay(db, start), ins[j].prevout;
    MarkSpent(db, v, op);
    assert op in O && O[op] == v[op].coin;
    SpendOneMore(O, ins, j);
  }

  lemma SpendOneMore(O: Coins, ins: seq<Input>, j: nat)
    requires j < |ins| && CanSpend(O, ins[..j]) && ins[j].prevout in O
    ensures O - Prevouts(ins[..j]) - {ins[j].prevout} == O - Prevouts(ins[..j + 1])
    ensures CanSpend(O, ins[..j + 1])
    ensures SpentCoins(O, ins[..j + 1]) == SpentCoins(O, ins[..j]) + [O[ins[j].prevout]]
  {
    PrevoutsStep(ins, j);
  }

  lemma PrevoutsStep(ins: seq<Input>, j: nat)
    requires j < |ins|
    ensures Prevouts(ins[..j + 1]) == Prevouts(ins[..j]) + {ins[j].prevout}
  {}

  lemma SpentAll(db: Coins, start: View, v: View, log: seq<Coin>, undo: seq<Coin>, ins: seq<Input>)
    requires Spent(db, start, v, log, undo, ins, |ins|)
    ensures var O := Overlay(db, start);
      && CanSpend(O, ins)
      && Overlay(db, v) == O - Prevouts(ins)
      && undo == log + SpentCoins(O, ins)
      && Remembers(v, O, ins)
    ensures Extends(start, v) && forall op :: op in v ==> op in start || op in db
  {
    assert ins[..|ins|] == ins;
  }

  lemma SpentFails(db: Coins, start: View, v: View, log: seq<Coin>, undo: seq<Coin>, ins: seq<Input>, j: nat)
    requires j < |ins| && NoDuplicateInputs(ins) && Spent(db, start, v, log, undo, ins, j)
    requires ins[j].prevout !in Overlay(db, start) || (ins[j].prevout in v && v[ins[j].prevout].spent)
    ensures !CanSpend(Overlay(db, start), ins)
    ensures Extends(start, v) && forall op :: op in v ==> op in start || op in db
  {
    assert ins[j].prevout !in Prevouts(ins[..j]);
    if ins[j].prevout in v && v[ins[j].prevout].spent {
      assert ins[j].prevout !in Overlay(db, v);
    }
  }

  /** The spent coins of a block, in the order they were spent (src/coins/undocoins.js). */
  class UndoCoins {
    var items: seq<Coin>

    constructor (coins: seq<Coin>)
      ensures items == coins
    {
      items := coins;
    }

    method Push(coin: Coin)
      modifies this
      ensures items == old(items) + [coin]
    {
      items := items + [coin];
    }

    predicate IsEmpty()
      reads this
    {
      |items| == 0
    }

    /** Render the log and empty it. */
    method Commit() returns (raw: seq<Coin>)
      modifies this
      ensures raw == old(items) && items == []
    {
      raw := items;
      items := [];
    }

    /** Put the most recently spent coin back into a view. */
    method Apply(view: CoinView, prevout: Outpoint)
      requires items != [] && view.undo != this
      modifies this, view
      ensures items == old(items)[..|old(items)| - 1]
      ensures view.entries == old(view.entries)[prevout := ViewCoin(old(items)[|old(items)| - 1], false)]
    {
      var undo := items[|items| - 1];
      items := items[..|items| - 1];
      view.AddEntry(prevout, undo);
    }
  }

  class CoinView {
    var entries: View
    const undo: UndoCoins

    constructor ()
      ensures entries == map[] && undo.items == []
      ensures fresh(undo)
    {
      entries := map[];
      undo := new UndoCoins([]);
    }

    method AddEntry(prevout: Outpoint, coin: Coin)
      modifies this
      ensures entries == old(entries)[prevout := ViewCoin(coin, false)]
    {
      entries := entries[prevout := ViewCoin(coin, false)];
    }

    /** The coins of `tx`, one entry for each spendable output. */
    method FromTx(tx: Tx, h: int, spent: bool) returns (outs: View)
      ensures outs == OutputEntries(tx, h, |tx.outputs|, spent)
    {
      outs := map[];
      for i := 0 to |tx.outputs|
        invariant outs == OutputEntries(tx, h, i, spent)
      {
        if tx.outputs[i].Spendable? {
          outs := outs[Outpoint(tx.txid, i) := ViewCoin(CoinOf(tx, i, h), spent)];
        }
      }
    }

    /** Replaces every entry under the id of `tx` by its outputs. */
    method AddTx(tx: Tx, h: int)
      modifies this
      ensures entries == WithoutHash(old(entries), tx.txid) + OutputEntries(tx, h, |tx.outputs|, false)
    {
      var outs := FromTx(tx, h, false);
      entries := WithoutHash(entries, tx.txid) + outs;
    }

    /** Replaces every entry under the id of `tx` by its outputs, marked spent. */
    method RemoveTx(tx: Tx, h: int)
      modifies this
      ensures entries == WithoutHash(old(entries), tx.txid) + OutputEntries(tx, h, |tx.outputs|, true)
    {
      var outs := FromTx(tx, h, true);
      entries := WithoutHash(entries, tx.txid) + outs;
    }

    /** Finds a coin in the view or, failing that, in the database. */
    method ReadCoin(db: Coins, prevout: Outpoint) returns (found: bool)
      modifies this
      ensures found <==> prevout in entries
      ensures Extends(old(entries), entries)
      ensures entries == old(entries)
        || (prevout !in old(entries) && prevout in db && entries == old(entries)[prevout := ViewCoin(db[prevout], false)])
      ensures prevout in old(entries) || prevout in db ==> found
      ensures Overlay(db, entries) == Overlay(db, old(entries))
    {
      if prevout in entries {
        return true;
      }
      if prevout !in db {
        return false;
      }
      AddEntry(prevout, db[prevout]);
      assert Overlay(db, entries) == Overlay(db, old(entries));
      return true;
    }

    method ReadBatch(db: Coins, ins: seq<Input>, i: nat, len: nat) returns (found: seq<bool>)
      requires i <= len <= |ins|
      modifies this
      ensures |found| == len - i
      ensures forall k :: i <= k < len ==>
        if found[k - i] then ins[k].prevout in entries else ins[k].prevout !in old(entries) && ins[k].prevout !in db
      ensures Extends(old(entries), entries)
      ensures forall op :: op in entries ==> op in old(entries) || op in db
      ensures Overlay(db, entries) == Overlay(db, old(entries))
    {
      found := [];
      for j := i to len
        invariant |found| == j - i
        invariant forall k :: i <= k < j ==>
          if found[k - i] then ins[k].prevout in entries else ins[k].prevout !in old(entries) && ins[k].prevout !in db
        invariant Extends(old(entries), entries)
        invariant forall op :: op in entries ==> op in old(entries) || op in db
        invariant Overlay(db, entries) == Overlay(db, old(entries))
      {
        var f := ReadCoin(db, ins[j].prevout);
        found := found + [f];
      }
    }

    /** Spends every input: four coins are read at a time, then marked spent one by one. */
    method SpendInputs(db: Coins, tx: Tx) returns (ok: bool)
      requires NoDuplicateInputs(tx.inputs)
      modifies this, undo
      ensures ok <==> CanSpend(Overlay(db, old(entries)), tx.inputs)
      ensures ok ==> Overlay(db, entries) == Overlay(db, old(entries)) - Prevouts(tx.inputs)
      ensures ok ==> undo.items == old(undo.items) + SpentCoins(Overlay(db, old(entries)), tx.inputs)
      ensures ok ==> Remembers(entries, Overlay(db, old(entries)), tx.inputs)
      ensures Extends(old(entries), entries)
      ensures forall op :: op in entries ==> op in old(entries) || op in db
    {
      hide Spent, Remembers;
      var ins := tx.inputs;
      var i := 0;
      SpentStart(db, entries, undo.items, ins);
      while i < |ins|
        invariant 0 <= i <= |ins|
        invariant Spent(db, old(entries), entries, old(undo.items), undo.items, ins, i)
      {
        var len := if i + 4 < |ins| then i + 4 else |ins|;
        ghost var v := entries;
        var found := ReadBatch(db, ins, i, len);
        SpentRead(db, old(entries), v, entries, old(undo.items), undo.items, ins, i);
        for j := i to len
          invariant Spent(db, old(entries), entries, old(undo.items), undo.items, ins, j)
          invariant forall k :: i <= k < len ==>
            if found[k - i] then ins[k].prevout in entries else ins[k].prevout !in Overlay(db, old(entries))
        {
          var op := ins[j].prevout;
          if !found[j - i] || entries[op].spent {
            SpentFails(db, old(entries), entries, old(undo.items), undo.items, ins, j);
            return false;
          }
          SpentStep(db, old(entries), entries, old(undo.items), undo.items, ins, j);
          undo.Push(entries[op].coin);
          entries := entries[op := ViewCoin(entries[op].coin, true)];
        }
        i := len;
      }
      SpentAll(db, old(entries), entries, old(undo.items), undo.items, ins);
      return true;
    }

    /** Coin of an input as the view knows it, spent or not. */
    ghost function Known(ins: seq<Input>): seq<Coin>
      reads this
      requires forall i :: 0 <= i < |ins| ==> ins[i].prevout in entries
    {
      seq(|ins|, i requires 0 <= i < |ins| reads this requires ins[i].prevout in entries => entries[ins[i].prevout].coin)
    }

    /** Maturity and value checks on the inputs; the fee, or -1 when one fails. */
    method CheckInputs(tx: Tx, h: int) returns (fee: int)
      ensures fee != -1 <==> (forall i :: 0 <= i < |tx.inputs| ==> tx.inputs[i].prevout in entries) && InputsValid(Known(tx.inputs), tx, h)
      ensures fee != -1 ==> fee == TxFee(Known(tx.inputs), tx)
    {
      var total := 0;
      for i := 0 to |tx.inputs|
        invariant forall k :: 0 <= k < i ==> tx.inputs[k].prevout in entries
        invariant total == CoinTotal(Known(tx.inputs[..i]), i)
        invariant forall k :: 0 <= k < i ==> Mature(entries[tx.inputs[k].prevout].coin, h) && InRange(entries[tx.inputs[k].prevout].coin.output.value)
        invariant forall k :: 0 < k <= i ==> InRange(CoinTotal(Known(tx.inputs[..i]), k))
      {
        var op := tx.inputs[i].prevout;
        if op !in entries {
          return -1;
        }
        var entry := entries[op].coin;
        assert Known(tx.inputs[..i + 1]) == Known(tx.inputs[..i]) + [entry];
        CoinTotalPrefix(Known(tx.inputs[..i]), [entry]);
        if entry.coinbase && h - entry.height < COINBASE_MATURITY {
          FailsAt(tx, h, i);
          return -1;
        }
        if entry.output.value < 0 || entry.output.value > MAX_MONEY {
          FailsAt(tx, h, i);
          return -1;
        }
        total := total + entry.output.value;
        if total < 0 || total > MAX_MONEY {
          FailsAt(tx, h, i);
          return -1;
        }
      }
      assert tx.inputs[..|tx.inputs|] == tx.inputs;
      var value := OutputTotal(tx.outputs, |tx.outputs|);
      if total < value {
        return -1;
      }
      fee := total - value;
      if fee > MAX_MONEY {
        return -1;
      }
    }

    lemma FailsAt(tx: Tx, h: int, i: nat)
      requires i < |tx.inputs|
      requires forall k :: 0 <= k <= i ==> tx.inputs[k].prevout in entries
      requires var c := Known(tx.inputs[..i + 1]);
        !Mature(c[i], h) || !InRange(c[i].output.value) || !InRange(CoinTotal(c, i + 1))
      ensures (forall k :: 0 <= k < |tx.inputs| ==> tx.inputs[k].prevout in entries) ==> !InputsValid(Known(tx.inputs), tx, h)
    {
      if forall k :: 0 <= k < |tx.inputs| ==> tx.inputs[k].prevout in entries {
        var c := Known(tx.inputs);
        assert Known(tx.inputs[..i + 1]) == c[..i + 1];
        CoinTotalPrefix(c[..i + 1], c[i + 1..]);
        assert c[..i + 1] + c[i + 1..] == c;
      }
    }
  }
}
