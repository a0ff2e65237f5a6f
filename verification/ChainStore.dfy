/** The chain database: records written in atomic batches (src/blockchain/chaindb.js). */
module ChainStore {
  import opened Primitives
  import opened Ledger
  import opened Totals
  import opened Replay
  import opened CoinStore
  import opened BlockInputs
  import opened BlockTrail
  import opened ChainRecords

  class ChainDB {
    const genesis: Block
    const interval: nat

    // Committed records, and the totals that go with them.
    var db: Records
    var state: ChainState
    var cacheHeight: map<nat, Block>

    // The batch being built and its totals.
    var open: bool
    var batch: Records
    var pending: ChainState
    var pendingHeight: map<nat, Block>

    /** The committed state, whatever batch may be under way. */
    ghost predicate Committed()
      reads this
    {
      && Consistent(db, genesis, interval)
      && db.state == Some(state) && state.tip.Some?
      && (forall i :: i in cacheHeight ==> i in db.hashes && db.hashes[i] == cacheHeight[i])
    }

    ghost predicate Valid()
      reads this
    {
      !open && Committed()
    }

    ghost function Tip(): Block
      reads this
    {
      if state.tip.Some? then state.tip.value else genesis
    }

    /** A batch is under way; nothing of it has reached the committed records. */
    method Start()
      requires !open
      modifies this`open, this`batch, this`pending, this`pendingHeight
      ensures open && batch == db && pending == state.Clone() && pendingHeight == cacheHeight
    {
      open := true;
      batch := db;
      pending := state.Clone();
      pendingHeight := cacheHeight;
    }

    method Commit()
      requires open
      modifies this
      ensures !open && db == old(batch) && cacheHeight == old(pendingHeight)
      ensures state == if old(pending.committed) then old(pending) else old(state)
    {
      db := batch;
      if pending.committed {
        state := pending;
      }
      cacheHeight := pendingHeight;
      open := false;
    }

    method Drop()
      requires open
      modifies this`open
      ensures !open
    {
      open := false;
    }

    // ----- coins

    /** The totals and the address index as the batch has them. */
    ghost function Kept(): Books
      reads this
    {
      Books(pending.coin, pending.value, batch.index)
    }

    /** Write a view over the coins. */
    method SaveView(view: CoinView)
      requires open
      modifies this`batch
      ensures batch == old(batch).(coins := Overlay(old(batch.coins), view.entries))
    {
      var todo := view.entries.Keys;
      ghost var db0, v, done := batch.coins, view.entries, {};
      OverlayNone(db0, v);
      while todo != {}
        invariant done + todo == v.Keys && done !! todo
        invariant batch == old(batch).(coins := batch.coins)
        invariant batch.coins == Written(db0, v, done)
        decreases todo
      {
        var op :| op in todo;
        OverlayOne(db0, v, done, op);
        if view.entries[op].spent {
          batch := batch.(coins := batch.coins - {op});
        } else {
          batch := batch.(coins := batch.coins[op := view.entries[op].coin]);
        }
        todo := todo - {op};
        done := done + {op};
      }
      OverlayAll(db0, v);
    }

    /** Count the coins behind `ins` as spent. */
    method TallySpends(ins: seq<Input>, view: CoinView, ghost spent: seq<Coin>)
      requires CanTell(view.entries, ins, spent)
      modifies this`pending
      ensures pending == old(pending).(coin := old(pending.coin) - |ins|, value := old(pending.value) - CoinTotal(spent, |ins|))
    {
      for j := 0 to |ins|
        invariant pending == old(pending).(coin := old(pending.coin) - j, value := old(pending.value) - CoinTotal(spent, j))
      {
        pending := pending.Spend(view.entries[ins[j].prevout].coin.output);
      }
    }

    method TallyOutputs(tx: Tx)
      modifies this`pending
      ensures pending == old(pending).(
        coin := old(pending.coin) + SpendableCount(tx.outputs, |tx.outputs|),
        value := old(pending.value) + SpendableValue(tx.outputs, |tx.outputs|))
    {
      for j := 0 to |tx.outputs|
        invariant pending == old(pending).(
          coin := old(pending.coin) + SpendableCount(tx.outputs, j),
          value := old(pending.value) + SpendableValue(tx.outputs, j))
      {
        if tx.outputs[j].Spendable? {
          pending := pending.Add(tx.outputs[j]);
        }
      }
    }

    /** The reverse walk over the outputs when a transaction is disconnected. */
    method UntallyOutputs(tx: Tx)
      modifies this`pending
      ensures pending == old(pending).(
        coin := old(pending.coin) - SpendableCount(tx.outputs, |tx.outputs|),
        value := old(pending.value) - SpendableValue(tx.outputs, |tx.outputs|))
    {
      var j := |tx.outputs|;
      while j > 0
        invariant 0 <= j <= |tx.outputs|
        invariant pending == old(pending).(
          coin := old(pending.coin) - SpendableCount(tx.outputs, |tx.outputs|) + SpendableCount(tx.outputs, j),
          value := old(pending.value) - SpendableValue(tx.outputs, |tx.outputs|) + SpendableValue(tx.outputs, j))
      {
        j := j - 1;
        if tx.outputs[j].Spendable? {
          pending := pending.Spend(tx.outputs[j]);
        }
      }
    }

    /** Address index of one transaction: spent coins leave it, new outputs enter it. */
    method IndexTx(tx: Tx, view: CoinView, ghost ins: seq<Input>, ghost spent: seq<Coin>)
      requires ins == if tx.IsCoinbase() then [] else tx.inputs
      requires CanTell(view.entries, ins, spent)
      modifies this`batch
      ensures batch == old(batch).(
        index := (old(batch.index) - InIndex(ins, spent, |ins|)) + OutIndex(tx, |tx.outputs|))
    {
      if !tx.IsCoinbase() {
        for j := 0 to |tx.inputs|
          invariant batch == old(batch).(index := old(batch.index) - InIndex(ins, spent, j))
        {
          var op := tx.inputs[j].prevout;
          batch := batch.(index := batch.index - Totals.Entry(AddressOf(view.entries[op].coin.output), op));
        }
      }
      ghost var base := batch.index;
      for j := 0 to |tx.outputs|
        invariant batch == old(batch).(index := base + OutIndex(tx, j))
      {
        batch := batch.(index := batch.index + Totals.Entry(AddressOf(tx.outputs[j]), Outpoint(tx.txid, j)));
      }
    }

    method UnindexTx(tx: Tx, view: CoinView, ghost ins: seq<Input>, ghost spent: seq<Coin>)
      requires ins == if tx.IsCoinbase() then [] else tx.inputs
      requires CanTell(view.entries, ins, spent)
      modifies this`batch
      ensures batch == old(batch).(
        index := (old(batch.index) + InIndex(ins, spent, |ins|)) - OutIndex(tx, |tx.outputs|))
    {
      if !tx.IsCoinbase() {
        for j := 0 to |tx.inputs|
          invariant batch == old(batch).(index := old(batch.index) + InIndex(ins, spent, j))
        {
          var op := tx.inputs[j].prevout;
          batch := batch.(index := batch.index + Totals.Entry(AddressOf(view.entries[op].coin.output), op));
        }
      }
      ghost var base := batch.index;
      for j := 0 to |tx.outputs|
        invariant batch == old(batch).(index := base - OutIndex(tx, j))
      {
        batch := batch.(index := batch.index - Totals.Entry(AddressOf(tx.outputs[j]), Outpoint(tx.txid, j)));
      }
    }

    /** Totals and address index for one transaction of a block being connected. */
    method ConnectOneTx(tx: Tx, first: bool, view: CoinView, ghost ins: seq<Input>, ghost spent: seq<Coin>)
      requires first == tx.IsCoinbase() && ins == if first then [] else tx.inputs
      requires CanTell(view.entries, ins, spent)
      modifies this`batch, this`pending
      ensures batch == old(batch).(index := batch.index)
      ensures pending == old(pending).(coin := pending.coin, value := pending.value)
      ensures Kept() == Forward(old(Kept()), tx, ins, spent)
    {
      if !first {
        TallySpends(tx.inputs, view, spent);
      }
      TallyOutputs(tx);
      IndexTx(tx, view, ins, spent);
    }

    /** Totals and address index for every transaction of a block being connected. */
    method ConnectAll(b: Block, view: CoinView, ghost coins: Coins)
      requires BodyOk(b.txs) && FreshBlock(coins, b.txs) && ConnectTxs(coins, b.txs, Height(b)).Some?
      requires RemembersAll(coins, view.entries, b.txs, Height(b), |b.txs|)
      requires Kept() == BooksOf(coins)
      modifies this`batch, this`pending
      ensures batch == old(batch).(index := batch.index)
      ensures pending == old(pending).(coin := pending.coin, value := pending.value)
      ensures Kept() == BooksOf(ConnectTxs(coins, b.txs, Height(b)).value.coins)
    {
      ghost var h, txs := Height(b), b.txs;
      hide BooksOf;
      for i := 0 to |b.txs|
        invariant batch == old(batch).(index := batch.index)
        invariant pending == old(pending).(coin := pending.coin, value := pending.value)
        invariant Kept() == BooksOf(CoinsAfter(coins, txs, h, i))
      {
        BooksForward(coins, txs, h, i);
        ConnectOneTx(b.txs[i], i == 0, view, Spends(txs, i), SpentAt(coins, txs, h, i));
      }
      assert txs[..|txs|] == txs;
    }

    /** Connect the inputs and outputs of a verified block: totals, address index, coins, undo log. */
    method ConnectBlock(b: Block, view: CoinView)
      requires open && b.prev.Some? && BodyOk(b.txs) && FreshBlock(batch.coins, b.txs)
      requires Prepared(batch.coins, view.entries, view.undo.items, b, interval)
      requires Kept() == BooksOf(batch.coins)
      modifies this`batch, this`pending, view.undo
      ensures var c := Ledger.ConnectBlock(old(batch.coins), b, interval).value;
        && batch == Ledgered(old(batch), c.coins, PutUndo(old(batch.undo), b, c.undo))
        && pending == Totalled(old(pending), |b.txs|, c.coins)
    {
      pending := pending.Connect(b);
      ConnectAll(b, view, batch.coins);
      SaveView(view);
      if !view.undo.IsEmpty() {
        var raw := view.undo.Commit();
        batch := batch.(undo := batch.undo[b := raw]);
      }
    }

    /** Put the coins behind `ins` back, last input first, popping them off the undo log. */
    method UndoInputs(ins: seq<Input>, view: CoinView, undo: UndoCoins, ghost coins: Coins, ghost front: seq<Coin>,
        ghost spent: seq<Coin>)
      requires |spent| == |ins| && NoDuplicateInputs(ins)
      requires undo.items == front + spent && view.undo != undo
      modifies this`pending, undo, view
      ensures undo.items == front
      ensures pending == old(pending).(coin := old(pending.coin) + |ins|, value := old(pending.value) + CoinTotal(spent, |ins|))
      ensures Overlay(coins, view.entries) == Unspend(Overlay(coins, old(view.entries)), ins, spent)
      ensures CanTell(view.entries, ins, spent)
    {
      hide Overlay, Unspend;
      var j := |ins|;
      assert ins[..j] == ins && spent[..j] == spent;
      while j > 0
        invariant 0 <= j <= |ins|
        invariant undo.items == front + spent[..j]
        invariant pending == old(pending).(
          coin := old(pending.coin) + |ins| - j,
          value := old(pending.value) + CoinTotal(spent, |ins|) - CoinTotal(spent, j))
        invariant Unspend(Overlay(coins, view.entries), ins[..j], spent[..j]) == Unspend(Overlay(coins, old(view.entries)), ins, spent)
        invariant forall k :: j <= k < |ins| ==> ins[k].prevout in view.entries && view.entries[ins[k].prevout].coin == spent[k]
      {
        j := j - 1;
        var op := ins[j].prevout;
        OverlayPut(coins, view.entries, op, spent[j]);
        UnspendStep(Overlay(coins, view.entries), ins, spent, j);
        assert (front + spent[..j + 1])[..|front| + j] == front + spent[..j];
        undo.Apply(view, op);
        pending := pending.Add(view.entries[op].coin.output);
      }
      UnspendNone(Overlay(coins, view.entries));
    }

    /** One transaction of a block being disconnected. */
    method DisconnectOneTx(tx: Tx, first: bool, h: int, view: CoinView, undo: UndoCoins,
                           ghost coins: Coins, ghost front: seq<Coin>, ghost ins: seq<Input>, ghost spent: seq<Coin>)
      requires first == tx.IsCoinbase() && ins == if first then [] else tx.inputs
      requires |spent| == |ins| && NoDuplicateInputs(tx.inputs) && NotFrom(ins, tx.txid)
      requires undo.items == front + spent && view.undo != undo
      requires OnlyOwn(coins, tx) && OnlyOwn(Overlay(coins, view.entries), tx)
      modifies this`batch, this`pending, undo, view
      ensures undo.items == front
      ensures Overlay(coins, view.entries) == DisconnectTx(Overlay(coins, old(view.entries)), tx, ins, spent)
      ensures batch == old(batch).(index := batch.index)
      ensures pending == old(pending).(coin := pending.coin, value := pending.value)
      ensures Kept() == Backward(old(Kept()), tx, ins, spent)
    {
      if !first {
        UndoInputs(tx.inputs, view, undo, coins, front, spent);
      }
      UnspendOwn(Overlay(coins, old(view.entries)), tx, ins, spent);
      OverlayRemoveTx(coins, view.entries, tx, h);
      OutputEntriesShape(tx, h, |tx.outputs|, true);
      view.RemoveTx(tx, h);
      UntallyOutputs(tx);
      UnindexTx(tx, view, ins, spent);
    }

    /** Disconnect every transaction, last one first. The undo log is used up exactly. */
    method DisconnectAll(b: Block, view: CoinView, undo: UndoCoins, ghost coins: Coins, ghost c: Conn, ghost t: Trail)
      requires BodyOk(b.txs) && TrailOf(t, b.txs, coins, c)
      requires undo.items == c.undo && Overlay(db.coins, view.entries) == c.coins == db.coins
      requires Kept() == t.books[|b.txs|]
      requires view.undo != undo
      modifies this`batch, this`pending, undo, view
      ensures undo.items == []
      ensures Overlay(db.coins, view.entries) == coins
      ensures batch == old(batch).(index := batch.index)
      ensures pending == old(pending).(coin := pending.coin, value := pending.value)
      ensures Kept() == t.books[0]
    {
      var i := |b.txs|;
      while i > 0
        invariant 0 <= i <= |b.txs|
        invariant undo.items == t.logs[i]
        invariant Overlay(db.coins, view.entries) == t.coins[i]
        invariant batch == old(batch).(index := batch.index)
        invariant pending == old(pending).(coin := pending.coin, value := pending.value)
        invariant Kept() == t.books[i]
      {
        i := i - 1;
        assert StepBack(t, b.txs, i);
        DisconnectOneTx(b.txs[i], i == 0, Height(b), view, undo, db.coins, t.logs[i], Spends(b.txs, i), t.spent[i]);
      }
    }

    /** Disconnect a block from its undo record; `coins` is what there was before it. */
    method DisconnectBlock(b: Block, ghost coins: Coins)
      requires open && b.prev.Some? && BodyOk(b.txs) && FreshBlock(coins, b.txs)
      requires Ledger.ConnectBlock(coins, b, interval).Some?
      requires var c := Ledger.ConnectBlock(coins, b, interval).value;
        GetUndo(db.undo, b) == c.undo && db.coins == batch.coins == c.coins && Kept() == BooksOf(c.coins)
      modifies this`batch, this`pending
      ensures batch == Ledgered(old(batch), coins, old(batch.undo) - {b})
      ensures pending == Totalled(old(pending), -|b.txs|, coins)
    {
      hide FreshBlock, BodyOk, AddOutputs, IndexOf, TotalValue;
      var view := new CoinView();
      var undo := new UndoCoins(GetUndo(db.undo, b));
      pending := pending.Disconnect(b);
      assert Overlay(db.coins, view.entries) == db.coins;
      ghost var t := MakeTrail(coins, b.txs, Height(b));
      DisconnectAll(b, view, undo, coins, ConnectTxs(coins, b.txs, Height(b)).value, t);
      assert undo.IsEmpty();
      SaveView(view);
      batch := batch.(undo := batch.undo - {b});
    }

    // ----- reading entries

    method GetEntry(hash: Block) returns (e: Option<Entry>)
      requires Committed()
      ensures e == if hash in db.blocks then Some(EntryOf(hash)) else None
    {
      e := if hash in db.entries then Some(db.entries[hash]) else None;
    }

    method HasEntry(hash: Block) returns (known: bool)
      requires Committed()
      ensures known <==> hash in db.blocks
    {
      known := hash in db.heights;
    }

    method GetPrevious(entry: Entry) returns (e: Option<Entry>)
      requires Committed()
      ensures e == if entry.hash.prev.Some?
        && entry.hash.prev.value in db.blocks then Some(EntryOf(entry.hash.prev.value)) else None
    {
      if entry.hash.prev.None? {
        return None;
      }
      e := GetEntry(entry.hash.prev.value);
    }

    /** Main-chain membership by genesis, tip, height cache or next-block record: each of these
        routes gives the same answer as walking down from the tip. */
    method IsMainChain(entry: Entry) returns (main: bool)
      requires Committed() && entry.hash in db.blocks && entry == EntryOf(entry.hash)
      ensures main <==> IsAncestor(entry.hash, Tip())
      ensures main <==> entry.height in db.hashes && db.hashes[entry.height] == entry.hash
    {
      assert Grown(genesis, entry.hash) && Grown(genesis, Tip());
      MainFacts(genesis, Tip(), entry.hash);
      if entry.IsGenesis() {
        return true;
      }
      if state.tip == Some(entry.hash) {
        return true;
      }
      if entry.height in cacheHeight {
        return cacheHeight[entry.height] == entry.hash;
      }
      return entry.hash in db.next;
    }

    /** The ancestor at a height: by the height index on the main chain, by walking elsewhere. */
    method GetAncestor(entry: Entry, height: int) returns (e: Option<Entry>)
      requires Committed() && entry.hash in db.blocks && entry == EntryOf(entry.hash) && height <= entry.height
      ensures e.Some? ==> 0 <= height && e == Some(EntryOf(Ancestor(entry.hash, height)))
      ensures Closed(db.blocks) && 0 <= height ==> e.Some?
    {
      if height < 0 {
        return None;
      }
      var main := IsMainChain(entry);
      if main {
        MainHashAt(Tip(), height);
        AncestorHeight(entry.hash, Tip());
        SameAncestor(entry.hash, Tip(), height);
        AncestorTrans(Ancestor(Tip(), height), entry.hash, Tip());
        e := GetEntry(db.hashes[height]);
        return;
      }
      var cur := entry;
      while cur.height != height
        invariant cur.hash in db.blocks && cur == EntryOf(cur.hash) && height <= cur.height
        invariant Ancestor(cur.hash, height) == Ancestor(entry.hash, height)
        decreases cur.height
      {
        var p := GetPrevious(cur);
        if p.None? {
          return None;
        }
        cur := p.value;
      }
      return Some(cur);
    }

    // ----- writing

    constructor (genesis: Block, interval: nat)
      requires genesis.prev.None?
      ensures this.genesis == genesis && this.interval == interval
      ensures Valid() && Tip() == genesis && TreeOk(db) && db.blocks == {genesis}
    {
      hide ChainRecords.Consistent, TreeOk;
      this.genesis := genesis;
      this.interval := interval;
      db := FirstRecords(genesis);
      state := FirstRecords(genesis).state.value;
      cacheHeight := map[0 := genesis];
      open := false;
      FirstConsistent(genesis, interval);
    }

    /** Store a block off the main chain: nothing about the main chain changes. */
    method SaveAlternate(b: Block)
      requires Valid() && b !in db.blocks && b.prev.Some? && b.prev.value in db.blocks && BodyOk(b.txs)
      modifies this
      ensures Valid() && db == SavedAlternate(old(db), b) && state == old(state)
    {
      hide Consistent;
      SaveConsistent(db, genesis, interval, b);
      Start();
      batch := SavedAlternate(batch, b);
      Commit();
    }

    /** The main-chain part of saving or reconnecting a block, within a batch. */
    method Advance(b: Block, view: CoinView)
      requires open && b.prev.Some? && BodyOk(b.txs) && FollowsTip(batch, b.prev.value, interval)
      requires pending == MainState(b.prev.value, interval).Clone()
      requires FreshBlock(batch.coins, b.txs) && Prepared(batch.coins, view.entries, view.undo.items, b, interval)
      modifies this`batch, this`pending, this`pendingHeight, view.undo
      ensures batch == Connected(old(batch), b, interval) && pending == MainState(b, interval)
      ensures pendingHeight == old(pendingHeight)[Height(b) := b]
    {
      NextState(b, interval);
      batch := batch.(next := batch.next[b.prev.value := b]);
      batch := batch.(hashes := batch.hashes[Height(b) := b]);
      pendingHeight := pendingHeight[Height(b) := b];
      ConnectBlock(b, view);
      pending := pending.Commit(b);
      batch := batch.(state := Some(pending));
    }

    /** Store a block and connect it on top of the tip. */
    method Save(b: Block, view: CoinView)
      requires Valid() && b !in db.blocks && b.prev == Some(Tip()) && BodyOk(b.txs)
      requires FreshBlock(db.coins, b.txs) && Prepared(db.coins, view.entries, view.undo.items, b, interval)
      modifies this, view.undo
      ensures Valid() && Tip() == b && ValidChain(b, interval)
      ensures db == Connected(SavedAlternate(old(db), b), b, interval)
    {
      hide Consistent, MainState, Connected, FollowsTip, SavedAlternate;
      Moved(SavedAlternate(db, b), b, interval);
      TipFacts(db, genesis, interval, b.prev.value);
      TipCoins(db, genesis, interval);
      SavedFollows(db, b, interval);
      SaveMainConsistent(db, genesis, interval, b);
      Start();
      batch := SavedAlternate(batch, b);
      Advance(b, view);
      Commit();
    }

    /** Connect a stored block on top of the tip. */
    method Reconnect(b: Block, view: CoinView)
      requires Valid() && b in db.blocks && b.prev == Some(Tip()) && BodyOk(b.txs)
      requires FreshBlock(db.coins, b.txs) && Prepared(db.coins, view.entries, view.undo.items, b, interval)
      modifies this, view.undo
      ensures Valid() && Tip() == b && ValidChain(b, interval)
      ensures db == Connected(old(db), b, interval)
    {
      hide Consistent, MainState, Connected, FollowsTip;
      Moved(db, b, interval);
      TipFacts(db, genesis, interval, b.prev.value);
      TipCoins(db, genesis, interval);
      ConnectConsistent(db, genesis, interval, b);
      Start();
      Advance(b, view);
      Commit();
    }

    /** The main-chain part of disconnecting the tip, within a batch. */
    method Retreat(b: Block)
      requires open && b.prev.Some? && BodyOk(b.txs) && FollowsTip(db, b, interval) && FollowsTip(batch, b, interval)
      requires pending == MainState(b, interval).Clone()
      modifies this`batch, this`pending
      ensures batch == Disconnected(old(batch), b, interval) && pending == MainState(b.prev.value, interval)
    {
      PreviousState(b, interval);
      GetUndoOfTip(b, interval);
      batch := batch.(next := batch.next - {b.prev.value});
      batch := batch.(hashes := batch.hashes - {Height(b)});
      DisconnectBlock(b, CoinsAt(b.prev.value, interval));
      pending := pending.Commit(b.prev.value);
      batch := batch.(state := Some(pending));
    }

    /** Take the tip off the main chain; its entry and data stay. */
    method Disconnect(b: Block)
      requires Valid() && b == Tip() && b.prev.Some?
      modifies this
      ensures Valid() && Tip() == b.prev.value && db == Disconnected(old(db), b, interval)
    {
      hide Consistent, FollowsTip, MainState, Disconnected;
      Moved(db, b, interval);
      DisconnectConsistent(db, genesis, interval, b);
      TipFacts(db, genesis, interval, b);
      Start();
      pendingHeight := pendingHeight - {Height(b)};
      Retreat(b);
      Commit();
    }

    /** A block put on top of the tip and taken off again: the undo log, the address index and the totals
        bring every record back, whatever the block spent and created. */
    method ReconnectThenDisconnect(b: Block, view: CoinView)
      requires Valid() && b in db.blocks && b.prev == Some(Tip()) && BodyOk(b.txs)
      requires FreshBlock(db.coins, b.txs) && Prepared(db.coins, view.entries, view.undo.items, b, interval)
      modifies this, view.undo
      ensures Valid() && db == old(db) && state == old(state)
    {
      hide Consistent, MainState, Connected, Disconnected, FollowsTip, ValidChain;
      TipFacts(db, genesis, interval, b.prev.value);
      Reconnect(b, view);
      ConnectedTwice(old(db), b, interval);
      Disconnect(b);
    }

    /** The tip taken off and put back on, as a reorganization that comes back does. */
    method DisconnectThenReconnect(b: Block, view: CoinView)
      requires Valid() && b == Tip() && b.prev.Some?
      requires Prepared(CoinsAt(b.prev.value, interval), view.entries, view.undo.items, b, interval)
      modifies this, view.undo
      ensures Valid() && db == old(db) && state == old(state)
    {
      hide Consistent, MainState, Connected, Disconnected, FollowsTip, Prepared;
      TipFacts(db, genesis, interval, b);
      DisconnectedTwice(db, b, interval);
      SameTree(db, b, interval);
      Disconnect(b);
      TipCoins(db, genesis, interval);
      Reconnect(b, view);
    }

    // ----- resetting

    /** Queue the removal of one alternate chain, from its tip down to the main chain. Fails when
        the tip or one of its ancestors is missing. */
    method RemoveChain(hash: Block, ghost gone: set<Block>) returns (ok: bool)
      requires Committed() && batch == Pruned(db, gone)
      modifies this`batch
      ensures ok ==> batch == Pruned(db, gone + OffMain(db.blocks, Tip(), hash))
      ensures Closed(db.blocks) && hash in db.blocks ==> ok
    {
      hide Consistent;
      var e := GetEntry(hash);
      if e.None? {
        return false;
      }
      var cur := e.value;
      ghost var tip, more := Tip(), {};
      assert gone + more == gone;
      WalkStart(db.blocks, tip, hash);
      hide Walked, IsAncestor, Pruned;
      while true
        invariant cur.hash in db.blocks && cur == EntryOf(cur.hash)
        invariant batch == Pruned(db, gone + more)
        invariant Walked(db.blocks, tip, hash, cur.hash, more)
        decreases cur.height
      {
        var main := IsMainChain(cur);
        if main {
          WalkEnd(db.blocks, tip, hash, cur.hash, more);
          return true;
        }
        PruneMore(db, gone + more, cur.hash);
        assert gone + more + {cur.hash} == gone + (more + {cur.hash});
        batch := Pruned(batch, {cur.hash});
        var p := GetPrevious(cur);
        if p.None? {
          NotGenesis(cur.hash);
          return false;
        }
        WalkStep(db.blocks, tip, hash, cur.hash, more);
        more := more + {cur.hash};
        cur := p.value;
      }
    }

    lemma NotGenesis(b: Block)
      requires Committed() && b in db.blocks && !IsAncestor(b, Tip())
      ensures b.prev.Some?
    {
      assert Grown(genesis, b) && Grown(genesis, Tip());
      MainFacts(genesis, Tip(), b);
    }

    /** Remove every alternate chain in one atomic write, or nothing at all. */
    method RemoveChains() returns (ok: bool)
      requires Valid()
      modifies this
      ensures Valid() && state == old(state)
      ensures db == if ok then Pruned(old(db), Alternates(old(db), Tip())) else old(db)
      ensures old(Closed(db.blocks)) ==> ok
    {
      Start();
      ok := RemoveAll();
      if !ok {
        Drop();
        return;
      }
      CoversTip(db, genesis, interval);
      PruneConsistent(db, genesis, interval, Alternates(db, Tip()));
      Commit();
    }

    method RemoveAll() returns (ok: bool)
      requires Committed() && batch == db
      modifies this`batch
      ensures ok ==> batch == Pruned(db, Alternates(db, Tip()))
      ensures Closed(db.blocks) ==> ok
    {
      hide Consistent;
      TipsStored(db, genesis, interval);
      var todo := db.tips;
      ghost var tip, gone, done := Tip(), AllOffMain(db.blocks, Tip(), {}), {};
      PruneNothing(db, tip);
      while todo != {}
        invariant done + todo == db.tips
        invariant gone == AllOffMain(db.blocks, tip, done)
        invariant batch == Pruned(db, gone)
        decreases todo
      {
        var t :| t in todo;
        ok := RemoveChain(t, gone);
        if !ok {
          return;
        }
        AllOffMainAdd(db.blocks, tip, done, t);
        gone := gone + OffMain(db.blocks, tip, t);
        todo := todo - {t};
        done := done + {t};
      }
      return true;
    }

    /** Take the tip off the main chain and forget it. */
    method RemoveTip(b: Block)
      requires Valid() && b == Tip() && b.prev.Some?
      modifies this
      ensures Valid() && Tip() == b.prev.value && db == Erased(Disconnected(old(db), b, interval), b)
    {
      hide Consistent, MainState;
      ghost var gone := Disconnected(db, b, interval);
      Moved(db, b, interval);
      CoversTip(db, genesis, interval);
      DisconnectConsistent(db, genesis, interval, b);
      TipFacts(db, genesis, interval, b);
      ForgetCovers(db.blocks, b);
      EraseConsistent(gone, genesis, interval, b);
      Start();
      batch := Erased(batch, b);
      pendingHeight := pendingHeight - {Height(b)};
      Retreat(b);
      Commit();
    }

    /** Go back to a main-chain block: every alternate chain and every block above it is removed.
        Afterwards the tip list is exact if and only if the target was not already the tip with a
        stored child. A reset that fails changes nothing. */
    method Reset(target: Block) returns (ok: bool)
      requires Valid()
      modifies this
      ensures Valid() && (ok ==> Tip() == target)
      ensures !ok ==> db == old(db) && state == old(state)
      ensures ok ==> IsAncestor(target, old(Tip()))
      ensures old(TreeOk(db)) ==> (ok <==> IsAncestor(target, old(Tip())))
      ensures ok && old(TreeOk(db)) ==> OnlyChain(db.blocks, target)
      ensures ok && old(TreeOk(db)) ==> (TreeOk(db) <==> target != old(Tip()) || !HasChild(old(db.blocks), old(Tip())))
      ensures db.blocks <= old(db.blocks)
    {
      hide Consistent, MainState, TreeOk;
      CoversTip(db, genesis, interval);
      TreeFacts(db, Tip());
      ghost var first, tree := Tip(), TreeOk(db);
      var e := GetEntry(target);
      if e.None? {
        return false;
      }
      var main := IsMainChain(e.value);
      if !main {
        return false;
      }
      ok := RemoveChains();
      if !ok {
        return;
      }
      var cur := state.tip.value;
      while cur != target
        invariant Valid() && Tip() == cur && IsAncestor(target, cur) && db.blocks <= old(db.blocks)
        invariant tree ==> OnlyChain(db.blocks, cur)
        invariant tree ==> db.tips == if cur == first && HasChild(old(db.blocks), first) then {} else {cur}
        invariant IsAncestor(cur, first)
        decreases Height(cur)
      {
        if tree { ShorterChain(db.blocks, cur); }
        AncestorTrans(cur.prev.value, cur, first);
        AncestorHeight(cur, first);
        RemoveTip(cur);
        cur := cur.prev.value;
      }
      CoversTip(db, genesis, interval);
      Start();
      pending := pending.Commit(cur);
      batch := batch.(state := Some(pending));
      Commit();
      if tree { TreeEnd(db, target); }
      return true;
    }
  }
}
