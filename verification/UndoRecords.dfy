/** When the coins and undo logs of a chain survive being written to their records and read back. */
module UndoRecords {
  import opened Primitives
  import opened Ledger
  import opened Replay
  import opened CoinRecords

  /** `e` is the record of the coin `c`. The script behind an output is not part of the coin, but a
      spendable output has none that is oversized. */
  predicate Stands(e: CoinEntry, c: Coin) {
    && e.version == c.version && e.height == c.height && e.coinbase == c.coinbase && e.value == c.output.value
    && Shaped(e.script) && (c.output.Spendable? ==> Kept(e.script))
  }

  predicate AllStand(entries: seq<CoinEntry>, log: seq<Coin>) {
    |entries| == |log| && forall i :: 0 <= i < |log| ==> Stands(entries[i], log[i])
  }

  /** A coin as connecting blocks up to height `h` makes them. */
  predicate Made(c: Coin, h: int) {
    c.output.Spendable? && c.output.value >= 0 && 0 <= c.height <= h
  }

  predicate AllMade(coins: Coins, h: int) {
    forall op :: op in coins ==> Made(coins[op], h)
  }

  predicate LogMade(log: seq<Coin>, h: int) {
    forall i :: 0 <= i < |log| ==> Made(log[i], h)
  }

  lemma {:induction false} OutputsMade(coins: Coins, tx: Tx, h: int, k: nat)
    requires k <= |tx.outputs| && h >= 0 && NonNegative(tx.outputs) && AllMade(coins, h)
    ensures AllMade(AddOutputs(coins, tx, h, k), h)
  {
    if k > 0 { OutputsMade(coins, tx, h, k - 1); }
  }

  /** Connecting only stores spendable outputs of its own height, and logs coins that were stored. */
  lemma {:induction false} ConnectMakes(coins: Coins, txs: seq<Tx>, h: int)
    requires h >= 0 && AllMade(coins, h) && ConnectTxs(coins, txs, h).Some?
    requires forall i :: 0 <= i < |txs| ==> TxSane(txs[i])
    ensures var c := ConnectTxs(coins, txs, h).value; AllMade(c.coins, h) && LogMade(c.undo, h)
    decreases |txs|
  {
    hide InputsValid;
    if txs != [] {
      var n := |txs| - 1;
      var tx := txs[n];
      ConnectMakes(coins, txs[..n], h);
      var p := ConnectTxs(coins, txs[..n], h).value;
      OutputsMade(if n == 0 then p.coins else p.coins - Prevouts(tx.inputs), tx, h, |tx.outputs|);
    }
  }

  lemma {:induction false} CoinsMade(b: Block, interval: nat)
    requires ValidChain(b, interval)
    ensures AllMade(CoinsAt(b, interval), Height(b))
  {
    if b.prev.Some? {
      CoinsMade(b.prev.value, interval);
      ConnectMakes(CoinsAt(b.prev.value, interval), b.txs, Height(b));
    }
  }

  lemma Record(e: CoinEntry, c: Coin, h: int)
    requires Stands(e, c) && Made(c, h)
    ensures Formed(e) && (Storable(e) <==> Fits(c))
  {}

  /** The coin fits its record. */
  predicate Fits(c: Coin) {
    c.output.value < SAFE && c.height < MAX_HEIGHT
  }

  /** A coin of a valid chain comes back from its record exactly when its value is below 2^53, as long as
      heights fit their field. */
  lemma CoinSurvives(b: Block, interval: nat, op: Outpoint, e: CoinEntry)
    requires ValidChain(b, interval) && op in CoinsAt(b, interval) && Stands(e, CoinsAt(b, interval)[op])
    ensures var c := CoinsAt(b, interval)[op];
      && Formed(e)
      && (GetCoin(PutCoin(e)) == Got(e, []) <==> Fits(c))
      && c.height <= Height(b)
  {
    hide GetCoin, PutCoin, CoinsAt, Stands;
    CoinsMade(b, interval);
    Record(e, CoinsAt(b, interval)[op], Height(b));
    CoinRoundTrip(e, []);
    assert PutCoin(e) + [] == PutCoin(e);
  }

  /** The undo log of a connected block can be read back, and the block disconnected with it, exactly when
      every coin it spends is worth less than 2^53, as long as heights and their number fit. */
  lemma UndoSurvives(b: Block, interval: nat, entries: seq<CoinEntry>)
    requires b.prev.Some? && ValidChain(b, interval) && AllStand(entries, UndoOf(b, interval))
    ensures var log := UndoOf(b, interval);
      && AllFormed(entries)
      && (ReadsBack(entries) <==> |log| < 0x1_0000_0000 && forall i :: 0 <= i < |log| ==> Fits(log[i]))
      && forall i :: 0 <= i < |log| ==> log[i].height <= Height(b)
  {
    hide GetUndo, PutUndo, Stands, Storable, Formed;
    var log := UndoOf(b, interval);
    CoinsMade(b.prev.value, interval);
    ConnectMakes(CoinsAt(b.prev.value, interval), b.txs, Height(b));
    forall i | 0 <= i < |log| ensures Formed(entries[i]) && (Storable(entries[i]) <==> Fits(log[i])) {
      Record(entries[i], log[i], Height(b));
    }
    UndoRoundTrip(entries);
  }

  predicate ReadsBack(entries: seq<CoinEntry>)
    requires AllFormed(entries)
  {
    var r := GetUndo(PutUndo(entries));
    r.Got? && r.value == entries
  }
}
