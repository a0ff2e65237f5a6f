/** The records of the chain database as values, and what they should be for a given tip. */
module ChainRecords {
  import opened Primitives
  import opened Ledger
  import opened Totals
  import opened Replay
  import Consensus
  import Compact

  /** The running totals kept in memory and written under `R`. */
  datatype ChainState = ChainState(tip: Option<Block>, tx: int, coin: int, value: int, committed: bool) {
    function Clone(): ChainState { this.(committed := false) }
    function Connect(b: Block): ChainState { this.(tx := tx + |b.txs|) }
    function Disconnect(b: Block): ChainState { this.(tx := tx - |b.txs|) }
    function Add(o: Output): ChainState { this.(coin := coin + 1, value := value + o.value) }
    function Spend(o: Output): ChainState { this.(coin := coin - 1, value := value - o.value) }
    function Commit(hash: Block): ChainState { this.(tip := Some(hash), committed := true) }
  }

  /** A chain entry carries its height and total work; the header fields are those of its block. */
  datatype Entry = Entry(hash: Block, height: nat, chainwork: nat) {
    predicate IsGenesis() { height == 0 }
  }

  /** Proof of one block: 2^256 / (target + 1), or nothing for a zero or negative target. */
  function Proof(bits: Word): nat {
    Compact.GetProof(bits)
  }

  function Work(b: Block): nat {
    Proof(b.bits) + if b.prev.None? then 0 else Work(b.prev.value)
  }

  function EntryOf(b: Block): Entry {
    Entry(b, Height(b), Work(b))
  }

  /** One field for each kind of key: e, h, b, H, n, p, c, u, C and R. */
  datatype Records = Records(
    entries: map<Block, Entry>,
    heights: map<Block, nat>,
    blocks: set<Block>,
    hashes: map<nat, Block>,
    next: map<Block, Block>,
    tips: set<Block>,
    coins: Coins,
    undo: map<Block, seq<Coin>>,
    index: AddrIndex,
    state: Option<ChainState>)

  const EMPTY: Records := Records(map[], map[], {}, map[], map[], {}, map[], map[], {}, None)

  // ----- what the main-chain records are, as a function of the tip

  function MainHashes(tip: Block): map<nat, Block> {
    if tip.prev.None? then map[0 := tip] else MainHashes(tip.prev.value)[Height(tip) := tip]
  }

  function MainNext(tip: Block): map<Block, Block> {
    if tip.prev.None? then map[] else MainNext(tip.prev.value)[tip.prev.value := tip]
  }

  function PutUndo(undo: map<Block, seq<Coin>>, b: Block, log: seq<Coin>): map<Block, seq<Coin>> {
    if log == [] then undo else undo[b := log]
  }

  function MainUndo(tip: Block, interval: nat): map<Block, seq<Coin>>
    requires ValidChain(tip, interval)
  {
    if tip.prev.None? then map[] else PutUndo(MainUndo(tip.prev.value, interval), tip, UndoOf(tip, interval))
  }

  ghost function MainState(tip: Block, interval: nat): ChainState {
    var coins := CoinsAt(tip, interval);
    ChainState(Some(tip), TxCountAt(tip), |coins.Keys|, TotalValue(coins), true)
  }

  /** Every main-chain record is the one that replaying the chain up to `tip` would write. */
  ghost predicate FollowsTip(db: Records, tip: Block, interval: nat) {
    && ValidChain(tip, interval)
    && db.hashes == MainHashes(tip)
    && db.next == MainNext(tip)
    && db.coins == CoinsAt(tip, interval)
    && db.undo == MainUndo(tip, interval)
    && db.index == IndexOf(CoinsAt(tip, interval))
    && db.state == Some(MainState(tip, interval))
  }

  /** The height index holds the ancestors of the tip and nothing else. */
  lemma {:induction false} MainHashAt(tip: Block, i: nat)
    ensures i in MainHashes(tip) <==> i <= Height(tip)
    ensures i <= Height(tip) ==> MainHashes(tip)[i] == Ancestor(tip, i)
  {
    if tip.prev.Some? { MainHashAt(tip.prev.value, i); }
  }

  /** The next-block index has an entry exactly for the main-chain blocks below the tip. */
  lemma {:induction false} MainNextAt(tip: Block, b: Block)
    ensures b in MainNext(tip) <==> IsAncestor(b, tip) && b != tip
    ensures b in MainNext(tip) ==> MainNext(tip)[b].prev == Some(b) && IsAncestor(MainNext(tip)[b], tip)
  {
    if tip.prev.Some? {
      MainNextAt(tip.prev.value, b);
      if IsAncestor(b, tip.prev.value) { AncestorHeight(b, tip.prev.value); }
    }
  }

  /** A stored block is on the main chain if and only if the height index names it, and if and
      only if it is the tip or has a next-block record. Genesis always is. */
  lemma MainFacts(genesis: Block, tip: Block, b: Block)
    requires genesis.prev.None? && IsAncestor(genesis, tip) && IsAncestor(genesis, b)
    ensures IsAncestor(b, tip) <==> Height(b) in MainHashes(tip) && MainHashes(tip)[Height(b)] == b
    ensures IsAncestor(b, tip) <==> b == tip || b in MainNext(tip)
    ensures Height(b) == 0 ==> IsAncestor(b, tip)
  {
    MainHashAt(tip, Height(b));
    MainNextAt(tip, b);
    if IsAncestor(b, tip) { AncestorHeight(b, tip); }
    AncestorHeight(genesis, b);
  }

  lemma {:induction false} MainUndoKeys(tip: Block, interval: nat)
    requires ValidChain(tip, interval)
    ensures forall b :: b in MainUndo(tip, interval) ==> IsAncestor(b, tip)
  {
    if tip.prev.Some? { MainUndoKeys(tip.prev.value, interval); }
  }

  /** The undo log of a connected block as its database record holds it. */
  function GetUndo(undo: map<Block, seq<Coin>>, b: Block): seq<Coin> {
    if b in undo then undo[b] else []
  }

  // ----- the block index

  ghost predicate Closed(S: set<Block>) {
    forall b :: b in S && b.prev.Some? ==> b.prev.value in S
  }

  ghost predicate HasChild(S: set<Block>, b: Block) {
    exists c :: c in S && c.prev == Some(b)
  }

  /** The blocks of `S` that nothing in `S` is built on. */
  ghost function Childless(S: set<Block>): set<Block> {
    set b | b in S && !HasChild(S, b)
  }

  /** `b` has grown from genesis and its body has been checked. */
  ghost predicate Grown(genesis: Block, b: Block) {
    IsAncestor(genesis, b) && (b != genesis ==> BodyOk(b.txs))
  }

  function EntriesOf(S: set<Block>): map<Block, Entry> {
    map b | b in S :: EntryOf(b)
  }

  function HeightsOf(S: set<Block>): map<Block, nat> {
    map b | b in S :: Height(b)
  }

  ghost predicate AllGrown(genesis: Block, S: set<Block>) {
    forall b {:trigger Grown(genesis, b)} :: b in S ==> Grown(genesis, b)
  }

  /** Entries, heights and block data describe the same blocks, all grown from genesis. */
  ghost predicate Sound(db: Records, genesis: Block) {
    && genesis.prev.None?
    && db.entries == EntriesOf(db.blocks)
    && db.heights == HeightsOf(db.blocks)
    && db.tips <= db.blocks
    && AllGrown(genesis, db.blocks)
  }

  ghost predicate Covers(S: set<Block>, tip: Block) {
    forall b :: IsAncestor(b, tip) ==> b in S
  }

  /** What every reachable database satisfies: its main-chain records are a function of its tip. */
  ghost predicate Consistent(db: Records, genesis: Block, interval: nat) {
    && Sound(db, genesis)
    && db.state.Some? && db.state.value.tip.Some?
    && FollowsTip(db, db.state.value.tip.value, interval)
    && Covers(db.blocks, db.state.value.tip.value)
  }

  /** The block tree has no gaps and `p` lists exactly the childless blocks. */
  ghost predicate TreeOk(db: Records) {
    Closed(db.blocks) && db.tips == Childless(db.blocks)
  }

  lemma TreeCloses(db: Records)
    ensures TreeOk(db) ==> Closed(db.blocks)
  {}

  // ----- what the operations do to the records

  /** The records of a database that holds genesis only; its coinbase is never stored. */
  function FirstRecords(genesis: Block): Records {
    EMPTY.(
      entries := map[genesis := EntryOf(genesis)],
      heights := map[genesis := 0],
      blocks := {genesis},
      hashes := map[0 := genesis],
      tips := {genesis},
      state := Some(ChainState(Some(genesis), |genesis.txs|, 0, 0, true)))
  }

  lemma FirstConsistent(genesis: Block, interval: nat)
    requires genesis.prev.None?
    ensures Consistent(FirstRecords(genesis), genesis, interval) && TreeOk(FirstRecords(genesis))
  {
    assert ValidChain(genesis, interval) && CoinsAt(genesis, interval) == map[];
  }

  function SavedAlternate(db: Records, b: Block): Records
    requires b.prev.Some?
  {
    db.(
      entries := db.entries[b := EntryOf(b)],
      heights := db.heights[b := Height(b)],
      blocks := db.blocks + {b},
      tips := db.tips - {b.prev.value} + {b})
  }

  ghost function Ledgered(db: Records, coins: Coins, undo: map<Block, seq<Coin>>): Records {
    db.(coins := coins, undo := undo, index := IndexOf(coins))
  }

  /** The totals after `n` more (or fewer) transactions have led to `coins`. */
  ghost function Totalled(p: ChainState, n: int, coins: Coins): ChainState {
    p.(tx := p.tx + n, coin := |coins.Keys|, value := TotalValue(coins))
  }

  /** The main-chain records moved on to `b`. */
  ghost function Connected(db: Records, b: Block, interval: nat): Records
    requires b.prev.Some? && Connectable(b, interval) && ValidChain(b, interval)
  {
    var coins := CoinsAt(b, interval);
    Ledgered(db, coins, PutUndo(db.undo, b, UndoOf(b, interval))).(
      next := db.next[b.prev.value := b],
      hashes := db.hashes[Height(b) := b],
      state := Some(MainState(b, interval)))
  }

  /** The main-chain records moved back from `b` to its parent. */
  ghost function Disconnected(db: Records, b: Block, interval: nat): Records
    requires b.prev.Some?
  {
    Ledgered(db, CoinsAt(b.prev.value, interval), db.undo - {b}).(
      next := db.next - {b.prev.value},
      hashes := db.hashes - {Height(b)},
      state := Some(MainState(b.prev.value, interval)))
  }

  /** The records without the blocks `gone`, all of them off the main chain. */
  function Pruned(db: Records, gone: set<Block>): Records {
    db.(
      entries := db.entries - gone,
      heights := db.heights - gone,
      blocks := db.blocks - gone,
      tips := db.tips - gone)
  }

  /** Stored blocks off the main chain that lie at or below a recorded chain tip. */
  ghost function Alternates(db: Records, tip: Block): set<Block> {
    AllOffMain(db.blocks, tip, db.tips)
  }

  /** The records without the block `b`, a former tip: its parent becomes a chain tip. */
  function Erased(db: Records, b: Block): Records
    requires b.prev.Some?
  {
    db.(
      entries := db.entries - {b},
      heights := db.heights - {b},
      blocks := db.blocks - {b},
      tips := db.tips - {b} + {b.prev.value})
  }

  /** Every stored block has a recorded tip at or above it. */
  lemma {:induction false} TipAbove(db: Records, b: Block) returns (t: Block)
    requires TreeOk(db) && b in db.blocks
    ensures t in db.tips && IsAncestor(b, t)
    decreases |set x | x in db.blocks && Height(x) > Height(b)|
  {
    if HasChild(db.blocks, b) {
      var c :| c in db.blocks && c.prev == Some(b);
      var higher := set x | x in db.blocks && Height(x) > Height(b);
      var above := set x | x in db.blocks && Height(x) > Height(c);
      assert c in higher && c !in above && above <= higher;
      SubsetSmaller(above, higher, c);
      t := TipAbove(db, c);
      AncestorTrans(b, c, t);
    } else {
      t := b;
    }
  }

  lemma SubsetSmaller<T>(a: set<T>, b: set<T>, x: T)
    requires a <= b && x in b && x !in a
    ensures |a| < |b|
  {
    assert |b - a| + |a| == |b|;
  }

  /** With a sound tree, removing the alternates leaves exactly the main chain. */
  lemma AlternatesAreAll(db: Records, tip: Block)
    requires TreeOk(db) && Covers(db.blocks, tip)
    ensures forall b :: b in db.blocks - Alternates(db, tip) <==> IsAncestor(b, tip)
  {
    forall b | b in db.blocks && !IsAncestor(b, tip) ensures b in Alternates(db, tip) {
      var t := TipAbove(db, b);
    }
  }

  /** Walking down from the chain tip `top`, the blocks `gone` have been passed and `cur` is next. */
  ghost predicate Walked(S: set<Block>, tip: Block, top: Block, cur: Block, gone: set<Block>) {
    && gone <= S && cur in S && IsAncestor(cur, top)
    && (forall b :: b in gone ==> IsAncestor(b, top) && !IsAncestor(b, tip))
    && (forall b :: IsAncestor(b, top) ==> b in gone || IsAncestor(b, cur))
  }

  lemma WalkStart(S: set<Block>, tip: Block, top: Block)
    requires top in S
    ensures Walked(S, tip, top, top, {})
  {}

  lemma WalkStep(S: set<Block>, tip: Block, top: Block, cur: Block, gone: set<Block>)
    requires Walked(S, tip, top, cur, gone) && !IsAncestor(cur, tip) && cur.prev.Some? && cur.prev.value in S
    ensures Walked(S, tip, top, cur.prev.value, gone + {cur})
  {
    AncestorTrans(cur.prev.value, cur, top);
  }

  /** The walk ends on the main chain, having passed everything off it. */
  lemma WalkEnd(S: set<Block>, tip: Block, top: Block, cur: Block, gone: set<Block>)
    requires Walked(S, tip, top, cur, gone) && IsAncestor(cur, tip)
    ensures gone == OffMain(S, tip, top)
  {
    forall b | b in S && IsAncestor(b, top) && !IsAncestor(b, tip) ensures b in gone {
      if IsAncestor(b, cur) { AncestorTrans(b, cur, tip); }
    }
  }

  /** Stored blocks at or below `top` that are not at or below `tip`. */
  ghost function OffMain(S: set<Block>, tip: Block, top: Block): set<Block> {
    set b | b in S && IsAncestor(b, top) && !IsAncestor(b, tip)
  }

  ghost function AllOffMain(S: set<Block>, tip: Block, tops: set<Block>): set<Block> {
    set b | b in S && !IsAncestor(b, tip) && exists t :: t in tops && IsAncestor(b, t)
  }

  lemma AllOffMainAdd(S: set<Block>, tip: Block, tops: set<Block>, t: Block)
    ensures AllOffMain(S, tip, tops + {t}) == AllOffMain(S, tip, tops) + OffMain(S, tip, t)
  {}

  // ----- the main-chain records follow the tip

  lemma GetUndoOfTip(tip: Block, interval: nat)
    requires tip.prev.Some? && ValidChain(tip, interval)
    ensures GetUndo(MainUndo(tip, interval), tip) == UndoOf(tip, interval)
    ensures MainUndo(tip, interval) - {tip} == MainUndo(tip.prev.value, interval)
  {
    MainUndoKeys(tip.prev.value, interval);
    if tip in MainUndo(tip.prev.value, interval) {
      AncestorHeight(tip, tip.prev.value);
      assert false;
    }
  }

  lemma ConnectFollows(db: Records, b: Block, interval: nat)
    requires b.prev.Some? && FollowsTip(db, b.prev.value, interval) && Connectable(b, interval)
    ensures FollowsTip(Connected(db, b, interval), b, interval)
  {}

  lemma DisconnectFollows(db: Records, b: Block, interval: nat)
    requires b.prev.Some? && FollowsTip(db, b, interval)
    ensures FollowsTip(Disconnected(db, b, interval), b.prev.value, interval)
  {
    GetUndoOfTip(b, interval);
    IndexesBack(b);
  }

  lemma IndexesBack(b: Block)
    requires b.prev.Some?
    ensures MainHashes(b) - {Height(b)} == MainHashes(b.prev.value)
    ensures MainNext(b) - {b.prev.value} == MainNext(b.prev.value)
  {
    MainHashAt(b.prev.value, Height(b));
    MainNextAt(b.prev.value, b.prev.value);
  }

  /** The records connecting `b` replaces are those that disconnecting it is to leave. */
  lemma ConnectedTwice(db: Records, b: Block, interval: nat)
    requires b.prev.Some? && FollowsTip(db, b.prev.value, interval) && Connectable(b, interval)
    ensures ValidChain(b, interval) && Disconnected(Connected(db, b, interval), b, interval) == db
  {
    ConnectFollows(db, b, interval);
    DisconnectFollows(Connected(db, b, interval), b, interval);
  }

  /** And the other way round. */
  lemma DisconnectedTwice(db: Records, b: Block, interval: nat)
    requires b.prev.Some? && FollowsTip(db, b, interval)
    ensures ValidChain(b.prev.value, interval) && Connectable(b, interval)
    ensures Connected(Disconnected(db, b, interval), b, interval) == db
  {
    DisconnectFollows(db, b, interval);
    ConnectFollows(Disconnected(db, b, interval), b, interval);
  }

  /** Saving a block on a stored parent keeps the tree without gaps and the tip list exact. */
  lemma SaveKeepsTree(db: Records, b: Block)
    requires b !in db.blocks && b.prev.Some? && b.prev.value in db.blocks
    ensures TreeOk(db) ==> TreeOk(SavedAlternate(db, b))
  {
    if TreeOk(db) {
      var S := db.blocks;
      var S' := S + {b};
      forall x ensures HasChild(S', x) <==> HasChild(S, x) || x == b.prev.value {
        if x == b.prev.value { assert b in S'; }
      }
      if HasChild(S, b) { assert false; }
      assert Childless(S') == Childless(S) - {b.prev.value} + {b};
    }
  }

  // ----- every operation keeps the records consistent

  lemma SavedMaps(S: set<Block>, b: Block)
    ensures EntriesOf(S + {b}) == EntriesOf(S)[b := EntryOf(b)]
    ensures HeightsOf(S + {b}) == HeightsOf(S)[b := Height(b)]
  {}

  lemma SavedSound(db: Records, genesis: Block, b: Block)
    requires Sound(db, genesis) && b.prev.Some? && b.prev.value in db.blocks && BodyOk(b.txs)
    ensures Sound(SavedAlternate(db, b), genesis)
  {
    SavedMaps(db.blocks, b);
    assert Grown(genesis, b.prev.value);
  }

  lemma SaveConsistent(db: Records, genesis: Block, interval: nat, b: Block)
    requires Consistent(db, genesis, interval)
    requires b.prev.Some? && b.prev.value in db.blocks && BodyOk(b.txs)
    ensures Consistent(SavedAlternate(db, b), genesis, interval)
  {
    hide Sound;
    SavedSound(db, genesis, b);
  }

  lemma ConnectConsistent(db: Records, genesis: Block, interval: nat, b: Block)
    requires Consistent(db, genesis, interval) && b in db.blocks
    requires db.state.Some? && b.prev.Some? && b.prev == db.state.value.tip && Connectable(b, interval)
    ensures Consistent(Connected(db, b, interval), genesis, interval)
  {
    ConnectFollows(db, b, interval);
  }

  lemma SavedFollows(db: Records, b: Block, interval: nat)
    requires b.prev.Some? && FollowsTip(db, b.prev.value, interval)
    ensures FollowsTip(SavedAlternate(db, b), b.prev.value, interval)
    ensures SavedAlternate(db, b).coins == db.coins && SavedAlternate(db, b).hashes == db.hashes
  {}

  lemma SaveMainConsistent(db: Records, genesis: Block, interval: nat, b: Block)
    requires Consistent(db, genesis, interval)
    requires db.state.Some? && b.prev.Some? && b.prev == db.state.value.tip && BodyOk(b.txs) && Connectable(b, interval)
    ensures Consistent(Connected(SavedAlternate(db, b), b, interval), genesis, interval)
  {
    SaveConsistent(db, genesis, interval, b);
    ConnectConsistent(SavedAlternate(db, b), genesis, interval, b);
  }

  lemma DisconnectConsistent(db: Records, genesis: Block, interval: nat, b: Block)
    requires Consistent(db, genesis, interval) && db.state.Some? && db.state.value.tip == Some(b) && b.prev.Some?
    ensures Consistent(Disconnected(db, b, interval), genesis, interval)
  {
    DisconnectFollows(db, b, interval);
  }

  /** What `Connected` and `Disconnected` put in the records the database object also keeps. */
  lemma Moved(db: Records, b: Block, interval: nat)
    requires b.prev.Some?
    ensures Connectable(b, interval) && ValidChain(b, interval) ==>
      Connected(db, b, interval).state == Some(MainState(b, interval)) && Connected(db, b, interval).hashes == db.hashes[Height(b) := b]
    ensures Disconnected(db, b, interval).state == Some(MainState(b.prev.value, interval))
    ensures Disconnected(db, b, interval).hashes == db.hashes - {Height(b)}
    ensures forall t :: MainState(t, interval).tip == Some(t) && MainState(t, interval).committed
  {}

  /** Moving the tip leaves the block index alone. */
  lemma SameTree(db: Records, b: Block, interval: nat)
    requires b.prev.Some?
    ensures Connectable(b, interval) && ValidChain(b, interval) ==>
      Connected(db, b, interval).blocks == db.blocks && Connected(db, b, interval).tips == db.tips
    ensures Disconnected(db, b, interval).blocks == db.blocks && Disconnected(db, b, interval).tips == db.tips
  {}

  lemma SavedTree(db: Records, b: Block)
    requires b.prev.Some?
    ensures SavedAlternate(db, b).blocks == db.blocks + {b}
    ensures SavedAlternate(db, b).tips == db.tips - {b.prev.value} + {b}
  {}

  lemma TipsStored(db: Records, genesis: Block, interval: nat)
    requires Consistent(db, genesis, interval)
    ensures db.tips <= db.blocks
  {}

  lemma CoversTip(db: Records, genesis: Block, interval: nat)
    requires Consistent(db, genesis, interval)
    ensures db.state.Some? && db.state.value.tip.Some? && Covers(db.blocks, db.state.value.tip.value)
    ensures db.state.value == MainState(db.state.value.tip.value, interval) && db.state.value.committed
    ensures forall b :: b in db.blocks && b.prev.None? ==> b == genesis
    ensures genesis.prev.None? && IsAncestor(genesis, db.state.value.tip.value)
  {
    forall b | b in db.blocks && b.prev.None? ensures b == genesis {
      assert Grown(genesis, b);
      AncestorHeight(genesis, b);
    }
    assert Grown(genesis, db.state.value.tip.value);
  }

  lemma StoredBody(db: Records, genesis: Block, interval: nat, b: Block)
    requires Consistent(db, genesis, interval) && b in db.blocks
    ensures IsAncestor(genesis, b) && (b.prev.Some? ==> BodyOk(b.txs))
  {
    assert Grown(genesis, b);
  }

  lemma TipCoins(db: Records, genesis: Block, interval: nat)
    requires Consistent(db, genesis, interval)
    ensures db.state.Some? && db.state.value.tip.Some? && db.coins == CoinsAt(db.state.value.tip.value, interval)
    ensures ValidChain(db.state.value.tip.value, interval)
  {}

  lemma TipFacts(db: Records, genesis: Block, interval: nat, b: Block)
    requires Consistent(db, genesis, interval) && db.state.Some? && db.state.value.tip == Some(b)
    ensures FollowsTip(db, b, interval) && db.state == Some(MainState(b, interval))
    ensures b in db.blocks && (b.prev.Some? ==> BodyOk(b.txs) && b.prev.value in db.blocks)
  {
    assert Grown(genesis, b);
    if b.prev.Some? { assert IsAncestor(b.prev.value, b); }
  }

  lemma EraseConsistent(db: Records, genesis: Block, interval: nat, b: Block)
    requires Consistent(db, genesis, interval) && b.prev.Some?
    requires db.state.value.tip == Some(b.prev.value) && Covers(db.blocks - {b}, b.prev.value)
    ensures Consistent(Erased(db, b), genesis, interval)
  {
    PrunedMaps(db, {b});
    assert IsAncestor(b.prev.value, b.prev.value);
  }

  lemma ForgetCovers(S: set<Block>, b: Block)
    requires Covers(S, b) && b.prev.Some?
    ensures Covers(S - {b}, b.prev.value)
  {
    forall x | IsAncestor(x, b.prev.value) ensures x in S - {b} {
      AncestorHeight(x, b.prev.value);
    }
  }

  lemma PrunedMaps(db: Records, gone: set<Block>)
    requires db.entries == EntriesOf(db.blocks) && db.heights == HeightsOf(db.blocks)
    ensures db.entries - gone == EntriesOf(db.blocks - gone) && db.heights - gone == HeightsOf(db.blocks - gone)
  {}

  lemma PruneNothing(db: Records, tip: Block)
    ensures Pruned(db, AllOffMain(db.blocks, tip, {})) == db
  {
    assert AllOffMain(db.blocks, tip, {}) == {};
  }

  lemma PruneMore(db: Records, gone: set<Block>, b: Block)
    ensures Pruned(Pruned(db, gone), {b}) == Pruned(db, gone + {b})
  {}

  lemma PruneConsistent(db: Records, genesis: Block, interval: nat, gone: set<Block>)
    requires Consistent(db, genesis, interval)
    requires forall b :: b in gone ==> !IsAncestor(b, db.state.value.tip.value)
    ensures Consistent(Pruned(db, gone), genesis, interval)
  {
    PrunedMaps(db, gone);
  }

  /** The totals after connecting `b`, as the batch arrives at them. */
  lemma NextState(b: Block, interval: nat)
    requires b.prev.Some?
    ensures Totalled(MainState(b.prev.value, interval).Clone(), |b.txs|, CoinsAt(b, interval)).Commit(b) == MainState(b, interval)
  {}

  lemma PreviousState(b: Block, interval: nat)
    requires b.prev.Some?
    ensures Totalled(MainState(b, interval).Clone(), -|b.txs|, CoinsAt(b.prev.value, interval)).Commit(b.prev.value)
      == MainState(b.prev.value, interval)
  {}

  /** Two databases with the same tip agree on every main-chain record, whatever led to either. */
  lemma SameTipSameLedger(one: Records, two: Records, g: Block, h: Block, interval: nat)
    requires Consistent(one, g, interval) && Consistent(two, h, interval)
    requires one.state.value.tip == two.state.value.tip
    ensures g == h && one.coins == two.coins && one.undo == two.undo && one.index == two.index && one.state == two.state
    ensures one.hashes == two.hashes && one.next == two.next
  {
    var tip := one.state.value.tip.value;
    assert Grown(g, tip) && Grown(h, tip);
    AncestorHeight(g, tip);
    AncestorHeight(h, tip);
  }

  /** The totals kept under `R` are those of the stored coins, which are worth no more than the
      subsidies of the connected heights. */
  lemma StateCounts(db: Records, genesis: Block, interval: nat)
    requires Consistent(db, genesis, interval)
    ensures var s := db.state.value;
      && s.coin == |db.coins.Keys| && s.value == TotalValue(db.coins) && s.tx == TxCountAt(s.tip.value)
      && s.value <= SubsidyUpTo(Height(s.tip.value), interval)
      && NullOutpoint !in db.coins
  {
    SupplyBound(db.state.value.tip.value, interval);
    NoNullCoins(db.state.value.tip.value, interval);
  }

  // ----- resetting

  /** `S` is the chain that ends in `tip` and nothing more. */
  ghost predicate OnlyChain(S: set<Block>, tip: Block) {
    forall b :: b in S <==> IsAncestor(b, tip)
  }

  lemma ChainTree(S: set<Block>, tip: Block)
    requires OnlyChain(S, tip)
    ensures Closed(S) && Childless(S) == {tip}
  {
    forall b | b in S && b.prev.Some? ensures b.prev.value in S {
      AncestorTrans(b.prev.value, b, tip);
    }
    forall b | b in S ensures HasChild(S, b) <==> b != tip {
      if b == tip {
        if HasChild(S, b) {
          var c :| c in S && c.prev == Some(b);
          AncestorHeight(c, tip);
          assert false;
        }
      } else {
        MainNextAt(tip, b);
        assert MainNext(tip)[b] in S;
      }
    }
  }

  lemma ShorterChain(S: set<Block>, tip: Block)
    requires OnlyChain(S, tip) && tip.prev.Some?
    ensures OnlyChain(S - {tip}, tip.prev.value)
  {
    forall b ensures b in S - {tip} <==> IsAncestor(b, tip.prev.value) {
      if IsAncestor(b, tip.prev.value) { AncestorHeight(b, tip.prev.value); }
    }
  }

  /** With a sound tree, pruning leaves the main chain alone and at most its tip as a chain tip. */
  lemma PrunedTree(db: Records, tip: Block)
    requires TreeOk(db) && Covers(db.blocks, tip)
    ensures OnlyChain(db.blocks - Alternates(db, tip), tip)
    ensures db.tips - Alternates(db, tip) == if HasChild(db.blocks, tip) then {} else {tip}
  {
    AlternatesAreAll(db, tip);
    forall b | b in db.tips - Alternates(db, tip) ensures b == tip {
      if b != tip { HasMainChild(db.blocks, tip, b); }
    }
  }

  lemma HasMainChild(S: set<Block>, tip: Block, b: Block)
    requires Covers(S, tip) && IsAncestor(b, tip) && b != tip
    ensures HasChild(S, b)
  {
    MainNextAt(tip, b);
    assert MainNext(tip)[b] in S;
  }

  lemma TreeFacts(db: Records, tip: Block)
    requires Covers(db.blocks, tip)
    ensures TreeOk(db) ==> Closed(db.blocks)
    ensures TreeOk(db) ==> OnlyChain(Pruned(db, Alternates(db, tip)).blocks, tip)
    ensures TreeOk(db) ==> Pruned(db, Alternates(db, tip)).tips == if HasChild(db.blocks, tip) then {} else {tip}
  {
    if TreeOk(db) { PrunedTree(db, tip); }
  }

  lemma TreeEnd(db: Records, tip: Block)
    requires OnlyChain(db.blocks, tip)
    ensures TreeOk(db) <==> db.tips == {tip}
  {
    ChainTree(db.blocks, tip);
  }
}
