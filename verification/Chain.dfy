/** The chain: choosing the tip, reorganizing, and holding blocks whose parent is unknown
    (src/blockchain/chain.js). */
module Chain {
  import opened Primitives
  import opened Ledger
  import opened Replay
  import opened CoinStore
  import opened BlockInputs
  import opened ChainRecords
  import opened ChainStore
  import opened Forks
  import opened Orphans
  import opened Sanity
  import opened Outcomes

  class Chain {
    const db: ChainDB
    const orphans: OrphanPool
    var tip: Block
    var height: nat
    var invalid: set<Block>
    ghost var log: seq<Event>

    ghost predicate Valid()
      reads this, db
    {
      db.Valid() && tip == db.Tip() && height == Height(tip)
    }

    /** Between calls no orphan is stored, and neither is any orphan's parent. */
    ghost predicate Ready()
      reads this, db, orphans
    {
      Valid() && orphans.Valid() && Detached(orphans.byHash.Keys, db.db.blocks)
    }

    constructor (db: ChainDB, maxOrphans: nat)
      requires db.Valid()
      ensures Ready() && this.db == db && fresh(orphans) && orphans.maxOrphans == maxOrphans && orphans.byHash == map[]
      ensures orphans.byPrev == map[] && tip == db.Tip() && invalid == {} && log == []
    {
      this.db := db;
      orphans := new OrphanPool(maxOrphans);
      tip := db.state.tip.value;
      height := Height(db.state.tip.value);
      invalid := {};
      log := [];
    }

    /** Full verification of a block on top of the tip. The body is checked when it comes in. */
    method VerifyContext(b: Block, judge: Judge) returns (v: Verdict, view: CoinView)
      requires db.Valid() && BodyOk(b.txs)
      ensures v.Accept? <==> Passes(db.db.coins, b, db.interval, judge)
      ensures v.Reject? ==> Blame(b, judge) == if v.malleated then {} else {b}
      ensures fresh(view) && fresh(view.undo)
      ensures v.Accept? ==> Prepared(db.db.coins, view.entries, view.undo.items, b, db.interval)
    {
      view := new CoinView();
      v := judge.header(b);
      if v.Reject? {
        return;
      }
      if !FreshBlock(db.db.coins, b.txs) {
        return Reject(false), view;
      }
      var ok;
      ok, view := VerifyInputs(db.db.coins, b, db.interval);
      if !ok || !judge.inputs(b) {
        return Reject(false), view;
      }
      return Accept, view;
    }

    method SetInvalid(b: Block)
      modifies this`invalid
      ensures invalid == old(invalid) + {b}
    {
      invalid := invalid + {b};
    }

    /** Steps the higher of the two entries down until they meet; fails when an entry is missing. */
    method FindFork(fork: Block, longer: Block) returns (r: Option<Block>)
      requires db.Valid() && fork in db.db.blocks && longer.prev.Some?
      ensures r.Some? ==> r.value == ForkOf(fork, longer) && IsAncestor(r.value, fork) && IsAncestor(r.value, longer)
      ensures Closed(db.db.blocks) && longer.prev.value in db.db.blocks ==> r.Some?
    {
      hide ChainRecords.Consistent;
      CoversTip(db.db, db.genesis, db.interval);
      var a, b := fork, longer;
      while a != b
        invariant IsAncestor(a, fork) && IsAncestor(b, longer)
        invariant a in db.db.blocks && (b == longer || b in db.db.blocks)
        invariant ForkOf(a, b) == ForkOf(fork, longer)
        decreases Height(a) + Height(b)
      {
        ghost var top := Height(b);
        while Height(b) > Height(a)
          invariant IsAncestor(b, longer) && (b == longer || b in db.db.blocks)
          invariant ForkOf(a, b) == ForkOf(fork, longer)
          invariant Height(b) <= top
          decreases Height(b)
        {
          var p := db.GetPrevious(EntryOf(b));
          if p.None? {
            return None;
          }
          AncestorTrans(p.value.hash, b, longer);
          b := p.value.hash;
        }
        if a == b {
          return Some(a);
        }
        var p := db.GetPrevious(EntryOf(a));
        if p.None? {
          return None;
        }
        AncestorTrans(p.value.hash, a, fork);
        a := p.value.hash;
      }
      return Some(a);
    }

    /** The blocks from `top` down to its ancestor `fork`; fails when an entry is missing. */
    method Collect(top: Block, fork: Block) returns (ok: bool, r: seq<Block>)
      requires db.Valid() && IsAncestor(fork, top)
      ensures ok ==> r == Branch(top, fork)
      ensures ok ==> forall k :: 1 <= k < |r| ==> r[k] in db.db.blocks
      ensures Closed(db.db.blocks) && (top.prev.Some? ==> top.prev.value in db.db.blocks) ==> ok
    {
      hide ChainRecords.Consistent, Branch;
      var cur := top;
      DownNone(fork, fork);
      r := [];
      while cur != fork
        invariant IsAncestor(fork, cur) && (cur == top || cur in db.db.blocks)
        invariant r + Branch(cur, fork) == Branch(top, fork)
        invariant |r| == 0 <==> cur == top
        invariant forall k :: 1 <= k < |r| ==> r[k] in db.db.blocks
        decreases Height(cur)
      {
        BranchStep(r, cur, fork);
        r := r + [cur];
        var p := db.GetPrevious(EntryOf(cur));
        if p.None? {
          return false, r;
        }
        cur := p.value.hash;
      }
      return true, r;
    }

    /** Take the tip off the main chain. */
    method DisconnectEntry(b: Block)
      requires Valid() && b == tip && b.prev.Some?
      modifies this`tip, this`height, this`log, db
      ensures Valid() && tip == b.prev.value && db.db.blocks == old(db.db.blocks) && db.db.tips == old(db.db.tips)
      ensures log == old(log) + [Disconnect(b)]
    {
      hide ChainRecords.Consistent, Disconnected;
      SameTree(db.db, b, db.interval);
      db.Disconnect(b);
      tip := b.prev.value;
      height := Height(b.prev.value);
      log := log + [Disconnect(b)];
    }

    /** Verify a stored block in its new context and put it on top of the tip. */
    method ReconnectEntry(b: Block, judge: Judge) returns (r: Result)
      requires Valid() && b.prev == Some(tip) && b in db.db.blocks
      modifies this, db
      ensures Valid() && db.db.blocks == old(db.db.blocks) && db.db.tips == old(db.db.tips)
      ensures r == if Passes(CoinsAt(old(tip), db.interval), b, db.interval, judge) then Ok else Invalid
      ensures r.Ok? ==> tip == b && log == old(log) + [Event.Connect(b)]
      ensures !r.Ok? ==> tip == old(tip) && log == old(log)
      ensures invalid == old(invalid) + if r.Ok? then {} else Blame(b, judge)
    {
      hide ChainRecords.Consistent, Blame, Connected, MainState, BodyOk;
      SameTree(db.db, b, db.interval);
      StoredBody(db.db, db.genesis, db.interval, b);
      TipCoins(db.db, db.genesis, db.interval);
      var v, view := VerifyContext(b, judge);
      if v.Reject? {
        if !v.malleated {
          SetInvalid(b);
        }
        return Invalid;
      }
      db.Reconnect(b, view);
      tip := b;
      height := Height(b);
      log := log + [Event.Connect(b)];
      return Ok;
    }

    /** Take `down`, the branch from the tip to `f`, off the main chain. */
    method TakeDown(down: seq<Block>, ghost f: Block)
      requires Valid() && IsAncestor(f, tip) && down == Branch(tip, f)
      modifies this`tip, this`height, this`log, db
      ensures Valid() && tip == f && db.db.blocks == old(db.db.blocks) && db.db.tips == old(db.db.tips)
      ensures log == old(log) + Down(old(tip), f)
    {
      hide ChainRecords.Consistent, Down, Branch;
      ghost var first := tip;
      DownNone(first, f);
      for i := 0 to |down|
        invariant Valid() && db.db.blocks == old(db.db.blocks) && db.db.tips == old(db.db.tips)
        invariant tip == if i < |down| then down[i] else f
        invariant IsAncestor(f, tip) && IsAncestor(tip, first)
        invariant log == old(log) + Down(first, tip)
      {
        BranchAt(first, f, i);
        DownStep(first, tip, f);
        DisconnectEntry(down[i]);
      }
    }

    /** Put the blocks of `up`, the branch from `b` to `f`, back on, all but `b`, lowest first. */
    method PutUp(up: seq<Block>, b: Block, ghost f: Block, judge: Judge) returns (r: Result)
      requires Valid() && tip == f && f != b && IsAncestor(f, b) && up == Branch(b, f)
      requires forall k :: 1 <= k < |up| ==> up[k] in db.db.blocks
      modifies this, db
      ensures Valid() && db.db.blocks == old(db.db.blocks) && db.db.tips == old(db.db.tips) && !r.Broken?
      ensures IsAncestor(f, tip) && IsAncestor(f, b.prev.value)
      ensures tip == LastGood(f, b.prev.value, db.interval, judge)
      ensures r.Ok? <==> BranchPasses(f, b.prev.value, db.interval, judge)
      ensures r.Ok? ==> tip == b.prev.value
      ensures log == old(log) + Up(f, tip)
      ensures invalid == old(invalid) + BranchBlame(f, b.prev.value, db.interval, judge)
    {
      hide ChainRecords.Consistent, Branch, IsAncestor, Up, BranchPasses, LastGood, Blame, BranchBlame;
      BranchStart(b, f);
      UpNone(f);
      PassesNone(f, db.interval, judge);
      var i := |up| - 1;
      while i >= 1
        invariant 0 <= i < |up|
        invariant Valid() && db.db.blocks == old(db.db.blocks) && db.db.tips == old(db.db.tips)
        invariant tip == if i + 1 < |up| then up[i + 1] else f
        invariant IsAncestor(f, tip) && (tip == f || IsAncestor(tip, b.prev.value))
        invariant log == old(log) + Up(f, tip) && invalid == old(invalid)
        invariant BranchPasses(f, tip, db.interval, judge)
      {
        BranchInner(b, f, i);
        UpStep(f, up[i]);
        PassesStep(f, up[i], db.interval, judge);
        r := ReconnectEntry(up[i], judge);
        if !r.Ok? {
          LastGoodIs(f, tip, up[i], b.prev.value, db.interval, judge);
          return;
        }
        i := i - 1;
      }
      AllGood(f, b.prev.value, db.interval, judge);
      return Ok;
    }

    /** Move the main chain over to the branch of `b`, up to the parent of `b`. Blocks are taken off
        down to the fork point and put on from there; the first one that fails ends it, leaving the
        chain at that block's parent. */
    method Reorganize(b: Block, judge: Judge) returns (r: Result)
      requires Valid() && b !in db.db.blocks && b.prev.Some? && b.prev.value in db.db.blocks
      modifies this, db
      ensures Valid() && db.db.blocks == old(db.db.blocks) && db.db.tips == old(db.db.tips)
      ensures r.Broken? ==> tip == old(tip) && log == old(log) && invalid == old(invalid) && db.db == old(db.db) && !Closed(db.db.blocks)
      ensures !r.Broken? ==>
        var f := ForkOf(old(tip), b);
        && IsAncestor(f, old(tip)) && IsAncestor(f, tip) && IsAncestor(f, b.prev.value)
        && tip == LastGood(f, b.prev.value, db.interval, judge)
        && (r.Ok? <==> BranchPasses(f, b.prev.value, db.interval, judge)) && (r.Ok? ==> tip == b.prev.value)
        && log == old(log) + Down(old(tip), f) + Up(f, tip)
        && invalid == old(invalid) + BranchBlame(f, b.prev.value, db.interval, judge)
    {
      TipStored();
      hide ChainRecords.Consistent, Down, Up, Branch, LastGood, BranchPasses, BranchBlame;
      var fork := FindFork(tip, b);
      if fork.None? {
        return Broken;
      }
      var f := fork.value;
      var ok, down := Collect(tip, f);
      if !ok {
        return Broken;
      }
      var up;
      ok, up := Collect(b, f);
      if !ok {
        return Broken;
      }
      TakeDown(down, f);
      r := PutUp(up, b, f, judge);
    }

    /** Make `b` the tip, reorganizing first when its parent is not the tip. */
    method SetBestChain(b: Block, judge: Judge) returns (r: Result)
      requires Valid() && b !in db.db.blocks && b.prev.Some? && b.prev.value in db.db.blocks
      modifies this, db
      ensures Valid()
      ensures r.Broken? ==> !Closed(db.db.blocks) && tip == old(tip) && log == old(log) && invalid == old(invalid)
      ensures !r.Broken? ==>
        var f := ForkOf(old(tip), b);
        && IsAncestor(f, old(tip)) && IsAncestor(f, b.prev.value) && IsAncestor(f, b) && IsAncestor(f, tip)
        && tip == Settles(f, b, db.interval, judge)
        && invalid == old(invalid) + Condemns(f, b, db.interval, judge)
        && (r.Ok? <==> BodyPasses(b.txs) && BranchPasses(f, b, db.interval, judge))
        && log == old(log) + Down(old(tip), f) + Up(f, tip)
      ensures r.Ok? ==> tip == b && db.db.blocks == old(db.db.blocks) + {b} && db.db.tips == old(db.db.tips) - {b.prev.value} + {b}
      ensures r.Ok? ==> judge.header(b).Accept?
      ensures !r.Ok? ==> db.db.blocks == old(db.db.blocks) && db.db.tips == old(db.db.tips)
    {
      hide ChainRecords.Consistent, Down, Up, BranchPasses, LastGood, Settles, Condemns, BranchBlame, Blame;
      ghost var first, f := tip, ForkOf(tip, b);
      TipStored();
      if b.prev.value != tip {
        r := Reorganize(b, judge);
        if !r.Ok? {
          if r.Invalid? { SettlesUnder(f, b, db.interval, judge); }
          return;
        }
        AllGood(f, b.prev.value, db.interval, judge);
      } else {
        ExtendingFork(tip, b);
        PassesNone(tip, db.interval, judge);
        AllGood(tip, tip, db.interval, judge);
        UpNone(tip);
        DownNone(tip, tip);
      }
      UpStep(f, b);
      r := ExtendTip(b, judge);
      if r.Ok? { SettlesOver(f, b, db.interval, judge); } else { SettlesUnder(f, b, db.interval, judge); }
    }

    /** Verify and store a new block on top of the tip. */
    method ExtendTip(b: Block, judge: Judge) returns (r: Result)
      requires Valid() && b !in db.db.blocks && b.prev == Some(tip)
      modifies this, db
      ensures Valid()
      ensures r == if BodyPasses(b.txs)
        && Passes(CoinsAt(old(tip), db.interval), b, db.interval, judge) then Ok else Invalid
      ensures r.Ok? ==> tip == b && db.db.blocks == old(db.db.blocks) + {b} && db.db.tips == old(db.db.tips) - {b.prev.value} + {b}
      ensures r.Ok? ==> judge.header(b).Accept?
      ensures r.Ok? ==> log == old(log) + [Event.Connect(b)]
      ensures !r.Ok? ==> tip == old(tip) && log == old(log) && db.db == old(db.db)
      ensures invalid == old(invalid) + if !r.Ok? && BodyPasses(b.txs) then Blame(b, judge) else {}
    {
      hide ChainRecords.Consistent, Blame, BodyPasses, BodyOk, Connected, SavedAlternate, MainState;
      SameTree(SavedAlternate(db.db, b), b, db.interval);
      SavedTree(db.db, b);
      TipCoins(db.db, db.genesis, db.interval);
      var sound := CheckBody(b.txs);
      if !sound {
        return Invalid;
      }
      PassingBody(b.txs);
      var v, view := VerifyContext(b, judge);
      if v.Reject? {
        if !v.malleated {
          SetInvalid(b);
        }
        return Invalid;
      }
      db.Save(b, view);
      tip := b;
      height := Height(b);
      log := log + [Event.Connect(b)];
      return Ok;
    }

    /** Store `b` beside the main chain after the checks that need no coins. */
    method SaveAlternate(b: Block, judge: Judge) returns (r: Result)
      requires Valid() && b !in db.db.blocks && b.prev.Some? && b.prev.value in db.db.blocks
      modifies this, db
      ensures Valid() && tip == old(tip) && log == old(log)
      ensures r == if BodyPasses(b.txs) && judge.header(b).Accept? then Ok else Invalid
      ensures r.Ok? ==> db.db == SavedAlternate(old(db.db), b)
      ensures !r.Ok? ==> db.db == old(db.db)
      ensures invalid == old(invalid) + if BodyPasses(b.txs) && judge.header(b).Reject? then Blame(b, judge) else {}
    {
      var sound := CheckBody(b.txs);
      if !sound {
        return Invalid;
      }
      PassingBody(b.txs);
      var v := judge.header(b);
      if v.Reject? {
        if !v.malleated {
          SetInvalid(b);
        }
        return Invalid;
      }
      db.SaveAlternate(b);
      return Ok;
    }

    /** Add a block whose parent is stored. A block with no more work than the tip is kept beside
        the main chain, so on equal work the block seen first stays; otherwise the chain settles
        where the branch of `b` lets it, at `b` or below the first block that fails. */
    method ConnectBlock(b: Block, judge: Judge) returns (r: Result)
      requires Valid() && b !in db.db.blocks && b.prev.Some? && b.prev.value in db.db.blocks
      modifies this, db
      ensures Valid()
      ensures db.db.blocks == old(db.db.blocks) + if r.Ok? then {b} else {}
      ensures r.Ok? ==> judge.header(b).Accept?
      ensures r.Broken? ==> !Closed(db.db.blocks) && tip == old(tip) && log == old(log) && invalid == old(invalid)
      ensures !r.Broken? ==> invalid == old(invalid) + Condemned(old(tip), b, db.interval, judge)
      ensures r.Ok? ==> invalid == old(invalid)
      ensures !r.Broken? ==> tip == Stepped(old(tip), b, db.interval, judge) && (r.Ok? <==> !Refused(old(tip), b, db.interval, judge))
      ensures Work(b) <= Work(old(tip)) ==> tip == old(tip) && log == old(log) && (r.Ok? <==> BodyPasses(b.txs) && judge.header(b).Accept?)
      ensures Work(b) > Work(old(tip)) && !r.Broken? ==>
        var f := ForkOf(old(tip), b);
        && IsAncestor(f, old(tip)) && IsAncestor(f, b) && IsAncestor(f, b.prev.value) && IsAncestor(f, tip)
        && tip == Settles(f, b, db.interval, judge) && log == old(log) + Down(old(tip), f) + Up(f, tip)
        && (r.Ok? <==> tip == b) && (r.Ok? <==> BodyPasses(b.txs) && BranchPasses(f, b, db.interval, judge))
      ensures old(TreeOk(db.db)) ==> TreeOk(db.db) && !r.Broken?
      ensures old(BestTip(db.db.blocks, tip)) ==> (BestTip(db.db.blocks, tip) <==> Work(tip) >= Work(old(tip)))
    {
      hide ChainRecords.Consistent, Down, Up, BranchPasses, LastGood, Settles, BodyPasses, IsAncestor, ForkOf, Work;
      hide Condemned, Condemns, Blame, Stepped, Settled;
      SettledIs(tip, b, db.interval, judge);
      SteppedIs(tip, b, db.interval, judge);
      CondemnedIs(tip, b, db.interval, judge);
      CommonRoot(b);
      TipStored();
      SaveKeepsTree(db.db, b);
      if Work(b) <= Work(tip) {
        r := SaveAlternate(b, judge);
      } else {
        r := SetBestChain(b, judge);
        if r.Invalid? { NotItself(ForkOf(old(tip), b), b, db.interval, judge); }
        if r.Ok? { CondemnsNothing(ForkOf(old(tip), b), b, db.interval, judge); }
      }
    }

    /** A known invalid block, or the child of one; the child is marked as well. */
    method HasInvalid(b: Block) returns (known: bool)
      modifies this`invalid
      ensures known <==> b in old(invalid) || (b.prev.Some? && b.prev.value in old(invalid))
      ensures invalid == old(invalid) + if known then {b} else {}
    {
      if b in invalid {
        return true;
      }
      if b.prev.Some? && b.prev.value in invalid {
        SetInvalid(b);
        return true;
      }
      return false;
    }

    /** Hand a received block to the chain. */
    method Add(b: Block, now: int, judge: Judge) returns (r: Added)
      requires Ready()
      modifies this, db, orphans
      ensures Ready() && Vetted(old(db.db.blocks), db.db.blocks, judge)
      ensures forall x :: x in db.db.blocks ==> x == b || x in old(db.db.blocks) || x in old(orphans.byHash)
      ensures r.Duplicate? <==> old(b == db.genesis || b in orphans.byHash || b in invalid || (b.prev.Some? && b.prev.value in invalid)
        || (judge.pow(b) && b in db.db.blocks))
      ensures r.HighHash? ==> !judge.pow(b)
      ensures r.Held? ==> HeldBack(old(orphans.byHash), b, now, orphans.maxOrphans, orphans.byHash) && (b.prev.Some? ==> b.prev.value !in db.db.blocks)
      ensures r.Duplicate? || r.HighHash? || r == Linked(Invalid) ==> orphans.byHash == old(orphans.byHash)
      ensures !r.Linked? ==> tip == old(tip) && db.db == old(db.db)
      ensures r == Linked(Ok) ==> b in db.db.blocks
      ensures r == Linked(Invalid) ==> db.db.blocks == old(db.db.blocks) && Refused(old(tip), b, db.interval, judge)
      ensures r == Linked(Invalid) ==> invalid == old(invalid) + Condemned(old(tip), b, db.interval, judge)
      ensures r.Held? || r.HighHash? ==> invalid == old(invalid)
      ensures r.Duplicate? ==> invalid == old(invalid) + if old(b != db.genesis && b !in orphans.byHash
        && b.prev.Some? && b.prev.value in invalid) then {b} else {}
      ensures r == Linked(Broken) ==> !Closed(db.db.blocks)
      ensures r.Linked? && !r.result.Broken? ==> (r.result.Ok? <==> !Refused(old(tip), b, db.interval, judge))
      ensures r.Linked? && !r.result.Broken? ==>
        Became(ChaseOf(old(tip), b, old(orphans.byPrev), db.interval, judge),
          tip, old(db.db.blocks), db.db.blocks, orphans.byPrev, old(invalid), invalid)
      ensures r.Linked? && !r.result.Broken? && old(BestTip(db.db.blocks, tip)) ==>
        (BestTip(db.db.blocks, tip) <==> KeepsWork(ChaseOf(old(tip), b, old(orphans.byPrev), db.interval, judge), old(tip)))
      ensures r == Linked(Broken) && old(BestTip(db.db.blocks, tip)) ==> BestTip(db.db.blocks, tip)
      ensures old(TreeOk(db.db)) ==> TreeOk(db.db) && r != Linked(Broken)
    {
      hide ChainRecords.Consistent, Settles, BranchPasses, Detached, BestTip, TreeOk, Settled, ForkOf, IsAncestor;
      hide Work, Closed;
      hide ChainDB.Committed, Vetted, Refused, Condemned, HeldBack, Became, ChaseOf, KeepsWork;
      VettedNone(db.db.blocks, judge);
      GenesisStored();
      TipStored();
      if b == db.genesis || b in orphans.byHash {
        return Duplicate;
      }
      var known := HasInvalid(b);
      if known {
        return Duplicate;
      }
      if !judge.pow(b) {
        return HighHash;
      }
      known := db.HasEntry(b);
      if known {
        return Duplicate;
      }
      known := KnownParent(b);
      if !known {
        Hold(b, now);
        return Held;
      }
      var c := LinkBlock(b, judge);
      TreeCloses(db.db);
      return Linked(c);
    }

    method KnownParent(b: Block) returns (known: bool)
      requires db.Committed()
      ensures known <==> b.prev.Some? && b.prev.value in db.db.blocks
    {
      if b.prev.None? {
        return false;
      }
      var prev := db.GetEntry(b.prev.value);
      return prev.Some?;
    }

    /** Keep a block whose parent is unknown as an orphan. */
    method Hold(b: Block, now: int)
      requires Ready() && b !in db.db.blocks && b !in orphans.byHash && (b.prev.Some? ==> b.prev.value !in db.db.blocks)
      modifies orphans
      ensures Ready() && HeldBack(old(orphans.byHash), b, now, orphans.maxOrphans, orphans.byHash)
    {
      hide ChainRecords.Consistent, Detached, Paired, Limited;
      ghost var held := orphans.byHash.Keys;
      orphans.StoreOrphan(b, now);
      DetachedStored(held, orphans.byHash.Keys, db.db.blocks, b);
    }

    /** Connect a block whose parent is stored, then the orphans that were waiting for it. */
    method LinkBlock(b: Block, judge: Judge) returns (r: Result)
      requires Ready() && b !in db.db.blocks && b !in orphans.byHash && b.prev.Some? && b.prev.value in db.db.blocks
      modifies this, db, orphans
      ensures Ready() && Vetted(old(db.db.blocks), db.db.blocks, judge)
      ensures db.db.blocks <= old(db.db.blocks) + {b} + old(orphans.byHash.Keys)
      ensures r.Ok? ==> b in db.db.blocks
      ensures r.Invalid? ==> db.db.blocks == old(db.db.blocks) && orphans.byHash == old(orphans.byHash)
      ensures r.Invalid? ==> invalid == old(invalid) + Condemned(old(tip), b, db.interval, judge)
      ensures r.Broken? ==> !Closed(db.db.blocks)
      ensures !r.Broken? ==> (r.Ok? <==> !Refused(old(tip), b, db.interval, judge))
      ensures !r.Broken? ==>
        Became(ChaseOf(old(tip), b, old(orphans.byPrev), db.interval, judge),
          tip, old(db.db.blocks), db.db.blocks, orphans.byPrev, old(invalid), invalid)
      ensures !r.Broken? && old(BestTip(db.db.blocks, tip)) ==>
        (BestTip(db.db.blocks, tip) <==> KeepsWork(ChaseOf(old(tip), b, old(orphans.byPrev), db.interval, judge), old(tip)))
      ensures old(TreeOk(db.db)) ==> TreeOk(db.db)
      ensures r.Broken? && old(BestTip(db.db.blocks, tip)) ==> BestTip(db.db.blocks, tip)
    {
      hide ChainRecords.Consistent, Settles, BranchPasses, Detached, BestTip, TreeOk, Settled, ForkOf, IsAncestor;
      hide Work, Closed;
      hide ChainDB.Committed, OrphanPool.Valid, Vetted, Refused, Condemned, ChaseOf, Resolve, Stepped, KeepsWork;
      VettedNone(db.db.blocks, judge);
      TipStored();
      ghost var first, stored, before := tip, db.db.blocks, orphans.byPrev;
      KeptBest(b, judge);
      r := ConnectBlock(b, judge);
      if !r.Ok? {
        assert db.db.blocks == stored;
        if r.Invalid? { ChaseRefused(first, b, before, stored, old(invalid), db.interval, judge); }
        return;
      }
      VettedMore(stored, stored, b, judge);
      StillDetached(orphans.byHash.Keys, stored, b);
      var waiting := orphans.HasNextOrphan(b);
      if waiting {
        r := HandleOrphans(b, judge);
        VettedTwice(stored, stored + {b}, db.db.blocks, judge);
      } else {
        DetachedAll(orphans.byHash.Keys, db.db.blocks, b);
      }
      if r.Ok? {
        ChaseStarts(first, b, before, stored, tip, db.db.blocks, orphans.byPrev, old(invalid), invalid, db.interval,
          judge);
      }
    }

    /** Take the orphan waiting for `entry` out of the pool. */
    method NextOrphan(entry: Block) returns (b: Option<Block>)
      requires Valid() && orphans.Valid() && entry in db.db.blocks
      requires Detached(orphans.byHash.Keys, db.db.blocks - {entry}) && entry !in orphans.byHash
      modifies orphans
      ensures Ready() && Taken(old(orphans.byHash.Keys), orphans.byHash.Keys, b)
      ensures b == NextOf(old(orphans.byPrev), entry) && orphans.byPrev == old(orphans.byPrev) - {Some(entry)}
      ensures b.Some? ==> b.value !in db.db.blocks && b.value.prev == Some(entry)
    {
      hide ChainRecords.Consistent, Detached;
      var o := orphans.ResolveOrphan(entry);
      if o.None? {
        DetachedAll(orphans.byHash.Keys, db.db.blocks, entry);
        return None;
      }
      var x := o.value.block;
      DetachedOne(old(orphans.byHash.Keys), db.db.blocks, entry, x);
      assert orphans.byHash.Keys == old(orphans.byHash.Keys) - {x};
      DetachedAll(orphans.byHash.Keys, db.db.blocks, entry);
      return Some(x);
    }

    /** Connect a resolved orphan and take out the one waiting for it. */
    method FollowOrphan(b: Block, judge: Judge) returns (r: Result, next: Option<Block>)
      requires Ready() && b !in db.db.blocks && b !in orphans.byHash
      requires b.prev.Some? && b.prev.value in db.db.blocks
      modifies this, db, orphans
      ensures Ready()
      ensures db.db.blocks == old(db.db.blocks) + if r.Ok? then {b} else {}
      ensures r.Ok? ==> judge.header(b).Accept?
      ensures !r.Broken? ==> tip == Stepped(old(tip), b, db.interval, judge) && (r.Ok? <==> !Refused(old(tip), b, db.interval, judge))
      ensures r.Ok? ==> next == NextOf(old(orphans.byPrev), b) && orphans.byPrev == old(orphans.byPrev) - {Some(b)}
      ensures !r.Ok? ==> orphans.byPrev == old(orphans.byPrev)
      ensures r.Ok? ==> invalid == old(invalid)
      ensures !r.Invalid? && old(BestTip(db.db.blocks, tip)) ==> BestTip(db.db.blocks, tip)
      ensures r.Invalid? ==> invalid == old(invalid) + Condemned(old(tip), b, db.interval, judge)
      ensures !r.Ok? ==> next.None?
      ensures r.Broken? ==> !Closed(db.db.blocks)
      ensures old(TreeOk(db.db)) ==> TreeOk(db.db)
      ensures Taken(old(orphans.byHash.Keys), orphans.byHash.Keys, next)
      ensures next.Some? ==> next.value !in db.db.blocks && next.value.prev == Some(b)
    {
      hide ChainRecords.Consistent, Settles, BranchPasses, IsAncestor, BestTip, TreeOk, ForkOf, Detached, Work;
      hide Refused, Condemned, Stepped;
      ghost var stored := db.db.blocks;
      next := None;
      r := ConnectBlock(b, judge);
      if !r.Ok? {
        return;
      }
      StillDetached(orphans.byHash.Keys, stored, b);
      next := NextOrphan(b);
    }

    /** Connect the orphan waiting for `entry`, then the one waiting for that, and so on. */
    method HandleOrphans(entry: Block, judge: Judge) returns (r: Result)
      requires Valid() && orphans.Valid() && entry in db.db.blocks
      requires Detached(orphans.byHash.Keys, db.db.blocks - {entry}) && entry !in orphans.byHash
      modifies this, db, orphans
      ensures Ready() && Vetted(old(db.db.blocks), db.db.blocks, judge)
      ensures orphans.byHash.Keys <= old(orphans.byHash.Keys)
      ensures db.db.blocks - old(db.db.blocks) <= old(orphans.byHash.Keys)
      ensures r.Ok? || (r.Broken? && !Closed(db.db.blocks))
      ensures r.Ok? ==> Became(Resolve(old(tip), entry, old(orphans.byPrev), db.interval, judge),
        tip, old(db.db.blocks), db.db.blocks, orphans.byPrev, old(invalid), invalid)
      ensures old(TreeOk(db.db)) ==> TreeOk(db.db)
      ensures r.Broken? && old(BestTip(db.db.blocks, tip)) ==> BestTip(db.db.blocks, tip)
    {
      hide ChainRecords.Consistent, Settles, BranchPasses, IsAncestor, BestTip, TreeOk, ForkOf, Detached, Work, Closed;
      hide Valid, Ready, ChainDB.Committed, OrphanPool.Valid, Vetted, Refused, Condemned;
      hide Resolve, Onward, Heading, Became, Stepped, NextOf, Underway;
      TipStored();
      ghost var from := Start(db.db.blocks, orphans.byHash.Keys, Resolve(tip, entry, orphans.byPrev, db.interval, judge));
      ghost var cur := entry;
      var orphan := NextOrphan(entry);
      UnderwayFirst(tip, entry, db.db.blocks, from.pool, old(orphans.byPrev), orphans.byHash.Keys, orphan,
        orphans.byPrev, db.interval, judge);
      UnderwayIs(from, db.db.blocks, orphans.byHash.Keys, tip, cur, orphan, orphans.byPrev, db.interval, judge);
      while orphan.Some?
        invariant Ready() && invalid == old(invalid)
        invariant Underway(from, db.db.blocks, orphans.byHash.Keys, tip, cur, orphan, orphans.byPrev, db.interval, judge)
        invariant old(TreeOk(db.db)) ==> TreeOk(db.db)
        invariant old(BestTip(db.db.blocks, tip)) ==> BestTip(db.db.blocks, tip)
        decreases |orphans.byHash.Keys| + if orphan.Some? then 1 else 0
      {
        ghost var b, stored, held, waiting, was := orphan.value, db.db.blocks, orphans.byHash.Keys, orphans.byPrev, tip;
        UnderwayIs(from, stored, held, was, cur, orphan, waiting, db.interval, judge);
        r, orphan := FollowOrphan(orphan.value, judge);
        if !r.Ok? {
          assert db.db.blocks == stored;
          if r.Broken? {
            return;
          }
          UnderwayRefused(from, stored, held, was, cur, b, waiting, old(invalid), db.interval, judge);
          return Ok;
        }
        UnderwayNext(from, stored, held, was, cur, b, waiting, orphans.byHash.Keys, orphan, db.interval, judge);
        cur := b;
      }
      UnderwayDone(from, db.db.blocks, orphans.byHash.Keys, tip, cur, orphans.byPrev, invalid, db.interval, judge);
      UnderwayIs(from, db.db.blocks, orphans.byHash.Keys, tip, cur, orphan, orphans.byPrev, db.interval, judge);
      return Ok;
    }

    /** Go back to a main-chain block. */
    method Reset(target: Block) returns (ok: bool)
      requires Ready()
      modifies this, db, orphans
      ensures Ready()
      ensures old(TreeOk(db.db)) ==> (ok <==> IsAncestor(target, old(tip)))
      ensures ok ==> tip == target && orphans.byHash == map[] && db.db.blocks <= old(db.db.blocks)
      ensures !ok ==> tip == old(tip) && db.db == old(db.db) && orphans.byHash == old(orphans.byHash)
      ensures ok && old(TreeOk(db.db)) ==> OnlyChain(db.db.blocks, target) && BestTip(db.db.blocks, tip)
      ensures ok && old(TreeOk(db.db)) ==> (TreeOk(db.db) <==> target != old(tip) || !HasChild(old(db.db.blocks), old(tip)))
    {
      hide ChainRecords.Consistent, BestTip, TreeOk, OnlyChain, Detached, HasChild;
      ok := db.Reset(target);
      if !ok {
        return;
      }
      tip := target;
      height := Height(target);
      orphans.PurgeOrphans();
      NoneHeld(db.db.blocks);
      if OnlyChain(db.db.blocks, target) { OnlyChainBest(db.db.blocks, target); }
    }

    lemma CommonRoot(b: Block)
      requires Valid() && b.prev.Some? && b.prev.value in db.db.blocks
      ensures IsAncestor(ForkOf(tip, b), b)
    {
      CoversTip(db.db, db.genesis, db.interval);
      StoredBody(db.db, db.genesis, db.interval, b.prev.value);
      ForkIsHighest(tip, b, db.genesis);
    }

    /** What `BestKeptExactly` says of the chain as it is. */
    lemma KeptBest(b: Block, judge: Judge)
      requires Valid() && orphans.Valid() && b.prev.Some? && b.prev.value in db.db.blocks
      ensures BestTip(db.db.blocks, tip) ==>
        var c := ChaseOf(tip, b, orphans.byPrev, db.interval, judge);
        BestTip(db.db.blocks + c.added, c.tip) <==> KeepsWork(c, tip)
    {
      hide BestTip, KeepsWork, ChaseOf, ChainRecords.Consistent;
      CoversTip(db.db, db.genesis, db.interval);
      TipStored();
      StoredBody(db.db, db.genesis, db.interval, b.prev.value);
      PairedLinks(orphans.byHash, orphans.byPrev);
      if BestTip(db.db.blocks, tip) {
        BestKeptExactly(db.db.blocks, tip, b, db.genesis, orphans.byPrev, db.interval, judge);
      }
    }

    lemma GenesisStored()
      requires Valid()
      ensures db.genesis in db.db.blocks
    {
      CoversTip(db.db, db.genesis, db.interval);
    }

    lemma TipStored()
      requires Valid()
      ensures tip in db.db.blocks && (tip.prev.Some? ==> tip.prev.value in db.db.blocks)
    {
      TipFacts(db.db, db.genesis, db.interval, tip);
    }
  }
}
