/** A short run in which a reorganization fails: two blocks on genesis, then a third that makes the
    second branch the better one although its first block does not pass. */
module Witness {
  import opened Primitives
  import opened Ledger
  import opened Replay
  import opened ChainRecords
  import opened ChainStore
  import opened Forks
  import opened Orphans
  import opened Sanity
  import opened Outcomes
  import opened Chain
  import opened MedianTime
  import opened Compact
  import opened Retarget
  import opened Consensus
  import opened HeaderRules

  /** A body with a coinbase only. */
  function Body(id: TxId, claim: int): seq<Tx> {
    [Tx(id, 1, [Input(NullOutpoint, 0)], [Spendable(claim, None)])]
  }

  /** A genesis block, any at all, that leaves room for two later times. */
  ghost predicate Genesis(g: Block) {
    g.prev.None? && Proof(g.bits) > 0 && g.time < 0xffff_fffd
  }

  /** A block one second after its parent. */
  function Child(parent: Block, nonce: Word, claim: int): Block
    requires parent.time < 0xffff_ffff
  {
    Block(Some(parent), parent.time + 1, parent.bits, 4, nonce, Body(nonce, claim))
  }

  /** The first block on genesis. */
  function A(g: Block): Block
    requires g.time < 0xffff_fffd
  {
    Child(g, 1, 0)
  }

  /** Another one, which begins the second branch and claims what it likes. */
  function B(g: Block, claim: int): Block
    requires g.time < 0xffff_fffd
  {
    Child(g, 2, claim)
  }

  /** The block that makes the second branch the longer one. */
  function C(g: Block, claim: int): Block
    requires g.time < 0xffff_fffd
  {
    Child(B(g, claim), 3, 0)
  }

  /** The checks not spelled out have nothing against the three blocks. */
  predicate Lets(judge: Judge, g: Block, claim: int)
    requires g.time < 0xffff_fffd
  {
    forall x :: x in {A(g), B(g, claim), C(g, claim)} ==> judge.pow(x) && judge.header(x).Accept? && judge.inputs(x)
  }

  lemma BodyIsSound(id: TxId, claim: int)
    requires InRange(claim)
    ensures BodyPasses(Body(id, claim)) && BodyOk(Body(id, claim))
  {
    Claimed(id, claim);
    PassingBody(Body(id, claim));
  }

  lemma Claimed(id: TxId, claim: int)
    ensures OutputTotal(Body(id, claim)[0].outputs, 1) == claim
  {
    assert OutputTotal(Body(id, claim)[0].outputs, 1) == OutputTotal(Body(id, claim)[0].outputs, 0) + claim;
  }

  /** Such a block connects exactly when it claims no more than the subsidy. */
  lemma BodyConnects(coins: Coins, b: Block, id: TxId, claim: int, interval: nat)
    requires b.txs == Body(id, claim) && Fresh(coins, id)
    ensures FreshBlock(coins, b.txs)
    ensures ConnectBlock(coins, b, interval) == if claim <= GetReward(Height(b), interval)
      then Some(Conn(coins[Outpoint(id, 0) := CoinOf(b.txs[0], 0, Height(b))], [], 0)) else None
  {
    hide GetReward;
    var tx := b.txs[0];
    assert b.txs[..0] == [];
    assert ConnectTxs(coins, [], Height(b)) == Some(Conn(coins, [], 0));
    assert ConnectTxs(coins, b.txs, Height(b)) == ConnectTx(Conn(coins, [], 0), tx, Height(b), true);
    var h := Height(b);
    assert AddOutputs(coins, tx, h, 1) == AddOutputs(coins, tx, h, 0)[Outpoint(id, 0) := CoinOf(tx, 0, h)];
    Claimed(id, claim);
  }

  lemma ChildPasses(parent: Block, nonce: Word, claim: int, interval: nat, judge: Judge)
    requires parent.time < 0xffff_ffff && Fresh(CoinsAt(parent, interval), nonce)
    requires judge.header(Child(parent, nonce, claim)).Accept? && judge.inputs(Child(parent, nonce, claim))
    ensures Passes(CoinsAt(parent, interval), Child(parent, nonce, claim), interval, judge)
      <==> claim <= GetReward(Height(parent) + 1, interval)
  {
    hide GetReward;
    BodyConnects(CoinsAt(parent, interval), Child(parent, nonce, claim), nonce, claim, interval);
  }

  /** At most the coinbase of one block on genesis is a coin there. */
  lemma OneCoin(g: Block, nonce: Word, claim: int, interval: nat)
    requires g.prev.None? && g.time < 0xffff_ffff
    ensures CoinsAt(g, interval) == map[]
    ensures forall op :: op in CoinsAt(Child(g, nonce, claim), interval) ==> op == Outpoint(nonce, 0)
  {
    hide GetReward;
    BodyConnects(map[], Child(g, nonce, claim), nonce, claim, interval);
  }

  /** The claim of the second branch's first block is one the code allows. */
  predicate Pays(claim: int, interval: nat) {
    claim <= GetReward(1, interval)
  }

  lemma Shape(g: Block, claim: int)
    requires Genesis(g)
    ensures Work(g) < Work(A(g)) == Work(B(g, claim)) < Work(C(g, claim))
    ensures ForkOf(g, A(g)) == g && ForkOf(A(g), C(g, claim)) == g
    ensures IsAncestor(g, g) && IsAncestor(g, A(g)) && IsAncestor(g, B(g, claim)) && IsAncestor(g, C(g, claim))
  {
    assert ForkOf(A(g), C(g, claim)) == ForkOf(A(g), B(g, claim)) == ForkOf(g, B(g, claim)) == g;
  }

  /** Which branches pass. */
  lemma Branches(g: Block, claim: int, interval: nat, judge: Judge)
    requires Genesis(g) && InRange(claim) && Lets(judge, g, claim)
    ensures IsAncestor(g, A(g)) && BranchPasses(g, A(g), interval, judge)
    ensures IsAncestor(g, B(g, claim)) && (BranchPasses(g, B(g, claim), interval, judge) <==> Pays(claim, interval))
    ensures IsAncestor(g, C(g, claim)) && (BranchPasses(g, C(g, claim), interval, judge) <==> Pays(claim, interval))
  {
    hide ForkOf, Work, Passes, BranchPasses, IsAncestor, CoinsAt, Proof;
    Shape(g, claim);
    OneCoin(g, 2, claim, interval);
    PassesNone(g, interval, judge);
    ChildPasses(g, 1, 0, interval, judge);
    ChildPasses(g, 2, claim, interval, judge);
    ChildPasses(B(g, claim), 3, 0, interval, judge);
    PassesStep(g, A(g), interval, judge);
    PassesStep(g, B(g, claim), interval, judge);
    PassesStep(g, C(g, claim), interval, judge);
  }

  lemma SettlesFirst(g: Block, b: Block, c: Block, interval: nat, judge: Judge)
    requires b.prev == Some(g) && c.prev == Some(b) && judge.header(b).Accept?
    requires IsAncestor(g, b) && IsAncestor(g, c) && !BranchPasses(g, b, interval, judge)
    ensures Settles(g, c, interval, judge) == g && Condemns(g, c, interval, judge) == {b}
    ensures !BranchPasses(g, c, interval, judge)
  {
    PassesNone(g, interval, judge);
    PassesStep(g, c, interval, judge);
    assert Height(b) == Height(g) + 1;
    AllGood(g, g, interval, judge);
    assert LastGood(g, b, interval, judge) == LastGood(g, g, interval, judge);
    assert BranchBlame(g, c, interval, judge) == BranchBlame(g, b, interval, judge) == {b};
  }

  /** Whether the second branch takes over hangs on what its first block claims: with more than the
      subsidy, the tip ends at genesis, and the longer branch costs the chain the work it had. */
  lemma FirstBlockDecides(g: Block, claim: int, interval: nat, judge: Judge)
    requires Genesis(g) && InRange(claim) && Lets(judge, g, claim)
    ensures ChaseOf(A(g), C(g, claim), map[], interval, judge)
         == if Pays(claim, interval) then Chase(C(g, claim), {C(g, claim)}, map[], {}, false)
            else Chase(g, {}, map[], {B(g, claim)}, true)
    ensures Work(g) < Work(A(g)) < Work(C(g, claim))
  {
    hide ForkOf, Work, Passes, BranchPasses, IsAncestor, CoinsAt, Proof, BodyPasses, Settles, Condemns;
    Shape(g, claim);
    Branches(g, claim, interval, judge);
    BodyIsSound(3, 0);
    if Pays(claim, interval) {
      SettlesTop(g, C(g, claim), interval, judge);
    } else {
      SettlesFirst(g, B(g, claim), C(g, claim), interval, judge);
    }
  }

  lemma SettlesTop(g: Block, c: Block, interval: nat, judge: Judge)
    requires c.prev.Some? && IsAncestor(g, c.prev.value) && IsAncestor(g, c)
    requires BranchPasses(g, c, interval, judge) && BodyPasses(c.txs)
    ensures Settles(g, c, interval, judge) == c && Condemns(g, c, interval, judge) == {}
  {
    CondemnsNothing(g, c, interval, judge);
  }

  /** The two blocks on genesis: the one that came first stays the tip. */
  lemma FirstStays(g: Block, claim: int, interval: nat, judge: Judge)
    requires Genesis(g) && InRange(claim) && Lets(judge, g, claim)
    ensures ChaseOf(g, A(g), map[], interval, judge) == Chase(A(g), {A(g)}, map[], {}, false)
    ensures ChaseOf(A(g), B(g, claim), map[], interval, judge) == Chase(A(g), {B(g, claim)}, map[], {}, false)
  {
    hide ForkOf, Work, Passes, BranchPasses, IsAncestor, CoinsAt, Proof, BodyPasses, Settles, Condemns;
    Shape(g, claim);
    Branches(g, claim, interval, judge);
    BodyIsSound(1, 0);
    BodyIsSound(2, claim);
    SettlesTop(g, A(g), interval, judge);
  }

  /** The three blocks carry the bits and times the header checks demand, wherever the first retarget
      comes after them, so these checks in front let them pass. */
  lemma RulesLetThem(g: Block, claim: int, judge: Judge, now: int, pow: Pow)
    requires Genesis(g) && InRange(claim) && Lets(judge, g, claim) && g.time + 2 <= now + MAX_AHEAD
    requires Retarget.Sensible(pow) && g.bits == pow.bits && (pow.retargetInterval > 2 || pow.noRetargeting)
    ensures Lets(WithRules(judge, now, pow), g, claim)
  {
    hide FromCompact, Proof, Mtp, Demanded;
    Times(g, claim);
    Demands(g, claim, pow);
    assert Follows(A(g), pow) && Follows(B(g, claim), pow) && Follows(C(g, claim), pow);
    forall x | x in {A(g), B(g, claim), C(g, claim)} ensures WithRules(judge, now, pow).header(x).Accept? {
      assert judge.header(x).Accept?;
    }
  }

  lemma Times(g: Block, claim: int)
    requires Genesis(g)
    ensures Mtp(g) == g.time && Mtp(B(g, claim)) == g.time + 1
  {
    var t := g.time;
    assert LastTimes(None, 9) == [] && LastTimes(None, 10) == [];
    assert LastTimes(Some(g), 11) == [t];
    assert LastTimes(Some(g), 10) == [t];
    assert LastTimes(Some(B(g, claim)), 11) == [t + 1, t];
    assert Sort([]) == [] && Insert(t, []) == [t] && [t][1..] == [];
    assert Sort([t]) == [t];
    assert [t + 1, t][1..] == [t] && Insert(t + 1, []) == [t + 1];
    assert Sort([t + 1, t]) == Insert(t + 1, [t]) == [t, t + 1];
  }

  lemma Demands(g: Block, claim: int, pow: Pow)
    requires Genesis(g) && Retarget.Sensible(pow) && g.bits == pow.bits
    requires (pow.retargetInterval > 2 || pow.noRetargeting)
    ensures Demanded(A(g).time, g, pow) == pow.bits && Demanded(C(g, claim).time, B(g, claim), pow) == pow.bits
  {
    hide FromCompact, Proof;
    assert Height(g) == 0 && Height(B(g, claim)) == 1;
    assert LastEarnest(g, pow) == g;
    if pow.retargetInterval > 2 {
      SmallRemainder(1, pow.retargetInterval);
      SmallRemainder(2, pow.retargetInterval);
    }
  }

  /** Hand in a new block whose parent is stored, while no orphan waits. */
  method Feed(chain: Chain, b: Block, judge: Judge)
    requires chain.Ready() && TreeOk(chain.db.db) && chain.orphans.byPrev == map[] && judge.pow(b)
    requires b !in chain.db.db.blocks && b.prev.Some? && b.prev.value in chain.db.db.blocks && chain.invalid == {}
    modifies chain, chain.db, chain.orphans
    ensures chain.Ready() && TreeOk(chain.db.db)
    ensures var c := ChaseOf(old(chain.tip), b, map[], chain.db.interval, judge);
      Became(c, chain.tip, old(chain.db.db.blocks), chain.db.db.blocks, chain.orphans.byPrev, {}, chain.invalid)
  {
    hide ChainRecords.Consistent, TreeOk, BestTip, Work, ChaseOf, Vetted, Detached, IsAncestor, Became;
    hide Refused, Condemned, HeldBack, KeepsWork;
    NoneWaiting(chain.orphans.byHash, chain.orphans.byPrev);
    chain.GenesisStored();
    var r := chain.Add(b, 0, judge);
  }

  lemma NoneWaiting(byHash: map<Block, Orphan>, byPrev: map<Option<Block>, Orphan>)
    requires Paired(byHash, byPrev)
    ensures byPrev == map[] <==> byHash == map[]
  {
    if byPrev != map[] {
      var p :| p in byPrev;
      assert byPrev[p].block in byHash;
    }
    if byHash != map[] {
      var b :| b in byHash;
      assert b.prev in byPrev;
    }
  }

  /** Genesis with two blocks on it. */
  method TwoBranches(g: Block, claim: int, interval: nat, judge: Judge) returns (chain: Chain)
    requires Genesis(g) && InRange(claim) && Lets(judge, g, claim)
    ensures fresh(chain) && fresh(chain.db) && fresh(chain.orphans) && chain.Ready() && TreeOk(chain.db.db)
    ensures chain.db.genesis == g && chain.db.interval == interval
    ensures chain.tip == A(g) && chain.db.db.blocks == {g, A(g), B(g, claim)}
    ensures chain.invalid == {} && chain.orphans.byPrev == map[]
  {
    hide ChainRecords.Consistent, TreeOk, ChaseOf, Proof, Detached, IsAncestor, Chain.Valid, Chain.Ready;
    FirstStays(g, claim, interval, judge);
    var db := new ChainDB(g, interval);
    chain := new Chain(db, 10);
    Feed(chain, A(g), judge);
    Feed(chain, B(g, claim), judge);
  }

  /** The child of the second block sets off a reorganization. When that block claims more than the subsidy,
      the tip is left at genesis, with less work than a stored block; otherwise the child is the tip. */
  method ThirdBlock(g: Block, claim: int, interval: nat, judge: Judge) returns (chain: Chain)
    requires Genesis(g) && InRange(claim) && Lets(judge, g, claim)
    ensures fresh(chain) && fresh(chain.db) && fresh(chain.orphans) && chain.Ready() && TreeOk(chain.db.db)
    ensures Pays(claim, interval) ==>
      && chain.tip == C(g, claim) && BestTip(chain.db.db.blocks, C(g, claim))
      && chain.db.db.blocks == {g, A(g), B(g, claim), C(g, claim)}
    ensures !Pays(claim, interval) ==>
      && chain.tip == g && !BestTip(chain.db.db.blocks, g)
      && chain.db.db.blocks == {g, A(g), B(g, claim)} && chain.invalid == {B(g, claim)}
  {
    hide ChainRecords.Consistent, TreeOk, ChaseOf, Proof, Detached, IsAncestor, Chain.Valid, Chain.Ready, Work;
    Shape(g, claim);
    chain := TwoBranches(g, claim, interval, judge);
    FirstBlockDecides(g, claim, interval, judge);
    Feed(chain, C(g, claim), judge);
    assert A(g) in chain.db.db.blocks;
  }

  lemma NoTipLeft(db: Records, tip: Block, genesis: Block, interval: nat)
    requires Consistent(db, genesis, interval) && OnlyChain(db.blocks, tip) && !TreeOk(db) && tip.prev.None?
    ensures db.blocks == {tip} && db.tips == {}
  {
    TreeEnd(db, tip);
    TipsStored(db, genesis, interval);
    assert db.blocks == {tip};
  }

  /** With the bits and times of every header checked and every other check passing: the second branch
      fails at its first block, which claims too much, and going back to the genesis block at which that
      ends leaves no chain tip on record, although that block is stored. */
  method LostTip(g: Block, interval: nat, now: int, pow: Pow) returns (chain: Chain)
    requires Genesis(g) && g.time + 2 <= now + MAX_AHEAD
    requires Retarget.Sensible(pow) && g.bits == pow.bits && (pow.retargetInterval > 2 || pow.noRetargeting)
    ensures chain.Ready() && chain.tip == g && chain.db.db.blocks == {g} && chain.db.db.tips == {}
  {
    hide ChainRecords.Consistent, TreeOk, ChaseOf, Proof, Detached, Work, BestTip, OnlyChain, FromCompact;
    var claim := BASE_REWARD + 1;
    var judge := Judge(b => true, b => Accept, b => true);
    RulesLetThem(g, claim, judge, now, pow);
    hide Follows;
    chain := ThirdBlock(g, claim, interval, WithRules(judge, now, pow));
    assert A(g) in chain.db.db.blocks;
    var ok := chain.Reset(g);
    assert IsAncestor(g, g);
    NoTipLeft(chain.db.db, g, chain.db.genesis, chain.db.interval);
  }
}
