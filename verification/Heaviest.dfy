/** A race that the branch with fewer blocks wins: the chain with the most work is not the longest. */
module Heaviest {
  import opened Primitives
  import opened Arithmetic
  import opened Ledger
  import opened Replay
  import opened Consensus
  import opened Compact
  import opened MedianTime
  import opened Retarget
  import opened ChainRecords
  import opened ChainStore
  import opened Forks
  import opened Orphans
  import opened Sanity
  import opened Outcomes
  import opened Chain
  import opened HeaderRules
  import opened Witness
  import opened Mining

  /** A network that retargets and a genesis block on it, with room for one planned window. */
  predicate Racing(g: Block, pow: Pow) {
    && Retarget.Sensible(pow) && pow.limit < OVERFLOW && !pow.noRetargeting && pow.targetSpacing > 0
    && 2 <= pow.retargetInterval && 4 * pow.retargetInterval <= pow.targetTimespan
    && g.prev.None? && g.bits == pow.bits && 8 <= FromCompact(g.bits) && Proof(g.bits) > 0
    && g.time + pow.targetTimespan + 2 < 0x1_0000_0000
  }

  /** What both branches have in common: the window without its last block, one block a second. */
  function Base(g: Block, pow: Pow, interval: nat): Block
    requires 2 <= pow.retargetInterval && g.time + pow.retargetInterval < 0x1_0000_0000
  {
    Mined(g, pow.retargetInterval - 2, interval)
  }

  function On(parent: Block, time: Word, bits: Word, id: TxId): Block {
    Block(Some(parent), time, bits, 4, 0, Body(id, 0))
  }

  /** The slow branch takes all the planned time for its window, and keeps the target. */
  function Slow1(g: Block, pow: Pow, interval: nat): Block
    requires Racing(g, pow)
  {
    On(Base(g, pow, interval), g.time + pow.targetTimespan, g.bits, pow.retargetInterval - 1)
  }

  function Slow2(g: Block, pow: Pow, interval: nat): Block
    requires Racing(g, pow)
  {
    var b := Slow1(g, pow, interval);
    On(b, b.time + 1, NextBits(b, g, pow), pow.retargetInterval)
  }

  function Slow3(g: Block, pow: Pow, interval: nat): Block
    requires Racing(g, pow)
  {
    var b := Slow2(g, pow, interval);
    On(b, b.time + 1, b.bits, pow.retargetInterval + 1)
  }

  /** The fast branch ends its window at once, and meets a target of a quarter. */
  function Fast1(g: Block, pow: Pow, interval: nat): Block
    requires Racing(g, pow)
  {
    On(Base(g, pow, interval), g.time + pow.retargetInterval - 1, g.bits, pow.retargetInterval - 1)
  }

  function Fast2(g: Block, pow: Pow, interval: nat): Block
    requires Racing(g, pow)
  {
    var b := Fast1(g, pow, interval);
    On(b, b.time + 1, NextBits(b, g, pow), pow.retargetInterval)
  }

  // ----- the proofs

  /** A quarter of the target proves more than twice as much. */
  lemma QuarterProvesMore(easy: Word, hard: Word)
    requires 8 <= FromCompact(easy) && 0 < 4 * FromCompact(hard) <= FromCompact(easy) && GetProof(easy) > 0
    ensures GetProof(hard) > 2 * GetProof(easy)
  {
    hide FromCompact, GetProof, Pow2;
    ProofIsQuotient(easy);
    ProofIsQuotient(hard);
    var p, q, t, r := GetProof(easy), GetProof(hard), FromCompact(easy), FromCompact(hard);
    TwiceFits(p, t, r);
    LargerProduct(2 * p + 1, q, r + 1);
  }

  lemma TwiceFits(p: nat, t: nat, r: nat)
    requires p >= 1 && t >= 8 && 4 * r <= t
    ensures (2 * p + 1) * (r + 1) <= p * (t + 1)
  {
    var x, y := p * t, p * r;
    ProductOrder(4 * r, t, p);
    ProductOrder(8, t, p);
    ProductOrder(1, p, t);
    Commuted(p, t, r);
    assert 4 * y <= x && 8 * p <= x && t <= x;
    Expanded(p, t, r);
  }

  lemma Commuted(p: nat, t: nat, r: nat)
    ensures t * p == p * t && (4 * r) * p == 4 * (p * r)
  {}

  lemma Expanded(p: nat, t: nat, r: nat)
    ensures (2 * p + 1) * (r + 1) == 2 * (p * r) + 2 * p + r + 1 && p * (t + 1) == p * t + p
  {}

  /** The bits of the three blocks that count: two at the old target against one at a quarter of it. */
  lemma Bits(g: Block, pow: Pow, interval: nat)
    requires Racing(g, pow)
    ensures Proof(Slow2(g, pow, interval).bits) == Proof(g.bits) && Proof(Fast2(g, pow, interval).bits) > 2 * Proof(g.bits)
  {
    hide FromCompact, GetProof, Base, NextBits;
    var slow, fast := Slow1(g, pow, interval), Fast1(g, pow, interval);
    OnPlanStays(slow, g, pow);
    SameTargetProof(Slow2(g, pow, interval).bits, g.bits);
    RetargetAdjusts(fast, g, pow);
    QuarterBits(FromCompact(g.bits), Fast2(g, pow, interval).bits, pow);
    QuarterProvesMore(g.bits, Fast2(g, pow, interval).bits);
  }

  lemma SameTargetProof(a: Word, b: Word)
    requires FromCompact(a) == FromCompact(b)
    ensures GetProof(a) == GetProof(b)
  {
    hide FromCompact;
  }

  lemma QuarterBits(was: nat, next: Word, pow: Pow)
    requires 8 <= was <= pow.limit < OVERFLOW && 8 <= pow.targetTimespan
    requires Rescaled(was * (pow.targetTimespan / 4), next, pow)
    ensures 0 < 4 * FromCompact(next) <= was
  {
    hide FromCompact;
    var d, r := pow.targetTimespan, FromCompact(next);
    var product := was * (d / 4);
    QuarterProduct(was, d);
    ProductOrder(was, pow.limit, d);
    assert (pow.limit + 1) * d == pow.limit * d + d;
    assert 0 <= r * d <= product && 0x7fff * (product - d) < 0x8000 * (r * d);
    if r <= 0 { NotPositive(r, d); }
    Fourfold(r, d);
    if 4 * r > was { LargerProduct(4 * r, was, d); }
  }

  lemma QuarterProduct(was: nat, d: nat)
    requires was >= 8 && d >= 8
    ensures d <= was * (d / 4) && 4 * (was * (d / 4)) <= was * d
  {
    ProductOrder(8, was, d / 4);
    ProductOrder(4 * (d / 4), d, was);
    Commuted(was, d, d / 4);
  }

  lemma NotPositive(r: int, d: nat)
    requires r <= 0
    ensures r * d <= 0
  {}

  lemma Fourfold(r: int, d: nat)
    ensures (4 * r) * d == 4 * (r * d)
  {}

  // ----- the blocks pass

  /** All coins come from transactions with ids below `id`. */
  predicate IdsBelow(coins: Coins, id: TxId) {
    forall op :: op in coins ==> op.Outpoint? && op.hash < id
  }

  lemma OnPasses(parent: Block, time: Word, bits: Word, id: TxId, interval: nat, judge: Judge)
    requires IdsBelow(CoinsAt(parent, interval), id)
    requires var b := On(parent, time, bits, id); judge.header(b).Accept? && judge.inputs(b)
    ensures var b := On(parent, time, bits, id);
      && BodyPasses(b.txs) && Passes(CoinsAt(parent, interval), b, interval, judge)
      && IdsBelow(CoinsAt(b, interval), id + 1)
  {
    hide GetReward;
    BodyIsSound(id, 0);
    BodyConnects(CoinsAt(parent, interval), On(parent, time, bits, id), id, 0, interval);
  }

  lemma BaseIds(g: Block, pow: Pow, interval: nat)
    requires Racing(g, pow)
    ensures IdsBelow(CoinsAt(Base(g, pow, interval), interval), pow.retargetInterval - 1)
    ensures var b := Base(g, pow, interval);
      Height(b) == pow.retargetInterval - 2 && b.time == g.time + pow.retargetInterval - 2 && b.bits == g.bits
  {
    hide CoinsAt, FromCompact, GetProof, Mined, Coinbases, IdsBelow, ValidChain, TxCountAt;
    MinedCoins(g, pow.retargetInterval - 2, interval);
    MinedShape(g, pow.retargetInterval - 2, interval);
    CoinbaseIds(CoinsAt(Base(g, pow, interval), interval), pow.retargetInterval - 2, interval);
  }

  lemma CoinbaseIds(coins: Coins, n: nat, interval: nat)
    requires Coinbases(coins, n, interval)
    ensures IdsBelow(coins, n + 1)
  {
    hide GetReward;
  }

  /** The checks not spelled out have nothing against any block of the race. */
  ghost predicate LetsRace(judge: Judge, g: Block, pow: Pow, interval: nat)
    requires Racing(g, pow)
  {
    && LetsAll(judge, g, pow.retargetInterval - 2, interval)
    && forall x :: x in Race(g, pow, interval) ==> judge.pow(x) && judge.header(x).Accept? && judge.inputs(x)
  }

  ghost function Race(g: Block, pow: Pow, interval: nat): set<Block>
    requires Racing(g, pow)
  {
    {Slow1(g, pow, interval), Slow2(g, pow, interval), Slow3(g, pow, interval), Fast1(g, pow, interval), Fast2(g, pow, interval)}
  }

  /** Each block of a branch passes on top of the one below it. */
  lemma RacePasses(g: Block, pow: Pow, interval: nat, judge: Judge)
    requires Racing(g, pow) && LetsRace(judge, g, pow, interval)
    ensures forall x :: x in Race(g, pow, interval) ==>
      BodyPasses(x.txs) && x.prev.Some? && Passes(CoinsAt(x.prev.value, interval), x, interval, judge)
  {
    hide FromCompact, GetProof, Base, NextBits, CoinsAt, LetsAll, IdsBelow, Passes, BodyPasses;
    var w, p := pow.retargetInterval, Base(g, pow, interval);
    var s1, s2, s3 := Slow1(g, pow, interval), Slow2(g, pow, interval), Slow3(g, pow, interval);
    var f1, f2 := Fast1(g, pow, interval), Fast2(g, pow, interval);
    BaseIds(g, pow, interval);
    OnPasses(p, s1.time, s1.bits, w - 1, interval, judge);
    OnPasses(s1, s2.time, s2.bits, w, interval, judge);
    OnPasses(s2, s3.time, s3.bits, w + 1, interval, judge);
    OnPasses(p, f1.time, f1.bits, w - 1, interval, judge);
    OnPasses(f1, f2.time, f2.bits, w, interval, judge);
  }

  /** The slow branch is one block longer, and the fast one has more work. */
  lemma Shapes(g: Block, pow: Pow, interval: nat)
    requires Racing(g, pow)
    ensures var p := Base(g, pow, interval);
      var s1, s2, s3 := Slow1(g, pow, interval), Slow2(g, pow, interval), Slow3(g, pow, interval);
      var f1, f2 := Fast1(g, pow, interval), Fast2(g, pow, interval);
      && Height(s3) == Height(f2) + 1 && Height(p) + 3 == Height(s3) && Work(f1) < Work(s3) < Work(f2)
      && ForkOf(s3, f2) == p && IsAncestor(p, f1) && IsAncestor(p, f2) && IsAncestor(p, p) && p != f1 && p != f2
      && Proof(s1.bits) > 0 && Proof(s2.bits) > 0 && Proof(s3.bits) > 0
  {
    hide FromCompact, GetProof, Base, NextBits;
    Bits(g, pow, interval);
    var p := Base(g, pow, interval);
    var s1, s2, s3 := Slow1(g, pow, interval), Slow2(g, pow, interval), Slow3(g, pow, interval);
    var f1, f2 := Fast1(g, pow, interval), Fast2(g, pow, interval);
    assert ForkOf(s3, f2) == ForkOf(s2, f2) == ForkOf(s1, f2) == ForkOf(s1, f1) == ForkOf(p, f1) == p;
    assert Height(f1) == Height(p) + 1;
    assert Work(s3) == Proof(s3.bits) + Work(s2) && Work(s2) == Proof(s2.bits) + Work(s1) && Work(s1) == Proof(s1.bits) + Work(p);
    assert Work(f2) == Proof(f2.bits) + Work(f1) && Work(f1) == Proof(f1.bits) + Work(p);
  }

  /** Off the tip, a block with no more work is only stored. */
  lemma Beside(tip: Block, b: Block, interval: nat, judge: Judge)
    requires Work(b) <= Work(tip) && BodyPasses(b.txs) && judge.header(b).Accept?
    ensures ChaseOf(tip, b, map[], interval, judge) == Chase(tip, {b}, map[], {}, false)
  {}

  /** A branch that passes takes over once it has more work. */
  lemma Overtakes(tip: Block, b: Block, f: Block, interval: nat, judge: Judge)
    requires Work(b) > Work(tip) && BodyPasses(b.txs) && ForkOf(tip, b) == f
    requires b.prev.Some? && IsAncestor(f, b.prev.value) && IsAncestor(f, b) && BranchPasses(f, b, interval, judge)
    ensures ChaseOf(tip, b, map[], interval, judge) == Chase(b, {b}, map[], {}, false)
  {
    hide BranchPasses, BodyPasses, Settles, IsAncestor, ForkOf, Work;
    SettlesTop(f, b, interval, judge);
  }

  /** What becomes of the five blocks, the slow branch first. */
  lemma RaceIsWon(g: Block, pow: Pow, interval: nat, judge: Judge)
    requires Racing(g, pow) && LetsRace(judge, g, pow, interval)
    ensures var p := Base(g, pow, interval);
      var s1, s2, s3 := Slow1(g, pow, interval), Slow2(g, pow, interval), Slow3(g, pow, interval);
      var f1, f2 := Fast1(g, pow, interval), Fast2(g, pow, interval);
      && ChaseOf(p, s1, map[], interval, judge) == Chase(s1, {s1}, map[], {}, false)
      && ChaseOf(s1, s2, map[], interval, judge) == Chase(s2, {s2}, map[], {}, false)
      && ChaseOf(s2, s3, map[], interval, judge) == Chase(s3, {s3}, map[], {}, false)
      && ChaseOf(s3, f1, map[], interval, judge) == Chase(s3, {f1}, map[], {}, false)
      && ChaseOf(s3, f2, map[], interval, judge) == Chase(f2, {f2}, map[], {}, false)
  {
    hide FromCompact, GetProof, Base, NextBits, CoinsAt, Passes, BodyPasses, BranchPasses, IsAncestor, ForkOf, Work;
    hide ChaseOf, LetsAll;
    var p := Base(g, pow, interval);
    var s1, s2, s3 := Slow1(g, pow, interval), Slow2(g, pow, interval), Slow3(g, pow, interval);
    var f1, f2 := Fast1(g, pow, interval), Fast2(g, pow, interval);
    Shapes(g, pow, interval);
    RacePasses(g, pow, interval, judge);
    Extends(p, s1, interval, judge);
    Extends(s1, s2, interval, judge);
    Extends(s2, s3, interval, judge);
    Beside(s3, f1, interval, judge);
    PassesNone(p, interval, judge);
    PassesStep(p, f1, interval, judge);
    PassesStep(p, f2, interval, judge);
    Overtakes(s3, f2, p, interval, judge);
  }

  /** How the blocks lie. */
  lemma Layout(g: Block, pow: Pow, interval: nat)
    requires Racing(g, pow)
    ensures var p := Base(g, pow, interval);
      var s1, s2, s3 := Slow1(g, pow, interval), Slow2(g, pow, interval), Slow3(g, pow, interval);
      var f1, f2 := Fast1(g, pow, interval), Fast2(g, pow, interval);
      && s1.prev == f1.prev == Some(p) && s2.prev == Some(s1) && s3.prev == Some(s2) && f2.prev == Some(f1)
      && Height(s1) == Height(f1) == Height(p) + 1 && Height(s2) == Height(f2) == Height(p) + 2
      && Height(s3) == Height(p) + 3 && s1 != f1 && s2 != f2
  {
    hide FromCompact, GetProof, Base, NextBits;
  }

  /** The slow branch comes first and is the chain; the fast one, a block shorter, takes over. */
  method Run(g: Block, pow: Pow, interval: nat, judge: Judge) returns (chain: Chain)
    requires Racing(g, pow) && LetsRace(judge, g, pow, interval)
    ensures fresh(chain) && chain.Ready() && TreeOk(chain.db.db)
    ensures chain.tip == Fast2(g, pow, interval) && Slow3(g, pow, interval) in chain.db.db.blocks
    ensures Height(Slow3(g, pow, interval)) == Height(chain.tip) + 1 && Work(Slow3(g, pow, interval)) < Work(chain.tip)
  {
    hide ChainRecords.Consistent, TreeOk, ChaseOf, Proof, Detached, IsAncestor, Chain.Valid, Chain.Ready, Work, MainState;
    hide FromCompact, NextBits, Mined, LetsAll, Retarget.Sensible, Slow1, Slow2, Slow3, Fast1, Fast2;
    Layout(g, pow, interval);
    RaceIsWon(g, pow, interval, judge);
    Shapes(g, pow, interval);
    BaseIds(g, pow, interval);
    chain := Mine(g, pow.retargetInterval - 2, interval, judge);
    Feed(chain, Slow1(g, pow, interval), judge);
    Feed(chain, Slow2(g, pow, interval), judge);
    Feed(chain, Slow3(g, pow, interval), judge);
    Feed(chain, Fast1(g, pow, interval), judge);
    Feed(chain, Fast2(g, pow, interval), judge);
  }

  // ----- the headers

  lemma MtpAtMost(b: Block, x: nat)
    requires NoLater(LastTimes(Some(b), MEDIAN_TIMESPAN), x)
    ensures Mtp(b) <= x
  {
    hide NoLater, LastTimes, Sort, AtMost, Median;
    var s := LastTimes(Some(b), MEDIAN_TIMESPAN);
    AllAtMost(s, x);
    MedianAtMost(s, x);
  }

  lemma LaterBlock(p: Block, b: Block, x: nat, k: nat)
    requires b.prev == Some(p) && k > 0 && NoLater(LastTimes(Some(p), k - 1), x) && x <= b.time
    ensures NoLater(LastTimes(Some(b), k), b.time)
  {}

  /** No block below, of the last eleven, is later than the branches' own. */
  lemma RaceTimes(g: Block, pow: Pow, interval: nat)
    requires Racing(g, pow)
    ensures forall x :: x in Race(g, pow, interval) ==> x.prev.Some? && x.time > Mtp(x.prev.value)
  {
    hide FromCompact, GetProof, Base, NextBits, NoLater, LastTimes, Mtp, Mined;
    var w, p := pow.retargetInterval, Base(g, pow, interval);
    var s1, s2, s3 := Slow1(g, pow, interval), Slow2(g, pow, interval), Slow3(g, pow, interval);
    var f1, f2 := Fast1(g, pow, interval), Fast2(g, pow, interval);
    BaseIds(g, pow, interval);
    BaseTimes(g, pow, interval);
    LaterBlock(p, s1, p.time, 11);
    LaterBlock(p, s1, p.time, 10);
    LaterBlock(s1, s2, s1.time, 11);
    LaterBlock(p, f1, p.time, 11);
    MtpAtMost(p, p.time);
    MtpAtMost(s1, s1.time);
    MtpAtMost(s2, s2.time);
    MtpAtMost(f1, f1.time);
  }

  lemma BaseTimes(g: Block, pow: Pow, interval: nat)
    requires Racing(g, pow)
    ensures var p := Base(g, pow, interval); forall k :: 9 <= k <= 11 ==> NoLater(LastTimes(Some(p), k), p.time)
  {
    hide FromCompact, GetProof, NoLater, LastTimes, Mined;
    var n := pow.retargetInterval - 2;
    MinedShape(g, n, interval);
    TimesBelow(g, n, interval, 9);
    TimesBelow(g, n, interval, 10);
    TimesBelow(g, n, interval, 11);
  }

  /** Within the window, a block on the common part must keep the easiest bits. */
  lemma WithinWindow(p: Block, time: Word, pow: Pow)
    requires Retarget.Sensible(pow) && p.bits == pow.bits && LastEarnest(p, pow).bits == pow.bits
    requires (Height(p) + 1) % pow.retargetInterval != 0
    ensures 0 <= FromCompact(p.bits) && Demanded(time, p, pow) == pow.bits
  {
    hide FromCompact, LastEarnest;
  }

  /** At its end they are adjusted from its first block on. */
  lemma WindowEnds(p: Block, g: Block, time: Word, pow: Pow)
    requires Retarget.Sensible(pow) && p.bits == pow.bits && Ancestor(p, 0) == g
    requires Height(p) + 1 == pow.retargetInterval && pow.retargetInterval >= 2
    ensures 0 <= FromCompact(p.bits) && Demanded(time, p, pow) == NextBits(p, g, pow)
  {
    hide FromCompact, NextBits;
    OneOver(pow.retargetInterval);
  }

  /** After it, a block that comes at once must keep the new ones. */
  lemma AfterWindow(p: Block, pow: Pow)
    requires Retarget.Sensible(pow) && 0 <= FromCompact(p.bits) && Height(p) == pow.retargetInterval && p.time < 0xffff_ffff
    requires pow.targetSpacing > 0 && pow.retargetInterval >= 2
    ensures Demanded(p.time + 1, p, pow) == p.bits
  {
    hide FromCompact, NextBits;
    OneOver(pow.retargetInterval);
    InEarnest(p, pow);
  }

  /** All five carry the bits demanded. */
  lemma RaceBits(g: Block, pow: Pow, interval: nat)
    requires Racing(g, pow)
    ensures forall x :: x in Race(g, pow, interval) ==>
      x.prev.Some? && 0 <= FromCompact(x.prev.value.bits) && x.bits == Demanded(x.time, x.prev.value, pow)
  {
    hide FromCompact, GetProof, NextBits, LastEarnest, Mined, Demanded;
    var w, p := pow.retargetInterval, Base(g, pow, interval);
    var s1, s2, f1 := Slow1(g, pow, interval), Slow2(g, pow, interval), Fast1(g, pow, interval);
    BaseIds(g, pow, interval);
    EarnestOfMined(g, w - 2, interval, pow);
    SmallRemainder(w - 1, w);
    FirstIsGenesis(g, pow, interval);
    PositiveBits(g, pow, interval);
    WithinWindow(p, s1.time, pow);
    WithinWindow(p, f1.time, pow);
    WindowEnds(s1, g, s2.time, pow);
    WindowEnds(f1, g, f1.time + 1, pow);
    AfterWindow(s2, pow);
  }

  lemma OneOver(w: nat)
    requires w >= 2
    ensures w % w == 0 && (w + 1) % w == 1
  {
    RemainderUnique(w, w, 1, 0);
    RemainderUnique(w + 1, w, 1, 1);
  }

  lemma InEarnest(b: Block, pow: Pow)
    requires pow.retargetInterval > 0 && Height(b) % pow.retargetInterval == 0
    ensures LastEarnest(b, pow) == b
  {}

  lemma FirstIsGenesis(g: Block, pow: Pow, interval: nat)
    requires Racing(g, pow)
    ensures var s, f := Slow1(g, pow, interval), Fast1(g, pow, interval);
      Height(s) == Height(f) == pow.retargetInterval - 1 && Ancestor(s, 0) == Ancestor(f, 0) == g
  {
    hide FromCompact, GetProof, Mined;
    BaseIds(g, pow, interval);
    var p := Base(g, pow, interval);
    GenesisBelow(g, pow.retargetInterval - 2, interval);
    AncestorHeight(g, p);
    AncestorHeight(g, Slow1(g, pow, interval));
    AncestorHeight(g, Fast1(g, pow, interval));
  }

  lemma {:induction false} GenesisBelow(g: Block, n: nat, interval: nat)
    requires g.time + n < 0x1_0000_0000
    ensures IsAncestor(g, Mined(g, n, interval))
  {
    if n > 0 { GenesisBelow(g, n - 1, interval); }
  }

  lemma PositiveBits(g: Block, pow: Pow, interval: nat)
    requires Racing(g, pow)
    ensures 0 <= FromCompact(Slow2(g, pow, interval).bits)
  {
    hide FromCompact, GetProof, Base, NextBits;
    OnPlanStays(Slow1(g, pow, interval), g, pow);
  }

  /** So the checks of bits and time have nothing against the race either. */
  lemma RulesLetRace(g: Block, pow: Pow, interval: nat, judge: Judge, now: int)
    requires Racing(g, pow) && LetsRace(judge, g, pow, interval) && g.time + pow.targetTimespan + 2 <= now + MAX_AHEAD
    ensures LetsRace(WithRules(judge, now, pow), g, pow, interval)
  {
    hide FromCompact, GetProof, Base, NextBits, Mtp, Demanded, LetsAll, Retarget.Sensible;
    RaceTimes(g, pow, interval);
    RaceBits(g, pow, interval);
    BaseIds(g, pow, interval);
    RulesLetAll(g, pow.retargetInterval - 2, interval, judge, now, pow);
    forall x | x in Race(g, pow, interval) ensures WithRules(judge, now, pow).header(x).Accept? {
      assert Follows(x, pow) && x.time <= now + MAX_AHEAD && judge.header(x).Accept?;
    }
  }

  /** On the main network there is such a race. */
  lemma MainRaces(g: Block)
    requires g.prev.None? && g.bits == 486604799 && g.time < 0x8000_0000
    ensures Racing(g, Pow(Pow2(224) - 1, 486604799, 14 * 24 * 60 * 60, 10 * 60, 2016, false, false))
  {
    hide FromCompact, GetProof, Pow2;
    MainLimit();
    EasiestBits();
    Pow208();
  }
}
