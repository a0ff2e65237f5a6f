/** A chain on which every block pays its coinbase the full subsidy, and what becomes of its records. */
module Mining {
  import opened Primitives
  import opened Ledger
  import opened Totals
  import opened Replay
  import opened Consensus
  import opened Compact
  import opened MedianTime
  import opened Retarget
  import opened ChainRecords
  import opened CoinRecords
  import opened UndoRecords
  import opened StateRecord
  import opened Sanity
  import opened Orphans
  import opened Forks
  import opened Outcomes
  import opened ChainStore
  import opened Chain
  import opened HeaderRules
  import opened Witness

  /** The chain of `n` blocks on `g`, one a second. */
  function Mined(g: Block, n: nat, interval: nat): Block
    requires g.time + n < 0x1_0000_0000
  {
    if n == 0 then g
    else Block(Some(Mined(g, n - 1, interval)), g.time + n, g.bits, 4, 0, Body(n, GetReward(n, interval)))
  }

  lemma {:induction false} MinedShape(g: Block, n: nat, interval: nat)
    requires g.prev.None? && g.time + n < 0x1_0000_0000
    ensures var b := Mined(g, n, interval);
      Height(b) == n && b.time == g.time + n && b.bits == g.bits && (b.prev.None? <==> n == 0)
  {
    if n > 0 { MinedShape(g, n - 1, interval); }
  }

  // ----- the headers

  predicate NoLater(s: seq<nat>, x: nat) {
    forall i :: 0 <= i < |s| ==> s[i] <= x
  }

  lemma {:induction false} TimesBelow(g: Block, n: nat, interval: nat, k: nat)
    requires g.prev.None? && g.time + n < 0x1_0000_0000
    ensures NoLater(LastTimes(Some(Mined(g, n, interval)), k), g.time + n)
    decreases n
  {
    MinedShape(g, n, interval);
    var b := Mined(g, n, interval);
    if k > 0 {
      if n > 0 { TimesBelow(g, n - 1, interval, k - 1); }
      assert LastTimes(Some(b), k) == [b.time] + LastTimes(b.prev, k - 1);
    }
  }

  lemma {:induction false} AllAtMost(s: seq<nat>, x: nat)
    requires NoLater(s, x)
    ensures AtMost(s, x) == |s|
  {
    if s != [] { AllAtMost(s[1..], x); }
  }

  lemma MedianOfMined(g: Block, n: nat, interval: nat)
    requires g.prev.None? && g.time + n < 0x1_0000_0000
    ensures Mtp(Mined(g, n, interval)) <= g.time + n
  {
    hide NoLater, LastTimes, Sort, AtMost, Mined, Median;
    var s := LastTimes(Some(Mined(g, n, interval)), MEDIAN_TIMESPAN);
    TimesBelow(g, n, interval, MEDIAN_TIMESPAN);
    AllAtMost(s, g.time + n);
    MedianAtMost(s, g.time + n);
  }

  lemma {:induction false} EarnestOfMined(g: Block, n: nat, interval: nat, pow: Pow)
    requires g.prev.None? && g.time + n < 0x1_0000_0000 && pow.retargetInterval > 0
    ensures LastEarnest(Mined(g, n, interval), pow).bits == g.bits
  {
    MinedShape(g, n, interval);
    if n > 0 { EarnestOfMined(g, n - 1, interval, pow); }
  }

  /** Its blocks carry the bits and times demanded, as long as there is no retarget. */
  lemma {:induction false} MinedFollows(g: Block, n: nat, interval: nat, pow: Pow)
    requires g.prev.None? && g.time + n < 0x1_0000_0000
    requires Retarget.Sensible(pow) && g.bits == pow.bits && (n < pow.retargetInterval || pow.noRetargeting)
    ensures TimesOk(Mined(g, n, interval)) && BitsOk(Mined(g, n, interval), pow)
  {
    hide FromCompact, Mtp, LastEarnest, Mined, Scaled, ToCompact, Clamped;
    MinedShape(g, n, interval);
    if n > 0 {
      var p := Mined(g, n - 1, interval);
      MinedFollows(g, n - 1, interval, pow);
      MinedShape(g, n - 1, interval);
      MinedStep(g, n, interval);
      MedianOfMined(g, n - 1, interval);
      EarnestOfMined(g, n - 1, interval, pow);
      if n < pow.retargetInterval { SmallRemainder(n, pow.retargetInterval); }
      assert Demanded(g.time + n, p, pow) == pow.bits;
    }
  }

  // ----- the coins

  /** The coins are the `n` coinbases, each worth the subsidy of its height. */
  predicate Coinbases(coins: Coins, n: nat, interval: nat) {
    && (forall op :: op in coins ==> op.Outpoint? && 1 <= op.hash <= n && op.index == 0)
    && forall i :: 1 <= i <= n ==>
      Outpoint(i, 0) in coins && coins[Outpoint(i, 0)] == Coin(1, i, true, Spendable(GetReward(i, interval), None))
  }

  /** What the coinbase of height `n` becomes. */
  function Paid(n: nat, interval: nat): Coin {
    Coin(1, n, true, Spendable(GetReward(n, interval), None))
  }

  lemma OneMore(coins: Coins, n: nat, interval: nat)
    requires n > 0 && Coinbases(coins, n - 1, interval)
    ensures Outpoint(n, 0) !in coins && Fresh(coins, n)
    ensures Coinbases(coins[Outpoint(n, 0) := Paid(n, interval)], n, interval)
  {
    hide GetReward;
  }

  lemma MinedConnects(g: Block, n: nat, interval: nat)
    requires n > 0 && g.prev.None? && g.time + n < 0x1_0000_0000
    requires Coinbases(CoinsAt(Mined(g, n - 1, interval), interval), n - 1, interval)
    ensures var b := Mined(g, n, interval);
      && Connectable(b, interval)
      && CoinsAt(b, interval) == CoinsAt(b.prev.value, interval)[Outpoint(n, 0) := Paid(n, interval)]
  {
    hide GetReward, BodyOk;
    var b := Mined(g, n, interval);
    var coins := CoinsAt(b.prev.value, interval);
    MinedShape(g, n, interval);
    OneMore(coins, n, interval);
    BodyConnects(coins, b, n, GetReward(n, interval), interval);
    SubsidyInRange(n, interval);
    BodyIsSound(n, GetReward(n, interval));
  }

  lemma MinedStep(g: Block, n: nat, interval: nat)
    requires n > 0 && g.time + n < 0x1_0000_0000
    ensures var b := Mined(g, n, interval);
      && b.prev == Some(Mined(g, n - 1, interval)) && |b.txs| == 1
      && b.time == g.time + n && b.bits == g.bits
  {
    hide GetReward;
  }

  lemma ChainStep(b: Block, interval: nat)
    requires b.prev.Some? && ValidChain(b.prev.value, interval) && Connectable(b, interval)
    ensures ValidChain(b, interval) && TxCountAt(b) == |b.txs| + TxCountAt(b.prev.value)
  {
    hide Connectable;
  }

  /** The chain is valid, and nothing of its subsidies is lost. */
  lemma {:induction false} MinedCoins(g: Block, n: nat, interval: nat)
    requires g.prev.None? && g.time + n < 0x1_0000_0000
    ensures var b := Mined(g, n, interval);
      && ValidChain(b, interval) && Coinbases(CoinsAt(b, interval), n, interval)
      && |CoinsAt(b, interval).Keys| == n && TxCountAt(b) == |g.txs| + n
      && TotalValue(CoinsAt(b, interval)) == SubsidyUpTo(n, interval)
    decreases n, 1
  {
    if n > 0 {
      hide *;
      MinedMore(g, n, interval);
    } else {
      NoValue();
    }
  }

  lemma {:induction false} MinedMore(g: Block, n: nat, interval: nat)
    requires n > 0 && g.prev.None? && g.time + n < 0x1_0000_0000
    ensures var b := Mined(g, n, interval);
      && ValidChain(b, interval) && Coinbases(CoinsAt(b, interval), n, interval)
      && |CoinsAt(b, interval).Keys| == n && TxCountAt(b) == |g.txs| + n
      && TotalValue(CoinsAt(b, interval)) == SubsidyUpTo(n, interval)
    decreases n, 0
  {
    hide GetReward, Connectable, TotalValue, CoinsAt, Coinbases, ValidChain, TxCountAt, Mined;
    var coins := CoinsAt(Mined(g, n - 1, interval), interval);
    MinedCoins(g, n - 1, interval);
    MinedStep(g, n, interval);
    MinedConnects(g, n, interval);
    ChainStep(Mined(g, n, interval), interval);
    OneMore(coins, n, interval);
    TotalValueWith(coins, Outpoint(n, 0), Paid(n, interval));
  }

  lemma NoValue()
    ensures TotalValue(map[]) == 0
  {}

  lemma SubsidyInRange(n: nat, interval: nat)
    ensures InRange(GetReward(n, interval))
  {}

  // ----- the totals record

  lemma {:induction false} SubsidyGrows(m: nat, n: nat, interval: nat)
    requires m <= n
    ensures SubsidyUpTo(m, interval) <= SubsidyUpTo(n, interval)
  {
    if m < n { SubsidyGrows(m, n - 1, interval); }
  }

  lemma FullSubsidy(n: nat, interval: nat)
    requires n < if interval == 0 then BASE_REWARD_INTERVAL else interval
    ensures GetReward(n, interval) == BASE_REWARD
  {
    hide ShiftRight32;
    assert Halvings(n, interval) == 0;
  }

  lemma {:induction false} FirstEra(n: nat, interval: nat)
    requires n < if interval == 0 then BASE_REWARD_INTERVAL else interval
    ensures SubsidyUpTo(n, interval) == n * BASE_REWARD
  {
    hide GetReward;
    if n > 0 {
      FirstEra(n - 1, interval);
      FullSubsidy(n, interval);
    }
  }

  /** The subsidies stay below 2^53 up to height 175 and no further, with eras longer than that. */
  lemma SafeHeights(n: nat, interval: nat)
    requires interval == 0 || interval > 176
    ensures SubsidyUpTo(n, interval) < SAFE <==> n <= 175
  {
    FirstEra(175, interval);
    FirstEra(176, interval);
    if n <= 175 { SubsidyGrows(n, 175, interval); } else { SubsidyGrows(176, n, interval); }
  }

  /** On this chain the totals can be read back exactly as long as the subsidies so far are below 2^53. */
  lemma TotalsSurvive(g: Block, n: nat, interval: nat, hash: seq<Byte>)
    requires g.prev.None? && g.time + n < 0x1_0000_0000 && |g.txs| < 0x1_0000_0000 && |hash| == 32
    ensures var s := MainState(Mined(g, n, interval), interval);
      && s.tx >= 0 && s.value >= 0
      && var e := StateEntry(hash, s.tx, s.coin, s.value);
      GetState(PutState(e)) == Got(e, []) <==> SubsidyUpTo(n, interval) < SAFE
    ensures interval == 0 || interval > 176 ==> (SubsidyUpTo(n, interval) < SAFE <==> n <= 175)
  {
    hide GetState, PutState, CoinsAt, TxCountAt, TotalValue, ValidChain, Coinbases;
    MinedCoins(g, n, interval);
    SubsidyGrows(0, n, interval);
    var s := MainState(Mined(g, n, interval), interval);
    StateRoundTrip(StateEntry(hash, s.tx, s.coin, s.value));
    if interval == 0 || interval > 176 { SafeHeights(n, interval); }
  }

  // ----- the run

  /** The checks not spelled out have nothing against the first `n` blocks. */
  ghost predicate LetsAll(judge: Judge, g: Block, n: nat, interval: nat)
    requires g.time + n < 0x1_0000_0000
  {
    forall k {:trigger Mined(g, k, interval)} :: 1 <= k <= n ==>
      var b := Mined(g, k, interval); judge.pow(b) && judge.header(b).Accept? && judge.inputs(b)
  }

  lemma MinedPasses(g: Block, n: nat, interval: nat, judge: Judge)
    requires n > 0 && g.prev.None? && g.time + n < 0x1_0000_0000 && LetsAll(judge, g, n, interval)
    ensures var b := Mined(g, n, interval);
      BodyPasses(b.txs) && Passes(CoinsAt(b.prev.value, interval), b, interval, judge)
  {
    hide GetReward, BodyPasses;
    MinedCoins(g, n - 1, interval);
    MinedConnects(g, n, interval);
    SubsidyInRange(n, interval);
    BodyIsSound(n, GetReward(n, interval));
  }

  /** The checks of bits and time change nothing about that. */
  lemma RulesLetAll(g: Block, n: nat, interval: nat, judge: Judge, now: int, pow: Pow)
    requires g.prev.None? && g.time + n < 0x1_0000_0000 && g.time + n <= now + MAX_AHEAD
    requires LetsAll(judge, g, n, interval)
    requires Retarget.Sensible(pow) && g.bits == pow.bits && (n < pow.retargetInterval || pow.noRetargeting)
    ensures LetsAll(WithRules(judge, now, pow), g, n, interval)
  {
    hide Mined, Mtp, FromCompact, Demanded;
    forall k {:trigger Mined(g, k, interval)} | 1 <= k <= n
      ensures Follows(Mined(g, k, interval), pow) && Mined(g, k, interval).time <= now + MAX_AHEAD
    {
      MinedStep(g, k, interval);
      MinedFollows(g, k, interval, pow);
    }
  }

  /** A block that passes on top of the tip becomes the tip. */
  lemma Extends(p: Block, b: Block, interval: nat, judge: Judge)
    requires b.prev == Some(p) && BodyPasses(b.txs) && Passes(CoinsAt(p, interval), b, interval, judge)
    requires Proof(b.bits) > 0
    ensures ChaseOf(p, b, map[], interval, judge) == Chase(b, {b}, map[], {}, false)
  {
    hide Passes, BranchPasses, CoinsAt, Proof, BodyPasses, Settles, Condemns, IsAncestor, ForkOf;
    ExtendingFork(p, b);
    PassesNone(p, interval, judge);
    Under(p, p, b);
    PassesStep(p, b, interval, judge);
    SettlesTop(p, b, interval, judge);
  }

  /** Each block in turn becomes the tip. */
  lemma MinedNext(g: Block, n: nat, interval: nat, judge: Judge)
    requires n > 0 && g.prev.None? && g.time + n < 0x1_0000_0000 && LetsAll(judge, g, n, interval) && Proof(g.bits) > 0
    ensures var p, b := Mined(g, n - 1, interval), Mined(g, n, interval);
      ChaseOf(p, b, map[], interval, judge) == Chase(b, {b}, map[], {}, false)
  {
    hide Passes, CoinsAt, Proof, BodyPasses, LetsAll, Mined, ChaseOf;
    MinedPasses(g, n, interval, judge);
    MinedStep(g, n, interval);
    Extends(Mined(g, n - 1, interval), Mined(g, n, interval), interval, judge);
  }

  /** The chain grows block by block, from a new database on. */
  method Mine(g: Block, n: nat, interval: nat, judge: Judge) returns (chain: Chain)
    requires g.prev.None? && g.time + n < 0x1_0000_0000 && LetsAll(judge, g, n, interval) && Proof(g.bits) > 0
    ensures fresh(chain) && chain.Ready() && chain.tip == Mined(g, n, interval)
    ensures chain.db.state == MainState(Mined(g, n, interval), interval)
    ensures fresh(chain.db) && fresh(chain.orphans) && chain.db.interval == interval && TreeOk(chain.db.db)
    ensures chain.orphans.byPrev == map[] && chain.invalid == {}
    ensures chain.tip in chain.db.db.blocks && forall x :: x in chain.db.db.blocks ==> Height(x) <= n
  {
    hide ChainRecords.Consistent, TreeOk, ChaseOf, Proof, Detached, MainState, Chain.Ready, Chain.Valid, LetsAll;
    var db := new ChainDB(g, interval);
    chain := new Chain(db, 10);
    for k := 0 to n
      invariant fresh(chain) && fresh(chain.db) && fresh(chain.orphans) && chain.db.interval == interval
      invariant chain.Ready() && TreeOk(chain.db.db) && chain.orphans.byPrev == map[] && chain.invalid == {}
      invariant chain.tip == Mined(g, k, interval) && chain.tip in chain.db.db.blocks
      invariant forall x :: x in chain.db.db.blocks ==> Height(x) <= k
    {
      LetsFewer(judge, g, n, k + 1, interval);
      MinedShape(g, k + 1, interval);
      MinedNext(g, k + 1, interval, judge);
      Feed(chain, Mined(g, k + 1, interval), judge);
    }
    StateOfTip(chain);
  }

  lemma LetsFewer(judge: Judge, g: Block, n: nat, k: nat, interval: nat)
    requires 1 <= k <= n && g.time + n < 0x1_0000_0000 && LetsAll(judge, g, n, interval)
    ensures LetsAll(judge, g, k, interval) && judge.pow(Mined(g, k, interval))
  {}

  lemma StateOfTip(chain: Chain)
    requires chain.Ready()
    ensures chain.db.state == MainState(chain.tip, chain.db.interval)
  {
    CoversTip(chain.db.db, chain.db.genesis, chain.db.interval);
  }
}
