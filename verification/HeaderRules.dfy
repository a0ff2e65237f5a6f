/** What the header checks leave true of every block a node ever stores (src/blockchain/chain.js). */
module HeaderRules {
  import opened Primitives
  import opened MedianTime
  import opened SequenceLocks
  import opened Retarget
  import opened Compact
  import opened ChainRecords
  import opened ChainStore
  import opened Outcomes
  import opened Chain

  /** The timestamp and difficulty checks of one block. */
  predicate Follows(b: Block, pow: Pow)
    requires Retarget.Sensible(pow)
  {
    && b.prev.Some? && b.time > Mtp(b.prev.value)
    && (0 <= FromCompact(b.prev.value.bits) ==> b.bits == Demanded(b.time, b.prev.value, pow))
  }

  const MAX_AHEAD: int := 2 * 60 * 60

  /** The checks as they come: wrong bits and times too old are the block's fault, a time too far ahead
      may pass later. */
  method VerifyHeader(b: Block, now: int, pow: Pow) returns (v: Verdict)
    requires Retarget.Sensible(pow) && b.prev.Some? && 0 <= FromCompact(b.prev.value.bits)
    ensures v.Accept? <==> Follows(b, pow) && b.time <= now + MAX_AHEAD
    ensures v.Reject? ==> (v.malleated <==> Follows(b, pow))
  {
    hide Mtp, Demanded, FromCompact;
    var bits := GetTarget(b.time, b.prev.value, pow);
    if b.bits != bits {
      return Reject(false);
    }
    var mtp := GetMedianTime(b.prev.value, None);
    if b.time <= mtp {
      return Reject(false);
    }
    if b.time > now + MAX_AHEAD {
      return Reject(true);
    }
    return Accept;
  }

  /** The checks of `judge` with these in front. */
  function WithRules(judge: Judge, now: int, pow: Pow): Judge
    requires Retarget.Sensible(pow)
  {
    judge.(header := (b: Block) =>
      if b.prev.Some? && !Follows(b, pow) then Reject(false)
      else if b.prev.Some? && b.time > now + MAX_AHEAD then Reject(true)
      else judge.header(b))
  }

  lemma RulesInFront(judge: Judge, now: int, pow: Pow)
    requires Retarget.Sensible(pow)
    ensures Strict(WithRules(judge, now, pow), pow)
  {
    hide Follows;
  }

  /** Header checks that include these two. */
  ghost predicate Strict(judge: Judge, pow: Pow)
    requires Retarget.Sensible(pow)
  {
    forall b {:trigger judge.header(b)} :: judge.header(b).Accept? && b.prev.Some? ==> Follows(b, pow)
  }

  /** Every block of the set carries times and bits that follow from its ancestors. */
  ghost predicate Ruled(stored: set<Block>, pow: Pow)
    requires Retarget.Sensible(pow)
  {
    forall b {:trigger TimesOk(b)} :: b in stored ==> TimesOk(b) && BitsOk(b, pow)
  }

  /** Whatever blocks are added, orphans and blocks off the main chain included, all that is stored
      follows the rules. */
  lemma RulesAreKept(before: set<Block>, now: set<Block>, judge: Judge, pow: Pow)
    requires Retarget.Sensible(pow) && Strict(judge, pow) && Ruled(before, pow) && Vetted(before, now, judge)
    ensures Ruled(now, pow)
  {
    forall b | b in now ensures TimesOk(b) && BitsOk(b, pow) {
      BlockFollows(before, now, judge, pow, b);
    }
  }

  lemma {:induction false} BlockFollows(before: set<Block>, now: set<Block>, judge: Judge, pow: Pow, b: Block)
    requires Retarget.Sensible(pow) && Strict(judge, pow) && Ruled(before, pow) && Vetted(before, now, judge)
    requires b in now
    ensures TimesOk(b) && BitsOk(b, pow)
    decreases Height(b)
  {
    hide Mtp, FromCompact, Demanded;
    if b in before {
      assert TimesOk(b);
    } else {
      var p := b.prev.value;
      BlockFollows(before, now, judge, pow, p);
      TargetsWithinLimit(p, pow);
      assert Follows(b, pow) by { assert judge.header(b).Accept?; }
    }
  }

  /** A new database follows the rules when its genesis block carries the easiest target. */
  lemma GenesisRuled(genesis: Block, pow: Pow)
    requires Retarget.Sensible(pow) && genesis.prev.None? && genesis.bits == pow.bits
    ensures Ruled({genesis}, pow)
  {}

  lemma RuledStill(before: set<Block>, now: set<Block>, pow: Pow)
    requires Retarget.Sensible(pow) && Ruled(before, pow) && now <= before
    ensures Ruled(now, pow)
  {}

  /** What can be asked of a chain: to take a block, with what the checks not spelled out say at that
      moment, or to go back. */
  datatype Call = Receive(block: Block, now: int, judge: Judge) | GoBack(target: Block)

  /** Whatever a chain is asked, from genesis on and in whatever order, and whatever the other checks
      answer, it stays in order and all it stores follows the rules. */
  method Run(genesis: Block, interval: nat, maxOrphans: nat, calls: seq<Call>, pow: Pow) returns (chain: Chain)
    requires Retarget.Sensible(pow) && genesis.prev.None? && genesis.bits == pow.bits
    ensures fresh(chain) && chain.Ready() && chain.db.genesis == genesis && Ruled(chain.db.db.blocks, pow)
  {
    hide ChainRecords.Consistent, Ruled, Strict, Vetted, WithRules, Chain.Ready, Chain.Valid, TreeOk, BestTip;
    GenesisRuled(genesis, pow);
    var db := new ChainDB(genesis, interval);
    chain := new Chain(db, maxOrphans);
    for i := 0 to |calls|
      invariant fresh(chain) && fresh(chain.db) && fresh(chain.orphans) && chain.Ready() && chain.db.genesis == genesis
      invariant Ruled(chain.db.db.blocks, pow)
    {
      ghost var before := chain.db.db.blocks;
      match calls[i] {
        case Receive(b, now, judge) =>
          RulesInFront(judge, now, pow);
          var added := chain.Add(b, now, WithRules(judge, now, pow));
          RulesAreKept(before, chain.db.db.blocks, WithRules(judge, now, pow), pow);
        case GoBack(target) =>
          var ok := chain.Reset(target);
          RuledStill(before, chain.db.db.blocks, pow);
      }
    }
  }

  /** So on every stored chain the median time past never falls, no target is easier than the limit,
      and a relative lock that has passed stays passed. */
  lemma StoredChains(stored: set<Block>, pow: Pow, a: Block, b: Block, input: Input, coinHeight: int)
    requires Retarget.Sensible(pow) && Ruled(stored, pow) && b in stored && IsAncestor(a, b)
    ensures Mtp(a) <= Mtp(b) && 0 <= FromCompact(b.bits) <= pow.limit && Height(a) <= Height(b)
    ensures 0 <= coinHeight <= Height(a) + 1 && Matured(a, input, coinHeight) ==> Matured(b, input, coinHeight)
  {
    hide Mtp, FromCompact, Matured;
    assert TimesOk(b);
    AncestorHeight(a, b);
    MtpNeverFalls(a, b);
    TargetsWithinLimit(b, pow);
    if 0 <= coinHeight <= Height(a) + 1 && Matured(a, input, coinHeight) {
      MaturedStays(a, b, input, coinHeight);
    }
  }

  /** And with it a transaction whose relative locks have passed. */
  lemma StoredLocks(stored: set<Block>, pow: Pow, a: Block, b: Block, tx: Tx, heights: Heights, tipThen: nat,
      tipNow: nat, verify: bool)
    requires Retarget.Sensible(pow) && Ruled(stored, pow) && b in stored && IsAncestor(a, b)
    requires Known(a, tx, heights, tipThen)
    requires AllConfirmed(tx, heights) || (tipThen == Height(a) && tipNow == Height(b))
    requires LocksPass(a, tx, heights, tipThen, verify)
    ensures Known(b, tx, heights, tipNow) && LocksPass(b, tx, heights, tipNow, verify)
  {
    hide LocksPass, Known, AllConfirmed, BitsOk;
    assert TimesOk(b);
    LocksStay(a, b, tx, heights, tipThen, tipNow, verify);
  }
}
