/** What becomes of blocks handed to the chain, as functions of the blocks and the tip: whether a branch
    passes, where the tip settles, what is marked invalid, and how waiting orphans follow. The class in
    `Chain` is proved against it. */
module Outcomes {
  import opened Primitives
  import opened Ledger
  import opened Replay
  import opened ChainRecords
  import opened Forks
  import opened Orphans
  import opened Sanity

  /** `Reject` carries whether the fault could be in the copy received rather than in the block. */
  datatype Verdict = Accept | Reject(malleated: bool)

  /** The checks this model does not spell out: proof of work, header and deployment rules, and the
      locks, sigop and script rules on inputs. They may answer differently at different calls. */
  datatype Judge = Judge(pow: Block -> bool, header: Block -> Verdict, inputs: Block -> bool)

  datatype Result = Ok | Invalid | Broken

  /** What became of a block handed to the chain. */
  datatype Added = Duplicate | HighHash | Held | Linked(result: Result)

  /** `b` passes every check when its parent's coins are `coins`. */
  predicate Passes(coins: Coins, b: Block, interval: nat, judge: Judge) {
    && judge.header(b).Accept?
    && FreshBlock(coins, b.txs)
    && Ledger.ConnectBlock(coins, b, interval).Some?
    && judge.inputs(b)
  }

  /** Every block above `fork` up to `b` passes in its own context. */
  ghost predicate BranchPasses(fork: Block, b: Block, interval: nat, judge: Judge)
    requires IsAncestor(fork, b)
  {
    b == fork || (BranchPasses(fork, b.prev.value, interval, judge) && Passes(CoinsAt(b.prev.value, interval), b, interval, judge))
  }

  lemma {:induction false} BranchPrefix(fork: Block, mid: Block, b: Block, interval: nat, judge: Judge)
    requires IsAncestor(fork, mid) && IsAncestor(mid, b) && IsAncestor(fork, b)
    requires BranchPasses(fork, b, interval, judge)
    ensures BranchPasses(fork, mid, interval, judge)
  {
    if mid != b {
      AncestorHeight(mid, b.prev.value);
      AncestorHeight(fork, mid);
      AncestorTrans(fork, mid, b.prev.value);
      BranchPrefix(fork, mid, b.prev.value, interval, judge);
    }
  }

  lemma PassesNone(fork: Block, interval: nat, judge: Judge)
    ensures IsAncestor(fork, fork) && BranchPasses(fork, fork, interval, judge)
  {}

  lemma PassesStep(fork: Block, b: Block, interval: nat, judge: Judge)
    requires IsAncestor(fork, b) && fork != b && b.prev.Some? && IsAncestor(fork, b.prev.value)
    ensures BranchPasses(fork, b, interval, judge)
      <==> BranchPasses(fork, b.prev.value, interval, judge) && Passes(CoinsAt(b.prev.value, interval), b, interval, judge)
  {}

  lemma ExtendingFork(tip: Block, b: Block)
    requires b.prev == Some(tip)
    ensures ForkOf(tip, b) == tip
  {}

  lemma BranchFails(fork: Block, mid: Block, b: Block, interval: nat, judge: Judge)
    requires IsAncestor(fork, mid) && fork != mid && IsAncestor(mid, b) && IsAncestor(fork, b)
    requires mid.prev.Some? && IsAncestor(fork, mid.prev.value)
    requires !Passes(CoinsAt(mid.prev.value, interval), mid, interval, judge)
    ensures !BranchPasses(fork, b, interval, judge)
  {
    if BranchPasses(fork, b, interval, judge) {
      BranchPrefix(fork, mid, b, interval, judge);
    }
  }

  /** The highest block on the way from `fork` up to `b` that every block up to it lets stand. */
  ghost function LastGood(fork: Block, b: Block, interval: nat, judge: Judge): Block
    requires IsAncestor(fork, b)
  {
    if BranchPasses(fork, b, interval, judge) then b else LastGood(fork, b.prev.value, interval, judge)
  }

  lemma {:induction false} LastGoodOnBranch(fork: Block, b: Block, interval: nat, judge: Judge)
    requires IsAncestor(fork, b)
    ensures var r := LastGood(fork, b, interval, judge);
      IsAncestor(fork, r) && IsAncestor(r, b) && BranchPasses(fork, r, interval, judge)
  {
    if !BranchPasses(fork, b, interval, judge) { LastGoodOnBranch(fork, b.prev.value, interval, judge); }
  }

  /** What is marked invalid when `b` fails: nothing when the fault could be in the copy received. */
  function Blame(b: Block, judge: Judge): set<Block> {
    if judge.header(b).Reject? && judge.header(b).malleated then {} else {b}
  }

  /** What is marked invalid on the way from `fork` up to `b`: the first block that fails. */
  ghost function BranchBlame(fork: Block, b: Block, interval: nat, judge: Judge): set<Block>
    requires IsAncestor(fork, b)
  {
    if BranchPasses(fork, b, interval, judge) then {}
    else if BranchPasses(fork, b.prev.value, interval, judge) then Blame(b, judge)
    else BranchBlame(fork, b.prev.value, interval, judge)
  }

  /** When `c`, right above `mid`, is the first to fail, `mid` is the last good block. */
  lemma {:induction false} LastGoodIs(fork: Block, mid: Block, c: Block, b: Block, interval: nat, judge: Judge)
    requires c.prev == Some(mid) && IsAncestor(fork, mid) && fork != c && IsAncestor(fork, c)
    requires IsAncestor(c, b) && IsAncestor(fork, b)
    requires BranchPasses(fork, mid, interval, judge) && !Passes(CoinsAt(mid, interval), c, interval, judge)
    ensures LastGood(fork, b, interval, judge) == mid && !BranchPasses(fork, b, interval, judge)
    ensures BranchBlame(fork, b, interval, judge) == Blame(c, judge)
  {
    BranchFails(fork, c, b, interval, judge);
    if c != b {
      AncestorHeight(c, b.prev.value);
      AncestorHeight(fork, mid);
      LastGoodIs(fork, mid, c, b.prev.value, interval, judge);
    }
  }

  lemma NotItself(fork: Block, b: Block, interval: nat, judge: Judge)
    requires b.prev.Some? && IsAncestor(fork, b.prev.value) && IsAncestor(fork, b)
    requires !BodyPasses(b.txs) || !BranchPasses(fork, b, interval, judge)
    ensures Settles(fork, b, interval, judge) != b
  {
    LastGoodOnBranch(fork, b.prev.value, interval, judge);
    AncestorHeight(LastGood(fork, b.prev.value, interval, judge), b.prev.value);
  }

  lemma CondemnsNothing(fork: Block, b: Block, interval: nat, judge: Judge)
    requires b.prev.Some? && IsAncestor(fork, b.prev.value) && IsAncestor(fork, b)
    requires BranchPasses(fork, b, interval, judge)
    ensures Condemns(fork, b, interval, judge) == {}
  {}

  lemma AllGood(fork: Block, b: Block, interval: nat, judge: Judge)
    requires IsAncestor(fork, b) && BranchPasses(fork, b, interval, judge)
    ensures LastGood(fork, b, interval, judge) == b && BranchBlame(fork, b, interval, judge) == {}
  {}

  /** Where the tip ends up when `b`, the new best block, is put on a chain that leaves the branch
      of `b` at `fork`: at `b` when all is well, otherwise below the first block that fails. */
  ghost function Settles(fork: Block, b: Block, interval: nat, judge: Judge): Block
    requires b.prev.Some? && IsAncestor(fork, b.prev.value)
  {
    AncestorHeight(fork, b.prev.value);
    if BodyPasses(b.txs) && BranchPasses(fork, b, interval, judge) then b else LastGood(fork, b.prev.value, interval, judge)
  }

  /** What is marked invalid on the way. A body that does not pass could be a fault of the copy. */
  ghost function Condemns(fork: Block, b: Block, interval: nat, judge: Judge): set<Block>
    requires b.prev.Some? && IsAncestor(fork, b.prev.value)
  {
    AncestorHeight(fork, b.prev.value);
    if BodyPasses(b.txs) || !BranchPasses(fork, b.prev.value, interval, judge) then BranchBlame(fork, b, interval, judge) else {}
  }

  /** What is marked invalid when `b` is added with the tip at `tip`. */
  ghost function Condemned(tip: Block, b: Block, interval: nat, judge: Judge): set<Block> {
    var f := ForkOf(tip, b);
    if Work(b) <= Work(tip) then if BodyPasses(b.txs) && judge.header(b).Reject? then Blame(b, judge) else {}
    else if b.prev.Some? && IsAncestor(f, b.prev.value) then Condemns(f, b, interval, judge)
    else {}
  }

  lemma CondemnedIs(tip: Block, b: Block, interval: nat, judge: Judge)
    ensures Work(b) <= Work(tip) ==>
      Condemned(tip, b, interval, judge) == if BodyPasses(b.txs) && judge.header(b).Reject? then Blame(b, judge) else {}
    ensures var f := ForkOf(tip, b);
      Work(b) > Work(tip) && b.prev.Some? && IsAncestor(f, b.prev.value) ==>
      Condemned(tip, b, interval, judge) == Condemns(f, b, interval, judge)
  {}

  /** `b` is turned away with the tip at `tip`. */
  ghost predicate Refused(tip: Block, b: Block, interval: nat, judge: Judge) {
    if Work(b) <= Work(tip) then !BodyPasses(b.txs) || judge.header(b).Reject?
    else
      var f := ForkOf(tip, b);
      IsAncestor(f, b) && (!BodyPasses(b.txs) || !BranchPasses(f, b, interval, judge))
  }

  /** Where the tip ends up when `b` becomes the best block with the tip at `tip`. */
  ghost function Settled(tip: Block, b: Block, interval: nat, judge: Judge): Block {
    var f := ForkOf(tip, b);
    if b.prev.Some? && IsAncestor(f, b.prev.value) then Settles(f, b, interval, judge) else b
  }

  lemma SettledIs(tip: Block, b: Block, interval: nat, judge: Judge)
    ensures var f := ForkOf(tip, b);
      b.prev.Some? && IsAncestor(f, b.prev.value) ==> Settled(tip, b, interval, judge) == Settles(f, b, interval, judge)
  {}

  lemma SettlesUnder(fork: Block, b: Block, interval: nat, judge: Judge)
    requires b.prev.Some? && IsAncestor(fork, b.prev.value)
    requires !BodyPasses(b.txs) || !BranchPasses(fork, b.prev.value, interval, judge)
      || !Passes(CoinsAt(b.prev.value, interval), b, interval, judge)
    ensures Settles(fork, b, interval, judge) == LastGood(fork, b.prev.value, interval, judge)
    ensures Condemns(fork, b, interval, judge) ==
      if !BranchPasses(fork, b.prev.value, interval, judge) then BranchBlame(fork, b.prev.value, interval, judge)
      else if BodyPasses(b.txs) then Blame(b, judge) else {}
    ensures IsAncestor(fork, b) && (!BodyPasses(b.txs) || !BranchPasses(fork, b, interval, judge))
  {
    AncestorHeight(fork, b.prev.value);
  }

  lemma SettlesOver(fork: Block, b: Block, interval: nat, judge: Judge)
    requires b.prev.Some? && IsAncestor(fork, b.prev.value) && BodyPasses(b.txs)
    requires BranchPasses(fork, b.prev.value, interval, judge)
    requires Passes(CoinsAt(b.prev.value, interval), b, interval, judge)
    ensures Settles(fork, b, interval, judge) == b && IsAncestor(fork, b) && BranchPasses(fork, b, interval, judge)
    ensures Condemns(fork, b, interval, judge) == {}
  {
    AncestorHeight(fork, b.prev.value);
  }

  lemma {:induction false} WorkGrows(a: Block, b: Block)
    requires IsAncestor(a, b)
    ensures Work(a) <= Work(b)
  {
    if a != b { WorkGrows(a, b.prev.value); }
  }

  /** With positive proofs the growth is strict. */
  lemma {:induction false} WorkGrowsStrictly(a: Block, b: Block)
    requires IsAncestor(a, b) && a != b && Proof(b.bits) > 0
    ensures Work(a) < Work(b)
  {
    WorkGrows(a, b.prev.value);
  }

  /** The proofs of the first `n` blocks of the chain that ends in `b`, genesis first. */
  function ProofsOf(b: Block, n: nat): nat
    requires n <= Height(b) + 1
  {
    if n == 0 then 0 else ProofsOf(b, n - 1) + Proof(Ancestor(b, n - 1).bits)
  }

  /** Total work is the sum of the proofs of all blocks of the chain. */
  lemma {:induction false} WorkIsSum(b: Block)
    ensures Work(b) == EntryOf(b).chainwork == ProofsOf(b, Height(b) + 1)
  {
    assert Ancestor(b, Height(b)) == b;
    if b.prev.Some? {
      WorkIsSum(b.prev.value);
      SameProofs(b.prev.value, b, Height(b));
    }
  }

  lemma {:induction false} SameProofs(a: Block, b: Block, n: nat)
    requires b.prev == Some(a) && n <= Height(a) + 1
    ensures ProofsOf(a, n) == ProofsOf(b, n)
  {
    if n > 0 { SameProofs(a, b, n - 1); }
  }

  lemma {:induction false} ForkOfAncestor(a: Block, b: Block)
    requires IsAncestor(a, b)
    ensures ForkOf(a, b) == a
  {
    if a != b {
      AncestorHeight(a, b);
      ForkOfAncestor(a, b.prev.value);
    }
  }

  /** No stored block has more work than the tip. */
  ghost predicate BestTip(blocks: set<Block>, tip: Block) {
    forall x :: x in blocks ==> Work(x) <= Work(tip)
  }

  /** No block of `held` is stored, and neither is its parent. */
  ghost predicate Detached(held: set<Block>, stored: set<Block>) {
    forall b :: b in held ==> b !in stored && (b.prev.Some? ==> b.prev.value !in stored)
  }

  lemma NoneHeld(stored: set<Block>)
    ensures Detached({}, stored)
  {}

  lemma DetachedStored(held: set<Block>, now: set<Block>, stored: set<Block>, b: Block)
    requires Detached(held, stored) && now <= held + {b} && b !in stored && (b.prev.Some? ==> b.prev.value !in stored)
    ensures Detached(now, stored)
  {}

  lemma StillDetached(held: set<Block>, stored: set<Block>, b: Block)
    requires Detached(held, stored)
    ensures Detached(held, stored + {b} - {b})
  {}

  /** Blocks were only added, each on a stored parent and past the header checks. */
  ghost predicate Vetted(before: set<Block>, now: set<Block>, judge: Judge) {
    && before <= now
    && forall x :: x in now && x !in before ==> judge.header(x).Accept? && x.prev.Some? && x.prev.value in now
  }

  lemma VettedNone(stored: set<Block>, judge: Judge)
    ensures Vetted(stored, stored, judge)
  {}

  lemma VettedMore(before: set<Block>, stored: set<Block>, b: Block, judge: Judge)
    requires Vetted(before, stored, judge) && judge.header(b).Accept? && b.prev.Some? && b.prev.value in stored
    ensures Vetted(before, stored + {b}, judge)
  {}

  lemma VettedTwice(before: set<Block>, mid: set<Block>, now: set<Block>, judge: Judge)
    requires Vetted(before, mid, judge) && Vetted(mid, now, judge)
    ensures Vetted(before, now, judge) && mid <= now
  {}

  /** The pool `held` lost the orphan `b`, or nothing at all. */
  ghost predicate Taken(held: set<Block>, now: set<Block>, b: Option<Block>) {
    match b
    case None => now == held
    case Some(x) => x in held && now == held - {x} && |now| + 1 == |held|
  }

  lemma DetachedAll(held: set<Block>, stored: set<Block>, b: Block)
    requires Detached(held, stored - {b}) && b !in held && forall x :: x in held ==> x.prev != Some(b)
    ensures Detached(held, stored)
  {}

  lemma DetachedOne(held: set<Block>, stored: set<Block>, b: Block, x: Block)
    requires Detached(held, stored - {b}) && x in held && x != b
    ensures x !in stored && Detached(held - {x}, stored - {b})
  {}

  /** Resolving orphans from the tip `first` has led to the best tip `tip` and the block `cur`. */
  ghost predicate Chasing(first: Block, stored: set<Block>, tip: Block, cur: Block) {
    BestTip(stored, tip) && (tip == first || (Work(tip) >= Work(first) && IsAncestor(tip, cur)))
  }

  lemma ChaseStep(first: Block, stored: set<Block>, tip: Block, cur: Block, b: Block)
    requires Chasing(first, stored, tip, cur) && b.prev == Some(cur)
    ensures Chasing(first, stored + {b}, if Work(b) <= Work(tip) then tip else b, b)
  {}

  /** A failure on the way costs the tip work only if it undid the tip resolving began with. */
  lemma ChaseEnds(first: Block, stored: set<Block>, tip: Block, cur: Block, b: Block, end: Block)
    requires Chasing(first, stored, tip, cur) && first in stored && tip in stored && b.prev == Some(cur)
    requires end == tip || IsAncestor(ForkOf(tip, b), end)
    ensures BestTip(stored, end) <==> Work(end) >= Work(first)
  {
    if end != tip && IsAncestor(tip, cur) {
      ForkOfAncestor(tip, b);
      WorkGrows(tip, end);
    }
  }

  lemma OnlyChainBest(S: set<Block>, tip: Block)
    requires OnlyChain(S, tip)
    ensures BestTip(S, tip)
  {
    forall x | x in S ensures Work(x) <= Work(tip) {
      WorkGrows(x, tip);
    }
  }

  // ----- a block and the orphans that follow it

  /** Where the tip goes when `b` is handed in. */
  ghost function Stepped(tip: Block, b: Block, interval: nat, judge: Judge): Block {
    if Work(b) <= Work(tip) then tip else Settled(tip, b, interval, judge)
  }

  lemma SteppedIs(tip: Block, b: Block, interval: nat, judge: Judge)
    ensures Stepped(tip, b, interval, judge) == if Work(b) <= Work(tip) then tip else Settled(tip, b, interval, judge)
  {}

  /** What comes of a block and the orphans waiting for it: the tip, the blocks stored, the orphans left
      waiting, the blocks marked invalid, and whether one was refused on the way. */
  datatype Chase = Chase(tip: Block, added: set<Block>, waiting: map<Option<Block>, Orphan>, invalid: set<Block>, refused: bool)

  /** With `cur` just stored: the orphan waiting for it is handed in, then the one waiting for that, up
      to the first one that is refused. */
  ghost function Resolve(tip: Block, cur: Block, waiting: map<Option<Block>, Orphan>, interval: nat,
      judge: Judge): Chase
    decreases waiting.Keys
  {
    if Some(cur) !in waiting then Chase(tip, {}, waiting, {}, false)
    else
      var b, rest := waiting[Some(cur)].block, waiting - {Some(cur)};
      if Refused(tip, b, interval, judge) then
        Chase(Stepped(tip, b, interval, judge), {}, rest, Condemned(tip, b, interval, judge), true)
      else
        var c := Resolve(Stepped(tip, b, interval, judge), b, rest, interval, judge);
        c.(added := c.added + {b})
  }

  /** What comes of handing in `b`. */
  ghost function ChaseOf(tip: Block, b: Block, waiting: map<Option<Block>, Orphan>, interval: nat,
      judge: Judge): Chase {
    if Refused(tip, b, interval, judge) then
      Chase(Stepped(tip, b, interval, judge), {}, waiting, Condemned(tip, b, interval, judge), true)
    else
      var c := Resolve(Stepped(tip, b, interval, judge), b, waiting, interval, judge);
      c.(added := c.added + {b})
  }

  function NextOf(waiting: map<Option<Block>, Orphan>, cur: Block): Option<Block> {
    if Some(cur) in waiting then Some(waiting[Some(cur)].block) else None
  }

  /** The rest of the way when `orphan` has been taken out and is next. */
  ghost function Onward(tip: Block, orphan: Option<Block>, waiting: map<Option<Block>, Orphan>, interval: nat,
      judge: Judge): Chase {
    match orphan
    case None => Chase(tip, {}, waiting, {}, false)
    case Some(b) => ChaseOf(tip, b, waiting, interval, judge)
  }

  /** A state is what comes of it: from the blocks `before` and the marks `marked`. */
  ghost predicate Became(c: Chase, tip: Block, before: set<Block>, stored: set<Block>,
      waiting: map<Option<Block>, Orphan>,
      marked: set<Block>, invalid: set<Block>) {
    tip == c.tip && stored == before + c.added && waiting == c.waiting && invalid == marked + c.invalid
  }

  /** The rest of the way leads to `goal` as well. */
  ghost predicate Heading(goal: Chase, all: set<Block>, rest: Chase, stored: set<Block>) {
    && goal.tip == rest.tip && goal.waiting == rest.waiting && goal.invalid == rest.invalid && goal.refused == rest.refused
    && all + goal.added == stored + rest.added
  }

  lemma ResolveIsOnward(tip: Block, cur: Block, waiting: map<Option<Block>, Orphan>, interval: nat, judge: Judge)
    ensures Resolve(tip, cur, waiting, interval, judge)
         == Onward(tip, NextOf(waiting, cur), waiting - {Some(cur)}, interval, judge)
  {
    hide Refused, Stepped, Condemned;
    if Some(cur) !in waiting { assert waiting - {Some(cur)} == waiting; }
  }

  lemma HeadingFirst(tip: Block, cur: Block, waiting: map<Option<Block>, Orphan>, stored: set<Block>, interval: nat,
      judge: Judge)
    ensures Heading(Resolve(tip, cur, waiting, interval, judge), stored,
      Onward(tip, NextOf(waiting, cur), waiting - {Some(cur)}, interval, judge), stored)
  {
    hide Onward, Resolve;
    ResolveIsOnward(tip, cur, waiting, interval, judge);
  }

  lemma HeadingNext(goal: Chase, all: set<Block>, tip: Block, b: Block, waiting: map<Option<Block>, Orphan>,
      stored: set<Block>,
      interval: nat, judge: Judge)
    requires Heading(goal, all, Onward(tip, Some(b), waiting, interval, judge), stored)
    requires !Refused(tip, b, interval, judge)
    ensures Heading(goal, all, Onward(Stepped(tip, b, interval, judge), NextOf(waiting, b), waiting - {Some(b)}, interval, judge),
      stored + {b})
  {
    hide Refused, Stepped, Condemned, Resolve;
    ResolveIsOnward(Stepped(tip, b, interval, judge), b, waiting, interval, judge);
    var rest := Resolve(Stepped(tip, b, interval, judge), b, waiting, interval, judge);
    assert stored + (rest.added + {b}) == stored + {b} + rest.added;
  }

  lemma HeadingDone(goal: Chase, all: set<Block>, tip: Block, waiting: map<Option<Block>, Orphan>, stored: set<Block>,
      marked: set<Block>, interval: nat, judge: Judge)
    requires Heading(goal, all, Onward(tip, None, waiting, interval, judge), stored)
    ensures Became(goal, tip, all, stored, waiting, marked, marked) && !goal.refused
  {}

  lemma HeadingRefused(goal: Chase, all: set<Block>, tip: Block, b: Block, waiting: map<Option<Block>, Orphan>,
      stored: set<Block>,
      marked: set<Block>, interval: nat, judge: Judge)
    requires Heading(goal, all, Onward(tip, Some(b), waiting, interval, judge), stored)
    requires Refused(tip, b, interval, judge)
    ensures Became(goal, Stepped(tip, b, interval, judge), all, stored, waiting, marked, marked + Condemned(tip, b, interval, judge))
    ensures goal.refused
  {
    hide Refused, Stepped, Condemned;
  }

  /** `b` was handed in, and the orphans waiting for it, if any, after it. */
  lemma ChaseStarts(tip: Block, b: Block, waiting: map<Option<Block>, Orphan>, before: set<Block>, end: Block,
      stored: set<Block>,
      left: map<Option<Block>, Orphan>, marked: set<Block>, invalid: set<Block>, interval: nat, judge: Judge)
    requires !Refused(tip, b, interval, judge)
    requires if Some(b) in waiting
      then Became(Resolve(Stepped(tip, b, interval, judge), b, waiting, interval, judge), end, before + {b}, stored, left, marked, invalid)
      else end == Stepped(tip, b, interval, judge) && stored == before + {b} && left == waiting && invalid == marked
    ensures Became(ChaseOf(tip, b, waiting, interval, judge), end, before, stored, left, marked, invalid)
  {
    hide Refused, Stepped, Condemned;
    assert before + ({} + {b}) == before + {b};
  }

  lemma ChaseRefused(tip: Block, b: Block, waiting: map<Option<Block>, Orphan>, before: set<Block>, marked: set<Block>,
      interval: nat, judge: Judge)
    requires Refused(tip, b, interval, judge)
    ensures Became(ChaseOf(tip, b, waiting, interval, judge), Stepped(tip, b, interval, judge), before, before, waiting, marked,
      marked + Condemned(tip, b, interval, judge))
  {
    hide Refused, Stepped, Condemned;
    assert before + {} == before;
  }

  // ----- the loop over the orphans

  /** Where following the orphans begins: the blocks stored, the orphans held, and what should come of it. */
  datatype Start = Start(all: set<Block>, pool: set<Block>, goal: Chase)

  /** Everything up to `cur` is stored and `orphan`, taken out of the pool, is next. */
  ghost predicate Underway(from: Start, stored: set<Block>, held: set<Block>, tip: Block, cur: Block,
      orphan: Option<Block>,
      waiting: map<Option<Block>, Orphan>, interval: nat, judge: Judge) {
    && cur in stored && Vetted(from.all, stored, judge) && held <= from.pool && stored <= from.all + from.pool
    && (orphan.Some? ==> IsNext(orphan.value, cur, stored) && orphan.value in from.pool && orphan.value !in held)
    && Heading(from.goal, from.all, Onward(tip, orphan, waiting, interval, judge), stored)
  }

  ghost predicate IsNext(b: Block, cur: Block, stored: set<Block>) {
    b !in stored && b.prev == Some(cur)
  }

  lemma UnderwayFirst(tip: Block, cur: Block, stored: set<Block>, pool: set<Block>, before: map<Option<Block>, Orphan>,
      held: set<Block>, orphan: Option<Block>, waiting: map<Option<Block>, Orphan>, interval: nat, judge: Judge)
    requires cur in stored && Taken(pool, held, orphan)
    requires orphan == NextOf(before, cur) && waiting == before - {Some(cur)}
    requires orphan.Some? ==> IsNext(orphan.value, cur, stored)
    ensures Underway(Start(stored, pool, Resolve(tip, cur, before, interval, judge)),
      stored, held, tip, cur, orphan, waiting, interval, judge)
  {
    hide Resolve, Onward, Heading, NextOf;
    VettedNone(stored, judge);
    HeadingFirst(tip, cur, before, stored, interval, judge);
  }

  lemma UnderwayIs(from: Start, stored: set<Block>, held: set<Block>, tip: Block, cur: Block, orphan: Option<Block>,
      waiting: map<Option<Block>, Orphan>, interval: nat, judge: Judge)
    requires Underway(from, stored, held, tip, cur, orphan, waiting, interval, judge)
    ensures cur in stored && (orphan.Some? ==> IsNext(orphan.value, cur, stored) && orphan.value !in held)
    ensures Vetted(from.all, stored, judge) && held <= from.pool && stored <= from.all + from.pool
  {
    hide Onward, Heading;
  }

  lemma UnderwayNext(from: Start, stored: set<Block>, held: set<Block>, tip: Block, cur: Block, b: Block,
      waiting: map<Option<Block>, Orphan>, now: set<Block>, next: Option<Block>, interval: nat, judge: Judge)
    requires Underway(from, stored, held, tip, cur, Some(b), waiting, interval, judge)
    requires !Refused(tip, b, interval, judge)
    requires judge.header(b).Accept? && Taken(held, now, next) && next == NextOf(waiting, b)
    requires next.Some? ==> IsNext(next.value, b, stored + {b})
    ensures Underway(from, stored + {b}, now, Stepped(tip, b, interval, judge), b, next, waiting - {Some(b)}, interval, judge)
  {
    hide Onward, Heading, Refused, Stepped, NextOf;
    VettedMore(from.all, stored, b, judge);
    HeadingNext(from.goal, from.all, tip, b, waiting, stored, interval, judge);
  }

  lemma UnderwayDone(from: Start, stored: set<Block>, held: set<Block>, tip: Block, cur: Block,
      waiting: map<Option<Block>, Orphan>, marked: set<Block>, interval: nat, judge: Judge)
    requires Underway(from, stored, held, tip, cur, None, waiting, interval, judge)
    ensures Became(from.goal, tip, from.all, stored, waiting, marked, marked)
  {
    hide Became, Onward, Heading;
    HeadingDone(from.goal, from.all, tip, waiting, stored, marked, interval, judge);
  }

  lemma UnderwayRefused(from: Start, stored: set<Block>, held: set<Block>, tip: Block, cur: Block, b: Block,
      waiting: map<Option<Block>, Orphan>, marked: set<Block>, interval: nat, judge: Judge)
    requires Underway(from, stored, held, tip, cur, Some(b), waiting, interval, judge)
    requires Refused(tip, b, interval, judge)
    ensures Became(from.goal, Stepped(tip, b, interval, judge), from.all, stored, waiting, marked,
      marked + Condemned(tip, b, interval, judge))
  {
    hide Became, Onward, Heading, Refused, Condemned, Stepped;
    HeadingRefused(from.goal, from.all, tip, b, waiting, stored, marked, interval, judge);
  }

  /** Orphans leave the pool only to be stored, but for the last one when it is refused. */
  lemma {:induction false} OrphansAreStored(tip: Block, cur: Block, waiting: map<Option<Block>, Orphan>,
      interval: nat, judge: Judge)
    returns (lost: Option<Option<Block>>)
    ensures var c := Resolve(tip, cur, waiting, interval, judge);
      && (lost.Some? <==> c.refused)
      && (forall p :: p in c.waiting ==> p in waiting && c.waiting[p] == waiting[p])
      && (forall p :: p in waiting ==> p in c.waiting || waiting[p].block in c.added || lost == Some(p))
      && (forall b :: b in c.added ==> exists p :: p in waiting && waiting[p].block == b)
    decreases waiting.Keys
  {
    hide Refused, Stepped, Condemned;
    lost := None;
    if Some(cur) in waiting {
      var b := waiting[Some(cur)].block;
      if Refused(tip, b, interval, judge) {
        lost := Some(Some(cur));
      } else {
        lost := OrphansAreStored(Stepped(tip, b, interval, judge), b, waiting - {Some(cur)}, interval, judge);
      }
    }
  }

  // ----- when the tip stays best

  lemma SettledOnBranch(tip: Block, b: Block, g: Block, interval: nat, judge: Judge)
    requires b.prev.Some? && IsAncestor(g, tip) && IsAncestor(g, b.prev.value)
    ensures Settled(tip, b, interval, judge) == tip || IsAncestor(ForkOf(tip, b), Settled(tip, b, interval, judge))
  {
    var f := ForkOf(tip, b);
    AncestorHeight(g, b.prev.value);
    ForkIsHighest(tip, b, g);
    if IsAncestor(f, b.prev.value) {
      LastGoodOnBranch(f, b.prev.value, interval, judge);
      AncestorHeight(f, b.prev.value);
    }
  }

  /** A block that is not refused becomes the tip if it has more work, and leaves the tip otherwise. */
  lemma AcceptedSteps(tip: Block, b: Block, g: Block, interval: nat, judge: Judge)
    requires b.prev.Some? && IsAncestor(g, tip) && IsAncestor(g, b.prev.value) && !Refused(tip, b, interval, judge)
    ensures Stepped(tip, b, interval, judge) == if Work(b) <= Work(tip) then tip else b
  {
    var f := ForkOf(tip, b);
    AncestorHeight(g, b.prev.value);
    ForkIsHighest(tip, b, g);
  }

  /** Each orphan waits under its own parent. */
  ghost predicate Linking(waiting: map<Option<Block>, Orphan>) {
    forall p :: p in waiting ==> waiting[p].block.prev == p
  }

  lemma PairedLinks(byHash: map<Block, Orphan>, byPrev: map<Option<Block>, Orphan>)
    requires Paired(byHash, byPrev)
    ensures Linking(byPrev)
  {}

  lemma {:induction false} ResolveBest(first: Block, stored: set<Block>, tip: Block, cur: Block, g: Block,
      waiting: map<Option<Block>, Orphan>, interval: nat, judge: Judge)
    requires Chasing(first, stored, tip, cur) && first in stored && tip in stored
    requires IsAncestor(g, tip) && IsAncestor(g, cur) && Linking(waiting)
    ensures var c := Resolve(tip, cur, waiting, interval, judge);
      && (BestTip(stored + c.added, c.tip) <==> Work(c.tip) >= Work(first))
      && (!c.refused ==> BestTip(stored + c.added, c.tip))
    decreases waiting.Keys
  {
    hide Refused, Stepped, Condemned, BestTip, Chasing, IsAncestor, Work;
    if Some(cur) !in waiting {
      BestFound(first, stored, tip, cur);
      assert stored + {} == stored;
    } else {
      var b, rest := waiting[Some(cur)].block, waiting - {Some(cur)};
      if Refused(tip, b, interval, judge) {
        RefusedBest(first, stored, tip, cur, b, g, interval, judge);
        assert stored + {} == stored;
      } else {
        AcceptedSteps(tip, b, g, interval, judge);
        ChaseStep(first, stored, tip, cur, b);
        Under(g, cur, b);
        var t := Stepped(tip, b, interval, judge);
        ResolveBest(first, stored + {b}, t, b, g, rest, interval, judge);
        var c := Resolve(t, b, rest, interval, judge);
        assert stored + (c.added + {b}) == stored + {b} + c.added;
      }
    }
  }

  lemma Under(g: Block, cur: Block, b: Block)
    requires IsAncestor(g, cur) && b.prev == Some(cur)
    ensures IsAncestor(g, b)
  {}

  lemma BestFrom(stored: set<Block>, tip: Block, cur: Block)
    requires BestTip(stored, tip)
    ensures Chasing(tip, stored, tip, cur)
  {}

  lemma BestFound(first: Block, stored: set<Block>, tip: Block, cur: Block)
    requires Chasing(first, stored, tip, cur) && first in stored
    ensures BestTip(stored, tip) && Work(tip) >= Work(first)
  {}

  lemma RefusedBest(first: Block, stored: set<Block>, tip: Block, cur: Block, b: Block, g: Block, interval: nat,
      judge: Judge)
    requires Chasing(first, stored, tip, cur) && first in stored && tip in stored && b.prev == Some(cur)
    requires IsAncestor(g, tip) && IsAncestor(g, cur)
    ensures var end := Stepped(tip, b, interval, judge); BestTip(stored, end) <==> Work(end) >= Work(first)
  {
    hide Refused, Settled;
    SettledOnBranch(tip, b, g, interval, judge);
    ChaseEnds(first, stored, tip, cur, b, Stepped(tip, b, interval, judge));
  }

  /** The tip is left with no less work than it had, or nothing was refused at all. */
  ghost predicate KeepsWork(c: Chase, tip: Block) {
    !c.refused || Work(c.tip) >= Work(tip)
  }

  /** When a best tip stays best, from what is known before the call. It does when nothing is refused on
      the way, and otherwise exactly when the place where the refusal leaves the tip has the work the
      tip had. If `b` itself is refused with more work than the tip, that place is the last good block
      of its branch. */
  lemma BestKeptExactly(stored: set<Block>, tip: Block, b: Block, g: Block, waiting: map<Option<Block>, Orphan>,
      interval: nat, judge: Judge)
    requires BestTip(stored, tip) && tip in stored && Linking(waiting)
    requires b.prev.Some? && IsAncestor(g, tip) && IsAncestor(g, b.prev.value)
    ensures var c := ChaseOf(tip, b, waiting, interval, judge);
      && (BestTip(stored + c.added, c.tip) <==> KeepsWork(c, tip))
      && (Refused(tip, b, interval, judge) ==> c.refused && c.added == {})
      && (Refused(tip, b, interval, judge) && Work(b) <= Work(tip) ==> c.tip == tip)
      && (Refused(tip, b, interval, judge) && Work(b) > Work(tip) ==>
        IsAncestor(ForkOf(tip, b), b.prev.value) && c.tip == LastGood(ForkOf(tip, b), b.prev.value, interval, judge))
  {
    hide BestTip, Chasing, IsAncestor, Work, Linking, Resolve, BranchPasses;
    BestFrom(stored, tip, b.prev.value);
    if Refused(tip, b, interval, judge) {
      RefusedBest(tip, stored, tip, b.prev.value, b, g, interval, judge);
      if Work(b) > Work(tip) { RefusedSettles(tip, b, g, interval, judge); }
      assert stored + {} == stored;
    } else {
      AcceptedSteps(tip, b, g, interval, judge);
      ChaseStep(tip, stored, tip, b.prev.value, b);
      Under(g, b.prev.value, b);
      var t := Stepped(tip, b, interval, judge);
      ResolveBest(tip, stored + {b}, t, b, g, waiting, interval, judge);
      var c := Resolve(t, b, waiting, interval, judge);
      assert stored + (c.added + {b}) == stored + {b} + c.added;
    }
  }

  lemma RefusedSettles(tip: Block, b: Block, g: Block, interval: nat, judge: Judge)
    requires b.prev.Some? && IsAncestor(g, tip) && IsAncestor(g, b.prev.value)
    requires Refused(tip, b, interval, judge) && Work(b) > Work(tip)
    ensures var f := ForkOf(tip, b);
      IsAncestor(f, b.prev.value) && Settled(tip, b, interval, judge) == LastGood(f, b.prev.value, interval, judge)
  {
    hide BodyPasses, BranchPasses, Work;
    var f := ForkOf(tip, b);
    AncestorHeight(g, b.prev.value);
    ForkIsHighest(tip, b, g);
    if f == b { WorkGrows(b, tip); }
  }
}
