/** Blocks held back until their parent arrives: at most one for each missing parent. */
module Orphans {
  import opened Primitives

  datatype Orphan = Orphan(block: Block, time: int)

  const ORPHAN_AGE: int := 60 * 60

  /** The map by hash and the map by parent describe the same orphans, one to one. */
  ghost predicate Paired(byHash: map<Block, Orphan>, byPrev: map<Option<Block>, Orphan>) {
    && (forall b :: b in byHash ==> byHash[b].block == b && b.prev in byPrev && byPrev[b.prev] == byHash[b])
    && (forall p :: p in byPrev ==> byPrev[p].block.prev == p && byPrev[p].block in byHash)
  }

  /** Hashes of the orphans younger than an hour. */
  function Live(byHash: map<Block, Orphan>, now: int): set<Block> {
    set b | b in byHash && now < byHash[b].time + ORPHAN_AGE
  }

  /** `kept` is what pruning leaves: the live orphans, less one of the oldest when there are too many. */
  ghost predicate Limited(byHash: map<Block, Orphan>, now: int, max: nat, kept: set<Block>) {
    var live := Live(byHash, now);
    if |live| < max || live == {} then kept == live
    else exists o :: o in live && kept == live - {o} && forall b :: b in live ==> byHash[o].time <= byHash[b].time
  }

  lemma FewerKeys(a: set<Block>, b: set<Block>)
    requires a <= b
    ensures |a| <= |b|
  {
    assert |b - a| + |a| == |b|;
  }

  lemma AddedSize(byHash: map<Block, Orphan>, orphan: Orphan)
    requires orphan.block !in byHash
    ensures |byHash[orphan.block := orphan].Keys| == |byHash.Keys| + 1
  {
    assert byHash[orphan.block := orphan].Keys == byHash.Keys + {orphan.block};
  }

  /** The map by parent finds the orphan waiting for `p`, if there is one. */
  lemma Waiting(byHash: map<Block, Orphan>, byPrev: map<Option<Block>, Orphan>, p: Option<Block>)
    requires Paired(byHash, byPrev)
    ensures p !in byPrev ==> forall b :: b in byHash ==> b.prev != p
    ensures p in byPrev ==> var o := byPrev[p]; o.block.prev == p && o.block in byHash && byHash[o.block] == o
  {}

  /** What is left of `all` once everything outside `todo` has been looked at. */
  function Surviving(all: map<Block, Orphan>, todo: set<Block>, now: int): map<Block, Orphan> {
    map b | b in all && (b in todo || b in Live(all, now)) :: all[b]
  }

  lemma SurvivingStep(all: map<Block, Orphan>, todo: set<Block>, now: int, b: Block)
    requires b in todo && todo <= all.Keys
    ensures Surviving(all, todo - {b}, now)
         == if b in Live(all, now) then Surviving(all, todo, now) else Surviving(all, todo, now) - {b}
    ensures b in Surviving(all, todo, now) && Surviving(all, todo, now)[b] == all[b]
  {}

  lemma SurvivingEnds(all: map<Block, Orphan>, now: int)
    ensures Surviving(all, all.Keys, now) == all
    ensures Surviving(all, {}, now).Keys == Live(all, now)
    ensures forall b :: b in Live(all, now) ==> Surviving(all, {}, now)[b] == all[b]
  {}

  /** `oldest` is the first to have come among the live orphans outside `todo`. */
  ghost predicate OldestSeen(all: map<Block, Orphan>, todo: set<Block>, now: int, oldest: Option<Orphan>) {
    match oldest
    case None => Live(all, now) <= todo
    case Some(o) =>
      && o.block in Live(all, now) && o.block !in todo && all[o.block] == o
      && forall b :: b in Live(all, now) && b !in todo ==> o.time <= all[b].time
  }

  lemma NoneSeen(all: map<Block, Orphan>, now: int)
    ensures OldestSeen(all, all.Keys, now, None)
  {}

  lemma OldestFound(all: map<Block, Orphan>, now: int, oldest: Option<Orphan>)
    requires OldestSeen(all, {}, now, oldest)
    ensures match oldest
      case None => Live(all, now) == {}
      case Some(o) =>
        && o.block in Live(all, now) && all[o.block] == o
        && forall b :: b in Live(all, now) ==> o.time <= all[b].time
  {}

  lemma OldestStep(all: map<Block, Orphan>, todo: set<Block>, now: int, oldest: Option<Orphan>, b: Block)
    requires OldestSeen(all, todo, now, oldest) && b in todo && b in all && all[b].block == b
    ensures OldestSeen(all, todo - {b}, now,
      if b in Live(all, now) && (oldest.None? || all[b].time < oldest.value.time) then Some(all[b]) else oldest)
  {}

  /** The orphans that do not wait for `p`. */
  function Others(byHash: map<Block, Orphan>, p: Option<Block>): map<Block, Orphan> {
    map b | b in byHash && b.prev != p :: byHash[b]
  }

  /** `after` is the pool `before` with `block` held back: one waiting for the same parent made way
      first, then the pool was pruned, then the block went in. */
  ghost predicate HeldBack(before: map<Block, Orphan>, block: Block, now: int, max: nat, after: map<Block, Orphan>) {
    var others := Others(before, block.prev);
    && block in after && after[block] == Orphan(block, now)
    && Limited(others, now, max, after.Keys - {block})
    && forall b :: b in after && b != block ==> b in others && after[b] == others[b]
  }

  lemma OthersAre(byHash: map<Block, Orphan>, byPrev: map<Option<Block>, Orphan>, p: Option<Block>)
    requires Paired(byHash, byPrev)
    ensures Others(byHash, p) == if p in byPrev then byHash - {byPrev[p].block} else byHash
  {}

  lemma ItIsHeldBack(before: map<Block, Orphan>, block: Block, now: int, max: nat, kept: map<Block, Orphan>)
    requires Limited(Others(before, block.prev), now, max, kept.Keys) && block !in kept
    requires forall b :: b in kept ==> b in Others(before, block.prev) && kept[b] == Others(before, block.prev)[b]
    ensures HeldBack(before, block, now, max, kept[block := Orphan(block, now)])
  {
    hide Limited, Others;
    assert kept[block := Orphan(block, now)].Keys - {block} == kept.Keys;
  }

  class OrphanPool {
    const maxOrphans: nat
    var byHash: map<Block, Orphan>
    var byPrev: map<Option<Block>, Orphan>

    ghost predicate Valid()
      reads this
    {
      Paired(byHash, byPrev) && |byHash.Keys| <= Bound()
    }

    function Bound(): nat {
      if maxOrphans > 1 then maxOrphans else 1
    }

    constructor (maxOrphans: nat)
      ensures this.maxOrphans == maxOrphans && byHash == map[] && byPrev == map[] && Valid()
    {
      this.maxOrphans := maxOrphans;
      byHash := map[];
      byPrev := map[];
    }

    /** Neither map may know the orphan or its parent yet. */
    method AddOrphan(orphan: Orphan)
      requires Paired(byHash, byPrev)
      requires orphan.block !in byHash && orphan.block.prev !in byPrev
      modifies this
      ensures Paired(byHash, byPrev) && byHash == old(byHash)[orphan.block := orphan]
      ensures byPrev.Keys == old(byPrev.Keys) + {orphan.block.prev}
      ensures |byHash.Keys| == old(|byHash.Keys|) + 1
    {
      AddedSize(byHash, orphan);
      byHash := byHash[orphan.block := orphan];
      byPrev := byPrev[orphan.block.prev := orphan];
    }

    /** Both maps must know the orphan. */
    method RemoveOrphan(orphan: Orphan)
      requires Paired(byHash, byPrev) && orphan.block in byHash && byHash[orphan.block] == orphan
      modifies this
      ensures Paired(byHash, byPrev) && byHash == old(byHash) - {orphan.block}
      ensures byPrev == old(byPrev) - {orphan.block.prev}
    {
      byHash := byHash - {orphan.block};
      byPrev := byPrev - {orphan.block.prev};
    }

    method HasNextOrphan(parent: Block) returns (waiting: bool)
      requires Valid()
      ensures waiting <==> Some(parent) in byPrev
      ensures !waiting ==> forall b :: b in byHash ==> b.prev != Some(parent)
    {
      Waiting(byHash, byPrev, Some(parent));
      waiting := Some(parent) in byPrev;
    }

    /** Takes out the orphan waiting for `parent`, if there is one. */
    method ResolveOrphan(parent: Block) returns (orphan: Option<Orphan>)
      requires Valid()
      modifies this
      ensures Valid()
      ensures orphan == if Some(parent) in old(byPrev) then Some(old(byPrev)[Some(parent)]) else None
      ensures byPrev == old(byPrev) - {Some(parent)}
      ensures match orphan
        case None => byHash == old(byHash) && forall b :: b in byHash ==> b.prev != Some(parent)
        case Some(o) =>
          && o.block.prev == Some(parent) && o.block in old(byHash) && byHash == old(byHash) - {o.block}
          && forall b :: b in byHash ==> b.prev != Some(parent)
    {
      hide Paired;
      Waiting(byHash, byPrev, Some(parent));
      if Some(parent) !in byPrev {
        assert byPrev - {Some(parent)} == byPrev;
        return None;
      }
      var o := byPrev[Some(parent)];
      RemoveOrphan(o);
      Waiting(byHash, byPrev, Some(parent));
      FewerKeys(byHash.Keys, old(byHash.Keys));
      return Some(o);
    }

    /** Drops every orphan an hour old and, when there are still too many, one of the oldest. */
    method LimitOrphans(now: int)
      requires Paired(byHash, byPrev)
      modifies this
      ensures Paired(byHash, byPrev)
      ensures byHash.Keys <= old(byHash.Keys) && forall b :: b in byHash ==> byHash[b] == old(byHash)[b]
      ensures byPrev.Keys <= old(byPrev.Keys)
      ensures Limited(old(byHash), now, maxOrphans, byHash.Keys)
    {
      hide Surviving, OldestSeen;
      var all := byHash;
      var todo := all.Keys;
      var oldest: Option<Orphan> := None;
      SurvivingEnds(all, now);
      NoneSeen(all, now);
      while todo != {}
        invariant todo <= all.Keys && Paired(byHash, byPrev) && byPrev.Keys <= old(byPrev.Keys)
        invariant byHash == Surviving(all, todo, now)
        invariant OldestSeen(all, todo, now, oldest)
        decreases todo
      {
        var b :| b in todo;
        var orphan := all[b];
        SurvivingStep(all, todo, now, b);
        OldestStep(all, todo, now, oldest, b);
        todo := todo - {b};
        if now < orphan.time + ORPHAN_AGE {
          if oldest.None? || orphan.time < oldest.value.time {
            oldest := Some(orphan);
          }
        } else {
          RemoveOrphan(orphan);
        }
      }
      OldestFound(all, now, oldest);
      if |byHash.Keys| < maxOrphans {
        return;
      }
      if oldest.None? {
        return;
      }
      RemoveOrphan(oldest.value);
    }

    /** Holds a block back. An orphan already waiting for the same parent makes way for it. */
    method StoreOrphan(block: Block, now: int)
      requires Valid() && block !in byHash
      modifies this
      ensures Valid() && HeldBack(old(byHash), block, now, maxOrphans, byHash)
    {
      hide Limited, Live, Paired, Others, HeldBack;
      Waiting(byHash, byPrev, block.prev);
      OthersAre(byHash, byPrev, block.prev);
      if block.prev in byPrev {
        RemoveOrphan(byPrev[block.prev]);
      }
      ghost var before := byHash;
      LimitOrphans(now);
      RoomForOne(before, now, byHash.Keys);
      ItIsHeldBack(old(byHash), block, now, maxOrphans, byHash);
      Waiting(byHash, byPrev, block.prev);
      AddOrphan(Orphan(block, now));
    }

    lemma RoomForOne(before: map<Block, Orphan>, now: int, kept: set<Block>)
      requires |before.Keys| <= Bound() && Limited(before, now, maxOrphans, kept)
      ensures |kept| < Bound()
    {
      var live := Live(before, now);
      assert live <= before.Keys;
      FewerKeys(live, before.Keys);
    }

    method PurgeOrphans()
      modifies this
      ensures Valid() && byHash == map[] && byPrev == map[]
    {
      byHash := map[];
      byPrev := map[];
    }
  }
}
