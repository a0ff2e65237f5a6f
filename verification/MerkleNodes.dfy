/** Which nodes of the tree a merkle block visits and which it sends, said of the leaves below them. */
module MerkleNodes {
  import opened Arithmetic
  import opened Merkle
  import opened PartialMerkle

  /** A node: its height, and its position among the nodes of that height. */
  datatype Spot = Spot(h: nat, pos: nat) {
    /** The first leaf at or below. */
    function First(): nat { pos * Pow2(h) }
    function Parent(): Spot { Spot(h + 1, pos / 2) }
    /** Leaf `p` lies at or below. */
    predicate Over(p: nat) { pos * Pow2(h) <= p < (pos + 1) * Pow2(h) }
  }

  /** Some leaf at or below is matched. */
  ghost predicate Matches(matches: seq<bool>, s: Spot) {
    exists p :: 0 <= p < |matches| && matches[p] && s.Over(p)
  }

  /** A node is visited when it is the root, or some leaf at or below its parent is matched. */
  ghost predicate Visited(matches: seq<bool>, root: Spot, s: Spot) {
    s.h <= root.h && s.First() < |matches| && (s == root || Matches(matches, s.Parent()))
  }

  /** A node is sent when it is visited and not opened: a leaf, or a node without a match. */
  ghost predicate Sent(matches: seq<bool>, root: Spot, s: Spot) {
    Visited(matches, root, s) && (s.h == 0 || !Matches(matches, s))
  }

  /** From left to right, and above before below. */
  predicate Before(a: Spot, b: Spot) {
    a.First() < b.First() || (a.First() == b.First() && a.h > b.h)
  }

  ghost predicate InOrder(spots: seq<Spot>) {
    forall i, j :: 0 <= i < j < |spots| ==> Before(spots[i], spots[j])
  }

  function HashAt(leaves: seq<Hash>, s: Spot): Hash {
    if s.pos < Width(|leaves|, s.h) then Top(leaves, s.h, s.pos) else Zero
  }

  /** The flag bits are those of the nodes visited, in order: set exactly when a leaf below is matched. */
  ghost predicate Flagged(bits: seq<bool>, matches: seq<bool>, root: Spot, spots: seq<Spot>) {
    && InOrder(spots) && (forall s :: s in spots <==> Visited(matches, root, s))
    && Tells(bits, matches, spots)
  }

  ghost predicate Tells(bits: seq<bool>, matches: seq<bool>, spots: seq<Spot>) {
    |bits| == |spots| && forall i :: 0 <= i < |bits| ==> (bits[i] <==> Matches(matches, spots[i]))
  }

  /** The hashes are those of the nodes sent, in order. */
  ghost predicate Hashed(hashes: seq<Hash>, leaves: seq<Hash>, matches: seq<bool>, root: Spot, spots: seq<Spot>) {
    && InOrder(spots) && (forall s :: s in spots <==> Sent(matches, root, s))
    && |hashes| == |spots| && forall i :: 0 <= i < |hashes| ==> hashes[i] == HashAt(leaves, spots[i])
  }

  // ----- nodes and the leaves below them

  lemma {:induction false} StartIs(h: nat, pos: nat)
    ensures Start(h, pos) == pos * Pow2(h)
  {
    if h > 0 {
      StartIs(h - 1, 2 * pos);
      Doubled(pos, Pow2(h - 1));
    }
  }

  lemma Doubled(pos: nat, p: nat)
    ensures (2 * pos) * p == pos * (2 * p) && (2 * pos + 1) * p == pos * (2 * p) + p && (pos + 1) * p == pos * p + p
  {}

  lemma CoversIs(matches: seq<bool>, h: nat, pos: nat)
    ensures Covers(matches, h, pos) <==> Matches(matches, Spot(h, pos))
  {
    StartIs(h, pos);
    StartIs(h, pos + 1);
    if Covers(matches, h, pos) {
      var p :| Start(h, pos) <= p < Start(h, pos + 1) && p < |matches| && matches[p];
      assert Spot(h, pos).Over(p);
    }
  }

  lemma ExistsIs(n: nat, s: Spot)
    ensures s.pos < Width(n, s.h) <==> s.First() < n
  {
    StartIs(s.h, s.pos);
    InWidth(n, s.h, s.pos);
  }

  /** Everything at or below a node lies at or below its parent. */
  lemma ParentIsOver(s: Spot)
    ensures s.Parent().First() <= s.First() && s.First() + Pow2(s.h) <= s.Parent().First() + Pow2(s.h + 1)
    ensures forall p: nat :: s.Over(p) ==> s.Parent().Over(p)
  {
    var q, half := Pow2(s.h), s.pos / 2;
    Doubled(half, q);
    Doubled(s.pos, q);
    Doubled(half, 2 * q);
  }

  /** `s` is `r` or lies below it. */
  predicate Climbs(s: Spot, r: Spot)
    decreases r.h - s.h
  {
    s == r || (s.h < r.h && Climbs(s.Parent(), r))
  }

  lemma {:induction false} ClimbRange(s: Spot, r: Spot)
    requires Climbs(s, r)
    ensures s.h <= r.h && r.First() <= s.First() && s.First() + Pow2(s.h) <= r.First() + Pow2(r.h)
    ensures forall p: nat :: s.Over(p) ==> r.Over(p)
    decreases r.h - s.h
  {
    hide Pow2;
    if s != r {
      ParentIsOver(s);
      ClimbRange(s.Parent(), r);
    }
  }

  lemma MatchesAbove(matches: seq<bool>, s: Spot, r: Spot)
    requires Climbs(s, r) && Matches(matches, s)
    ensures Matches(matches, r)
  {
    ClimbRange(s, r);
  }

  /** What lies below a node lies at or below one of its children. */
  lemma {:induction false} ClimbSplit(s: Spot, h: nat, pos: nat)
    requires h > 0
    ensures Climbs(s, Spot(h, pos))
      <==> s == Spot(h, pos) || Climbs(s, Spot(h - 1, 2 * pos)) || Climbs(s, Spot(h - 1, 2 * pos + 1))
    decreases h - s.h
  {
    if s.h < h { ClimbSplit(s.Parent(), h, pos); }
  }

  lemma {:induction false} ClimbsToRoot(s: Spot, top: nat, n: nat)
    requires s.h <= top && s.First() < n <= Pow2(top)
    ensures Climbs(s, Spot(top, 0))
    decreases top - s.h
  {
    ParentIsOver(s);
    if s.h < top {
      ClimbsToRoot(s.Parent(), top, n);
    } else if s.pos > 0 {
      LargerProduct(s.pos, 0, Pow2(top));
    }
  }

  // ----- the nodes a traversal goes through

  function SpotsOf(matches: seq<bool>, h: nat, pos: nat): seq<Spot>
    requires pos < Width(|matches|, h)
  {
    if h == 0 || !Covers(matches, h, pos) then [Spot(h, pos)]
    else
      Children(|matches|, h, pos);
      [Spot(h, pos)] + SpotsOf(matches, h - 1, 2 * pos)
      + if 2 * pos + 1 < Width(|matches|, h - 1) then SpotsOf(matches, h - 1, 2 * pos + 1) else []
  }

  function SentOf(matches: seq<bool>, h: nat, pos: nat): seq<Spot>
    requires pos < Width(|matches|, h)
  {
    if h == 0 || !Covers(matches, h, pos) then [Spot(h, pos)]
    else
      Children(|matches|, h, pos);
      SentOf(matches, h - 1, 2 * pos)
      + if 2 * pos + 1 < Width(|matches|, h - 1) then SentOf(matches, h - 1, 2 * pos + 1) else []
  }

  lemma TellsBoth(a: seq<bool>, b: seq<bool>, matches: seq<bool>, one: seq<Spot>, two: seq<Spot>)
    requires Tells(a, matches, one) && Tells(b, matches, two)
    ensures Tells(a + b, matches, one + two)
  {
    hide Matches;
  }

  lemma TellsOne(bit: bool, matches: seq<bool>, s: Spot)
    requires bit <==> Matches(matches, s)
    ensures Tells([bit], matches, [s]) && Tells([], matches, [])
  {}

  lemma {:induction false} BitsAre(matches: seq<bool>, h: nat, pos: nat)
    requires pos < Width(|matches|, h)
    ensures Tells(BitsOf(matches, h, pos), matches, SpotsOf(matches, h, pos))
  {
    hide Matches, Covers, Width, Tells;
    CoversIs(matches, h, pos);
    TellsOne(Covers(matches, h, pos), matches, Spot(h, pos));
    if h > 0 && Covers(matches, h, pos) {
      Children(|matches|, h, pos);
      var left, spots := BitsOf(matches, h - 1, 2 * pos), SpotsOf(matches, h - 1, 2 * pos);
      BitsAre(matches, h - 1, 2 * pos);
      TellsBoth([true], left, matches, [Spot(h, pos)], spots);
      if 2 * pos + 1 < Width(|matches|, h - 1) {
        BitsAre(matches, h - 1, 2 * pos + 1);
        TellsBoth([true] + left, BitsOf(matches, h - 1, 2 * pos + 1), matches,
          [Spot(h, pos)] + spots, SpotsOf(matches, h - 1, 2 * pos + 1));
      } else {
        TellsBoth([true] + left, [], matches, [Spot(h, pos)] + spots, []);
      }
    }
  }

  lemma {:induction false} HashesAre(leaves: seq<Hash>, matches: seq<bool>, h: nat, pos: nat)
    requires |matches| == |leaves| && pos < Width(|leaves|, h)
    ensures var hashes, spots := HashesOf(leaves, matches, h, pos), SentOf(matches, h, pos);
      |hashes| == |spots| && forall i :: 0 <= i < |hashes| ==> hashes[i] == HashAt(leaves, spots[i])
  {
    hide Covers, Width, Top;
    if h > 0 && Covers(matches, h, pos) {
      Children(|leaves|, h, pos);
      HashesAre(leaves, matches, h - 1, 2 * pos);
      if 2 * pos + 1 < Width(|leaves|, h - 1) { HashesAre(leaves, matches, h - 1, 2 * pos + 1); }
    }
  }

  /** `s` is visited in the subtree at `r`. */
  ghost predicate VisitedBelow(matches: seq<bool>, r: Spot, s: Spot) {
    Climbs(s, r) && s.First() < |matches| && (s == r || Matches(matches, s.Parent()))
  }

  ghost predicate SentBelow(matches: seq<bool>, r: Spot, s: Spot) {
    VisitedBelow(matches, r, s) && (s.h == 0 || !Matches(matches, s))
  }

  /** Without a match below, a node is the only one visited. */
  lemma ShutNode(matches: seq<bool>, h: nat, pos: nat, s: Spot)
    requires pos < Width(|matches|, h) && (h == 0 || !Matches(matches, Spot(h, pos)))
    ensures VisitedBelow(matches, Spot(h, pos), s) <==> s == Spot(h, pos)
  {
    hide Matches, Pow2, Width;
    var r := Spot(h, pos);
    ExistsIs(|matches|, r);
    if Climbs(s, r) && s != r && Matches(matches, s.Parent()) {
      MatchesAbove(matches, s.Parent(), r);
    }
  }

  /** With one, it is visited, and so is what its children's subtrees visit. */
  lemma OpenNode(matches: seq<bool>, h: nat, pos: nat, s: Spot)
    requires pos < Width(|matches|, h) && h > 0 && Matches(matches, Spot(h, pos))
    ensures VisitedBelow(matches, Spot(h, pos), s) <==>
      (s == Spot(h, pos) || VisitedBelow(matches, Spot(h - 1, 2 * pos), s)
      || (2 * pos + 1 < Width(|matches|, h - 1) && VisitedBelow(matches, Spot(h - 1, 2 * pos + 1), s)))
  {
    hide Matches, Pow2, Width;
    var right := Spot(h - 1, 2 * pos + 1);
    ExistsIs(|matches|, Spot(h, pos));
    ExistsIs(|matches|, right);
    ClimbSplit(s, h, pos);
    if Climbs(s, right) { ClimbRange(s, right); }
  }

  lemma {:induction false} SpotsMembers(matches: seq<bool>, h: nat, pos: nat, s: Spot)
    requires pos < Width(|matches|, h)
    ensures s in SpotsOf(matches, h, pos) <==> VisitedBelow(matches, Spot(h, pos), s)
  {
    hide Matches, Covers, Width, VisitedBelow;
    CoversIs(matches, h, pos);
    if h > 0 && Covers(matches, h, pos) {
      Children(|matches|, h, pos);
      OpenNode(matches, h, pos, s);
      SpotsMembers(matches, h - 1, 2 * pos, s);
      if 2 * pos + 1 < Width(|matches|, h - 1) { SpotsMembers(matches, h - 1, 2 * pos + 1, s); }
    } else {
      ShutNode(matches, h, pos, s);
    }
  }

  lemma {:induction false} SentMembers(matches: seq<bool>, h: nat, pos: nat, s: Spot)
    requires pos < Width(|matches|, h)
    ensures s in SentOf(matches, h, pos) <==> SentBelow(matches, Spot(h, pos), s)
  {
    hide Matches, Covers, Width, VisitedBelow;
    CoversIs(matches, h, pos);
    if h > 0 && Covers(matches, h, pos) {
      Children(|matches|, h, pos);
      OpenNode(matches, h, pos, s);
      SentMembers(matches, h - 1, 2 * pos, s);
      if 2 * pos + 1 < Width(|matches|, h - 1) { SentMembers(matches, h - 1, 2 * pos + 1, s); }
    } else {
      ShutNode(matches, h, pos, s);
    }
  }

  lemma JoinedInOrder(a: seq<Spot>, b: seq<Spot>)
    requires InOrder(a) && InOrder(b) && forall x, y :: x in a && y in b ==> Before(x, y)
    ensures InOrder(a + b)
  {}

  /** What lies below the left child comes before what lies below the right one. */
  lemma LeftFirst(h: nat, pos: nat, x: Spot, y: Spot)
    requires Climbs(x, Spot(h, 2 * pos)) && Climbs(y, Spot(h, 2 * pos + 1))
    ensures Before(x, y)
  {
    ClimbRange(x, Spot(h, 2 * pos));
    ClimbRange(y, Spot(h, 2 * pos + 1));
    Doubled(pos, Pow2(h));
    PowPositive(x.h);
  }

  lemma PowPositive(k: nat)
    ensures Pow2(k) > 0
  {}

  lemma AboveFirst(h: nat, pos: nat, y: Spot)
    requires h > 0 && (Climbs(y, Spot(h - 1, 2 * pos)) || Climbs(y, Spot(h - 1, 2 * pos + 1)))
    ensures Before(Spot(h, pos), y)
  {
    var child := if Climbs(y, Spot(h - 1, 2 * pos)) then Spot(h - 1, 2 * pos) else Spot(h - 1, 2 * pos + 1);
    ClimbRange(y, child);
    ParentIsOver(child);
  }

  lemma SpotsClimb(matches: seq<bool>, h: nat, pos: nat)
    requires pos < Width(|matches|, h)
    ensures forall y :: y in SpotsOf(matches, h, pos) ==> Climbs(y, Spot(h, pos))
  {
    hide SpotsOf, Climbs, Width;
    forall y | y in SpotsOf(matches, h, pos) ensures Climbs(y, Spot(h, pos)) {
      SpotsMembers(matches, h, pos, y);
    }
  }

  lemma RootJoins(h: nat, pos: nat, left: seq<Spot>, right: seq<Spot>)
    requires h > 0 && InOrder(left) && InOrder(right)
    requires forall y :: y in left ==> Climbs(y, Spot(h - 1, 2 * pos))
    requires forall y :: y in right ==> Climbs(y, Spot(h - 1, 2 * pos + 1))
    ensures InOrder([Spot(h, pos)] + left) && InOrder([Spot(h, pos)] + left + right)
  {
    hide InOrder, Before, Climbs;
    var root := [Spot(h, pos)];
    OneInOrder(Spot(h, pos));
    forall y | y in left + right ensures Before(Spot(h, pos), y) {
      AboveFirst(h, pos, y);
    }
    forall x, y | x in left && y in right ensures Before(x, y) {
      LeftFirst(h - 1, pos, x, y);
    }
    JoinedInOrder(root, left);
    JoinedInOrder(root + left, right);
  }

  lemma OneInOrder(s: Spot)
    ensures InOrder([s])
  {}

  lemma {:induction false} SpotsInOrder(matches: seq<bool>, h: nat, pos: nat)
    requires pos < Width(|matches|, h)
    ensures InOrder(SpotsOf(matches, h, pos))
  {
    hide Covers, Width, InOrder, Climbs;
    OneInOrder(Spot(h, pos));
    if h > 0 && Covers(matches, h, pos) {
      Children(|matches|, h, pos);
      var left := SpotsOf(matches, h - 1, 2 * pos);
      SpotsInOrder(matches, h - 1, 2 * pos);
      SpotsClimb(matches, h - 1, 2 * pos);
      if 2 * pos + 1 < Width(|matches|, h - 1) {
        SpotsInOrder(matches, h - 1, 2 * pos + 1);
        SpotsClimb(matches, h - 1, 2 * pos + 1);
        RootJoins(h, pos, left, SpotsOf(matches, h - 1, 2 * pos + 1));
      } else {
        NoneInOrder();
        RootJoins(h, pos, left, []);
      }
    }
  }

  lemma NoneInOrder()
    ensures InOrder([])
  {}

  lemma {:induction false} SentInOrder(matches: seq<bool>, h: nat, pos: nat)
    requires pos < Width(|matches|, h)
    ensures InOrder(SentOf(matches, h, pos))
  {
    hide Covers, Width, Before, Climbs;
    if h > 0 && Covers(matches, h, pos) {
      Children(|matches|, h, pos);
      var left := SentOf(matches, h - 1, 2 * pos);
      SentInOrder(matches, h - 1, 2 * pos);
      if 2 * pos + 1 < Width(|matches|, h - 1) {
        var right := SentOf(matches, h - 1, 2 * pos + 1);
        SentInOrder(matches, h - 1, 2 * pos + 1);
        forall x, y | x in left && y in right ensures Before(x, y) {
          SentMembers(matches, h - 1, 2 * pos, x);
          SentMembers(matches, h - 1, 2 * pos + 1, y);
          LeftFirst(h - 1, pos, x, y);
        }
        JoinedInOrder(left, right);
      }
    }
  }

  // ----- the whole tree

  /** The nodes visited and sent below the root are all there are. */
  lemma FromTheRoot(matches: seq<bool>, top: nat, s: Spot)
    requires 0 < |matches| <= Pow2(top)
    ensures VisitedBelow(matches, Spot(top, 0), s) <==> Visited(matches, Spot(top, 0), s)
    ensures SentBelow(matches, Spot(top, 0), s) <==> Sent(matches, Spot(top, 0), s)
  {
    hide Matches;
    if s.h <= top && s.First() < |matches| { ClimbsToRoot(s, top, |matches|); }
    if Climbs(s, Spot(top, 0)) { ClimbRange(s, Spot(top, 0)); }
  }

  /** What is written for a tree: a flag for every node visited, a hash for every node sent. */
  lemma WrittenExactly(leaves: seq<Hash>, matches: seq<bool>, top: nat)
    requires 0 < |leaves| == |matches| <= Pow2(top) && 0 < Width(|leaves|, top)
    ensures exists spots :: Flagged(BitsOf(matches, top, 0), matches, Spot(top, 0), spots)
    ensures exists spots :: Hashed(HashesOf(leaves, matches, top, 0), leaves, matches, Spot(top, 0), spots)
  {
    hide Visited, Sent, VisitedBelow, SentBelow, InOrder, Matches, Width;
    var visited, sent := SpotsOf(matches, top, 0), SentOf(matches, top, 0);
    BitsAre(matches, top, 0);
    HashesAre(leaves, matches, top, 0);
    SpotsInOrder(matches, top, 0);
    SentInOrder(matches, top, 0);
    forall s ensures s in visited <==> Visited(matches, Spot(top, 0), s) {
      SpotsMembers(matches, top, 0, s);
      FromTheRoot(matches, top, s);
    }
    forall s ensures s in sent <==> Sent(matches, Spot(top, 0), s) {
      SentMembers(matches, top, 0, s);
      FromTheRoot(matches, top, s);
    }
    assert Flagged(BitsOf(matches, top, 0), matches, Spot(top, 0), visited);
    assert Hashed(HashesOf(leaves, matches, top, 0), leaves, matches, Spot(top, 0), sent);
  }
}
