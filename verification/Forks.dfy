/** Fork points and branches of the block tree, and the events a reorganization emits. */
module Forks {
  import opened Primitives

  /** The fork point of two blocks, found by stepping the higher one down. */
  function ForkOf(a: Block, b: Block): Block
    decreases Height(a) + Height(b)
  {
    if a == b then a
    else if Height(b) > Height(a) then ForkOf(a, b.prev.value)
    else if a.prev.Some? then ForkOf(a.prev.value, b)
    else a
  }

  /** The fork point is the highest common ancestor: every common ancestor is an ancestor of it. */
  lemma {:induction false} ForkIsHighest(a: Block, b: Block, g: Block)
    requires IsAncestor(g, a) && IsAncestor(g, b)
    ensures IsAncestor(ForkOf(a, b), a) && IsAncestor(ForkOf(a, b), b) && IsAncestor(g, ForkOf(a, b))
    decreases Height(a) + Height(b)
  {
    if a != b {
      AncestorHeight(g, a);
      AncestorHeight(g, b);
      if Height(b) > Height(a) {
        ForkIsHighest(a, b.prev.value, g);
      } else {
        ForkIsHighest(a.prev.value, b, g);
      }
    }
  }

  /** The blocks from `top` down to, but not including, its ancestor `fork`. */
  function Branch(top: Block, fork: Block): (r: seq<Block>)
    requires IsAncestor(fork, top)
    ensures |r| == Height(top) - Height(fork)
  {
    AncestorHeight(fork, top);
    if top == fork then [] else
      AncestorHeight(fork, top.prev.value);
      [top] + Branch(top.prev.value, fork)
  }

  lemma BranchStep(done: seq<Block>, cur: Block, fork: Block)
    requires IsAncestor(fork, cur) && fork != cur
    ensures IsAncestor(fork, cur.prev.value) && Height(fork) <= Height(cur.prev.value)
    ensures (done + [cur]) + Branch(cur.prev.value, fork) == done + Branch(cur, fork)
  {
    AncestorHeight(fork, cur.prev.value);
    assert (done + [cur]) + Branch(cur.prev.value, fork) == done + ([cur] + Branch(cur.prev.value, fork));
  }

  lemma {:induction false} BranchAt(top: Block, fork: Block, k: nat)
    requires IsAncestor(fork, top) && k < |Branch(top, fork)|
    ensures var r := Branch(top, fork);
      && IsAncestor(r[k], top) && IsAncestor(fork, r[k]) && r[k] != fork
      && Height(r[k]) == Height(top) - k
      && r[k].prev == Some(if k + 1 < |r| then r[k + 1] else fork)
  {
    if k > 0 {
      BranchAt(top.prev.value, fork, k - 1);
    }
  }

  lemma {:induction false} BranchMember(top: Block, fork: Block, x: Block)
    requires IsAncestor(fork, top)
    ensures x in Branch(top, fork) <==> IsAncestor(x, top) && IsAncestor(fork, x) && x != fork
  {
    if top == fork {
      if IsAncestor(x, top) && IsAncestor(fork, x) {
        AncestorHeight(x, top);
        AncestorHeight(fork, x);
      }
    } else {
      BranchMember(top.prev.value, fork, x);
      if x == top { AncestorHeight(fork, top); }
    }
  }

  datatype Event = Disconnect(block: Block) | Connect(block: Block)

  /** Events of walking down from `top` to `fork`. */
  function Down(top: Block, fork: Block): seq<Event>
    requires IsAncestor(fork, top)
  {
    if top == fork then [] else [Disconnect(top)] + Down(top.prev.value, fork)
  }

  /** Events of walking up from `fork` to `top`. */
  function Up(fork: Block, top: Block): seq<Event>
    requires IsAncestor(fork, top)
  {
    if top == fork then [] else Up(fork, top.prev.value) + [Connect(top)]
  }

  lemma {:induction false} DownStep(top: Block, mid: Block, fork: Block)
    requires IsAncestor(mid, top) && IsAncestor(fork, mid) && mid != fork
    ensures IsAncestor(mid.prev.value, top) && Down(top, mid.prev.value) == Down(top, mid) + [Disconnect(mid)]
  {
    if top == mid {
    } else {
      DownStep(top.prev.value, mid, fork);
      AncestorHeight(mid.prev.value, top.prev.value);
    }
  }

  lemma DownNone(top: Block, fork: Block)
    requires IsAncestor(fork, top)
    ensures Down(top, top) == [] && Branch(fork, fork) == []
    ensures var r := Branch(top, fork); top == if |r| > 0 then r[0] else fork
  {}

  /** Block `i` of a branch, `i >= 1`, stands on the next one down and below the top. */
  lemma BranchInner(top: Block, fork: Block, i: nat)
    requires IsAncestor(fork, top) && 1 <= i < |Branch(top, fork)|
    ensures var r := Branch(top, fork);
      && r[i].prev == Some(if i + 1 < |r| then r[i + 1] else fork)
      && IsAncestor(r[i], top.prev.value) && IsAncestor(fork, r[i]) && IsAncestor(fork, r[i].prev.value) && r[i] != fork
  {
    BranchAt(top, fork, i);
    if i + 1 < |Branch(top, fork)| { BranchAt(top, fork, i + 1); }
  }

  lemma BranchStart(top: Block, fork: Block)
    requires IsAncestor(fork, top) && fork != top
    ensures |Branch(top, fork)| > 0 && top.prev.Some? && IsAncestor(fork, top.prev.value)
    ensures var r := Branch(top, fork); top.prev.value == if |r| > 1 then r[1] else fork
  {
    AncestorHeight(fork, top);
    BranchAt(top, fork, 0);
    DownNone(top, fork);
  }

  lemma UpStep(fork: Block, top: Block)
    requires top.prev.Some? && IsAncestor(fork, top.prev.value)
    ensures IsAncestor(fork, top) && fork != top
    ensures Up(fork, top) == Up(fork, top.prev.value) + [Connect(top)]
  {
    AncestorHeight(fork, top.prev.value);
  }

  lemma UpNone(fork: Block)
    ensures IsAncestor(fork, fork) && Up(fork, fork) == []
  {}

  /** Walking down disconnects the branch from its top, walking up connects it from its bottom. */
  lemma {:induction false} EventsFollowBranch(top: Block, fork: Block)
    requires IsAncestor(fork, top)
    ensures var r := Branch(top, fork);
      && |Down(top, fork)| == |Up(fork, top)| == |r|
      && (forall k :: 0 <= k < |r| ==> Down(top, fork)[k] == Disconnect(r[k]))
      && (forall k :: 0 <= k < |r| ==> Up(fork, top)[|r| - 1 - k] == Connect(r[k]))
  {
    if top != fork {
      AncestorHeight(fork, top.prev.value);
      EventsFollowBranch(top.prev.value, fork);
    }
  }
}
