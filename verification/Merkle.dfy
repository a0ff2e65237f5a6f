/** Merkle trees (src/crypto/merkle.js). Hashing two nodes is an injective constructor. */
module Merkle {
  import opened Primitives

  /** `Zero` is the all-zero hash; every other hash is a leaf or the hash of two nodes. */
  datatype Hash = Zero | Leaf(id: nat) | Node(left: Hash, right: Hash)

  // ----- what the trees hold, level by level

  /** The level above `s`: nodes are paired up, and an odd one out is paired with itself. */
  function Up(s: seq<Hash>): (r: seq<Hash>)
    ensures |r| == (|s| + 1) / 2
    ensures forall j :: 0 <= j < |r| ==> r[j] == Node(s[2 * j], s[if 2 * j + 1 < |s| then 2 * j + 1 else 2 * j])
  {
    seq((|s| + 1) / 2, j requires 0 <= j < (|s| + 1) / 2 => Node(s[2 * j], s[if 2 * j + 1 < |s| then 2 * j + 1 else 2 * j]))
  }

  /** All levels of the tree over `s`, lowest first, in one list. */
  function Flat(s: seq<Hash>): (r: seq<Hash>)
    ensures |r| >= |s|
    decreases |s|
  {
    if |s| <= 1 then s else s + Flat(Up(s))
  }

  function Root(s: seq<Hash>): Hash
    requires |s| > 0
    decreases |s|
  {
    if |s| == 1 then s[0] else Root(Up(s))
  }

  /** The last two of an even number of nodes are equal. */
  predicate EndsTwice(s: seq<Hash>) {
    |s| > 1 && |s| % 2 == 0 && s[|s| - 2] == s[|s| - 1]
  }

  /** Some level of the tree over `s` ends in two equal nodes. */
  predicate Malleated(s: seq<Hash>)
    decreases |s|
  {
    |s| > 1 && (EndsTwice(s) || Malleated(Up(s)))
  }

  /** The sibling of each node on the way from leaf `index` to the root; an odd one out is its own. */
  function Siblings(s: seq<Hash>, index: nat): seq<Hash>
    decreases |s|
  {
    if |s| <= 1 then [] else [s[Sibling(index, |s|)]] + Siblings(Up(s), index / 2)
  }

  /** The index with its lowest bit flipped, kept below `size`. */
  function Sibling(index: nat, size: nat): nat
    requires size > 0
  {
    var j := if index % 2 == 0 then index + 1 else index - 1;
    if j < size then j else size - 1
  }

  function Fold(hash: Hash, branch: seq<Hash>, index: nat): Hash
    decreases |branch|
  {
    if branch == [] then hash
    else Fold(if index % 2 == 1 then Node(branch[0], hash) else Node(hash, branch[0]), branch[1..], index / 2)
  }

  // ----- the code

  /** Builds the tree in one array: the leaves, then each level above. */
  method CreateTree(leaves: seq<Hash>) returns (nodes: seq<Hash>, malleated: bool)
    ensures leaves == [] ==> nodes == [Zero] && !malleated
    ensures leaves != [] ==> nodes == Flat(leaves) && malleated == Malleated(leaves)
  {
    hide Up, Flat, Malleated;
    FlatEmpty(leaves);
    nodes := leaves;
    var size := |leaves|;
    malleated := false;
    var i := 0;
    if size == 0 {
      nodes := nodes + [Zero];
      return;
    }
    ghost var level := leaves;
    while size > 1
      invariant 0 <= i && 1 <= size == |level| && i + size == |nodes|
      invariant nodes[i..] == level && nodes[..i] + Flat(level) == Flat(leaves)
      invariant malleated || Malleated(level) <==> Malleated(leaves)
      decreases size
    {
      ghost var base, seen, m := nodes, malleated, 0;
      var j := 0;
      while j < size
        invariant j == 2 * m && m <= |Up(level)|
        invariant nodes == base + Up(level)[..m]
        invariant malleated <==> seen || (j >= size && EndsTwice(level))
        decreases size - j
      {
        var k := if j + 1 < size - 1 then j + 1 else size - 1;
        var left := nodes[i + j];
        var right := nodes[i + k];
        assert left == base[i..][j] && right == base[i..][k];
        if k == j + 1 && k + 1 == size && left == right {
          malleated := true;
        }
        PairStep(level, m);
        nodes := nodes + [Node(left, right)];
        j, m := j + 2, m + 1;
      }
      assert nodes == base + Up(level);
      FlatStep(base, i, level);
      MalleatedStep(level);
      i := i + size;
      size := (size + 1) / 2;
      level := Up(level);
    }
    FlatDone(nodes, i, level);
  }

  lemma FlatEmpty(leaves: seq<Hash>)
    ensures leaves[..0] + Flat(leaves) == Flat(leaves)
  {}

  lemma FlatDone(nodes: seq<Hash>, i: nat, level: seq<Hash>)
    requires i + 1 == |nodes| && nodes[i..] == level
    ensures nodes[..i] + Flat(level) == nodes && !Malleated(level)
  {}

  lemma MalleatedStep(level: seq<Hash>)
    requires |level| > 1
    ensures Malleated(level) <==> EndsTwice(level) || Malleated(Up(level))
  {}

  lemma PairStep(level: seq<Hash>, m: nat)
    requires 2 * m < |level|
    ensures m < |Up(level)|
    ensures Up(level)[..m + 1] == Up(level)[..m] + [Node(level[2 * m], level[if 2 * m + 1 < |level| then 2 * m + 1 else 2 * m])]
  {}

  /** Advancing past one level of the array. */
  lemma FlatStep(base: seq<Hash>, i: nat, level: seq<Hash>)
    requires i + |level| == |base| && base[i..] == level && |level| > 1
    ensures base[..i] + Flat(level) == (base + Up(level))[..|base|] + Flat(Up(level))
    ensures (base + Up(level))[|base|..] == Up(level)
  {
    assert base == base[..i] + level;
    assert base[..i] + (level + Flat(Up(level))) == base + Flat(Up(level));
  }

  method CreateRoot(leaves: seq<Hash>) returns (root: Hash, malleated: bool)
    ensures leaves == [] ==> root == Zero && !malleated
    ensures leaves != [] ==> root == Root(leaves) && malleated == Malleated(leaves)
  {
    var nodes;
    nodes, malleated := CreateTree(leaves);
    if leaves != [] { FlatEndsInRoot(leaves); }
    root := nodes[|nodes| - 1];
  }

  lemma {:induction false} FlatEndsInRoot(s: seq<Hash>)
    requires s != []
    ensures Flat(s)[|Flat(s)| - 1] == Root(s)
    decreases |s|
  {
    if |s| > 1 { FlatEndsInRoot(Up(s)); }
  }

  method CreateBranch(index: nat, leaves: seq<Hash>) returns (branch: seq<Hash>)
    ensures branch == Siblings(leaves, index)
  {
    hide Siblings;
    var size := |leaves|;
    var nodes, _ := CreateTree(leaves);
    branch := [];
    var i, at := 0, index;
    ghost var level := leaves;
    assert nodes[0..] == nodes;
    while size > 1
      invariant 0 <= i <= |nodes| && size == |level|
      invariant size > 0 ==> nodes[i..] == Flat(level)
      invariant branch + Siblings(level, at) == Siblings(leaves, index)
      decreases size
    {
      var flipped := if at % 2 == 0 then at + 1 else at - 1;
      var j := if flipped < size - 1 then flipped else size - 1;
      assert nodes[i..][j] == level[j];
      SiblingStep(branch, level, at);
      branch := branch + [nodes[i + j]];
      at := at / 2;
      NextLevel(nodes, i, level);
      i := i + size;
      size := (size + 1) / 2;
      level := Up(level);
    }
    NoSiblings(branch, level, at);
  }

  lemma SiblingStep(branch: seq<Hash>, level: seq<Hash>, at: nat)
    requires |level| > 1
    ensures branch + Siblings(level, at) == branch + [level[Sibling(at, |level|)]] + Siblings(Up(level), at / 2)
  {}

  lemma NoSiblings(branch: seq<Hash>, level: seq<Hash>, at: nat)
    requires |level| <= 1
    ensures branch + Siblings(level, at) == branch
  {}

  lemma NextLevel(nodes: seq<Hash>, i: nat, level: seq<Hash>)
    requires i <= |nodes| && nodes[i..] == Flat(level) && |level| > 1
    ensures i + |level| <= |nodes| && nodes[i + |level|..] == Flat(Up(level))
  {
    assert nodes[i + |level|..] == nodes[i..][|level|..];
  }

  method DeriveRoot(hash: Hash, branch: seq<Hash>, index: nat) returns (root: Hash)
    ensures root == Fold(hash, branch, index)
  {
    root := hash;
    var at := index;
    for i := 0 to |branch|
      invariant at >= 0 && Fold(root, branch[i..], at) == Fold(hash, branch, index)
    {
      assert branch[i..][0] == branch[i] && branch[i..][1..] == branch[i + 1..];
      if at % 2 == 1 {
        root := Node(branch[i], root);
      } else {
        root := Node(root, branch[i]);
      }
      at := at / 2;
    }
  }

  // ----- what the trees are for

  /** A branch leads from its leaf to the root of the tree. */
  lemma {:induction false} BranchLeadsToRoot(s: seq<Hash>, index: nat)
    requires index < |s|
    ensures Fold(s[index], Siblings(s, index), index) == Root(s)
    decreases |s|
  {
    if |s| > 1 {
      BranchLeadsToRoot(Up(s), index / 2);
    }
  }

  /** And it leads there from no other hash: a branch proves one leaf for each index. */
  lemma {:induction false} BranchProvesLeaf(s: seq<Hash>, index: nat, hash: Hash, branch: seq<Hash>)
    requires index < |s| && |branch| == |Siblings(s, index)| && Fold(hash, branch, index) == Root(s)
    ensures hash == s[index]
    decreases |s|
  {
    BranchLeadsToRoot(s, index);
    FoldInjective(hash, branch, s[index], Siblings(s, index), index);
  }

  lemma {:induction false} FoldInjective(a: Hash, p: seq<Hash>, b: Hash, q: seq<Hash>, index: nat)
    requires |p| == |q| && Fold(a, p, index) == Fold(b, q, index)
    ensures a == b && p == q
    decreases |p|
  {
    if p != [] {
      var a' := if index % 2 == 1 then Node(p[0], a) else Node(a, p[0]);
      var b' := if index % 2 == 1 then Node(q[0], b) else Node(b, q[0]);
      FoldInjective(a', p[1..], b', q[1..], index / 2);
      assert p == [p[0]] + p[1..] && q == [q[0]] + q[1..];
    }
  }

  /** Number of levels above the leaves. */
  function Depth(n: nat): nat {
    if n <= 1 then 0 else 1 + Depth((n + 1) / 2)
  }

  /** Some level of more than two nodes ends in two equal nodes. */
  predicate Ambiguous(s: seq<Hash>)
    decreases |s|
  {
    |s| > 2 && (EndsTwice(s) || Ambiguous(Up(s)))
  }

  /** The two nodes below the root are equal. */
  predicate TwinTop(s: seq<Hash>)
    decreases |s|
  {
    if |s| <= 2 then EndsTwice(s) else TwinTop(Up(s))
  }

  lemma {:induction false} MalleatedSplit(s: seq<Hash>)
    ensures Malleated(s) <==> Ambiguous(s) || TwinTop(s)
    decreases |s|
  {
    if |s| > 2 {
      MalleatedSplit(Up(s));
    } else if |s| == 2 {
      assert !Malleated(Up(s));
    }
  }

  /** Trees of equal depth and equal root whose levels do not end in a repeated node have the same
      leaves. */
  lemma {:induction false} SameDepthUnique(s: seq<Hash>, t: seq<Hash>)
    requires s != [] && t != [] && Depth(|s|) == Depth(|t|) && Root(s) == Root(t)
    requires !Ambiguous(s) && !Ambiguous(t)
    ensures s == t
    decreases |s|
  {
    if |s| > 2 {
      SameDepthUnique(Up(s), Up(t));
      SamePairs(s, t);
    }
  }

  lemma SamePairs(s: seq<Hash>, t: seq<Hash>)
    requires Up(s) == Up(t) && !EndsTwice(s) && !EndsTwice(t)
    ensures s == t
  {
    if |s| < |t| {
      PairsAlike(s, t);
    } else {
      PairsAlike(t, s);
    }
  }

  lemma PairsAlike(s: seq<Hash>, t: seq<Hash>)
    requires |s| <= |t| && Up(s) == Up(t) && !EndsTwice(t)
    ensures s == t
  {
    forall i | 0 <= i < |s| ensures s[i] == t[i] {
      assert Up(s)[i / 2] == Up(t)[i / 2];
    }
    if |s| < |t| { OddAndEven(s, t); }
  }

  lemma OddAndEven(s: seq<Hash>, t: seq<Hash>)
    requires |s| < |t| && Up(s) == Up(t)
    ensures EndsTwice(t)
  {
    assert Up(s)[|s| / 2] == Up(t)[|s| / 2];
  }

  predicate AllLeaves(s: seq<Hash>) {
    forall i :: 0 <= i < |s| ==> s[i].Leaf?
  }

  /** Length of the left edge below a node. */
  function Spine(h: Hash): nat {
    if h.Node? then 1 + Spine(h.left) else 0
  }

  lemma {:induction false} RootShowsDepth(s: seq<Hash>, k: nat)
    requires s != [] && forall i :: 0 <= i < |s| ==> Spine(s[i]) == k
    ensures Spine(Root(s)) == k + Depth(|s|)
    decreases |s|
  {
    if |s| > 1 { RootShowsDepth(Up(s), k + 1); }
  }

  lemma UnambiguousUnique(s: seq<Hash>, t: seq<Hash>)
    requires s != [] && t != [] && AllLeaves(s) && AllLeaves(t)
    requires !Ambiguous(s) && !Ambiguous(t) && Root(s) == Root(t)
    ensures s == t
  {
    RootShowsDepth(s, 0);
    RootShowsDepth(t, 0);
    SameDepthUnique(s, t);
  }

  /** Two lists of transaction hashes that both build without the malleated flag and have equal
      roots are the same list, although only the last pair of each level is compared. */
  lemma RootDeterminesLeaves(s: seq<Hash>, t: seq<Hash>)
    requires s != [] && t != [] && AllLeaves(s) && AllLeaves(t)
    requires !Malleated(s) && !Malleated(t) && Root(s) == Root(t)
    ensures s == t
  {
    MalleatedSplit(s);
    MalleatedSplit(t);
    UnambiguousUnique(s, t);
  }

  /** Whatever the nodes are, unflagged lists with equal roots are the same list exactly when their trees
      are equally deep, which their lengths tell. */
  lemma SameRootExactly(s: seq<Hash>, t: seq<Hash>)
    requires s != [] && t != [] && !Malleated(s) && !Malleated(t) && Root(s) == Root(t)
    ensures s == t <==> Depth(|s|) == Depth(|t|)
  {
    if Depth(|s|) == Depth(|t|) {
      MalleatedSplit(s);
      MalleatedSplit(t);
      SameDepthUnique(s, t);
    }
  }

  /** It takes leaves that are not themselves hashes of two nodes. */
  lemma InnerNodeAsLeaf(a: Hash, b: Hash)
    requires a != b
    ensures !Malleated([a, b]) && !Malleated([Node(a, b)]) && Root([a, b]) == Root([Node(a, b)])
    ensures [a, b] != [Node(a, b)]
  {
    assert Up([a, b]) == [Node(a, b)];
    assert |[a, b]| != |[Node(a, b)]|;
  }

  /** A length at which cutting an ambiguous list off leaves its root as it was. */
  function Cut(s: seq<Hash>): (k: nat)
    requires Ambiguous(s)
    ensures 2 <= k < |s|
    decreases |s|
  {
    if EndsTwice(s) then |s| - 1 else 2 * Cut(Up(s))
  }

  lemma {:induction false} CutKeepsRoot(s: seq<Hash>)
    requires Ambiguous(s)
    ensures Root(s[..Cut(s)]) == Root(s)
    decreases |s|
  {
    var k := Cut(s);
    if EndsTwice(s) {
      assert Up(s[..k]) == Up(s);
    } else {
      CutKeepsRoot(Up(s));
      assert Up(s[..k]) == Up(s)[..Cut(Up(s))];
    }
  }

  /** A cut that is no longer ambiguous. */
  lemma {:induction false} CutOff(s: seq<Hash>) returns (k: nat)
    requires s != []
    ensures 1 <= k <= |s| && Root(s[..k]) == Root(s) && !Ambiguous(s[..k])
    decreases |s|
  {
    if Ambiguous(s) {
      var c := Cut(s);
      CutKeepsRoot(s);
      k := CutOff(s[..c]);
      assert s[..c][..k] == s[..k];
    } else {
      k := |s|;
      assert s[..k] == s;
    }
  }

  /** What the flag means: it is raised exactly when a shorter list of transaction hashes has the
      same root, or when the two nodes below the root are equal, which no shorter list need share. */
  lemma MalleatedExactly(s: seq<Hash>)
    requires s != [] && AllLeaves(s)
    ensures Malleated(s) <==> TwinTop(s) || exists t :: SharesRoot(t, s)
  {
    MalleatedSplit(s);
    if Ambiguous(s) {
      CutKeepsRoot(s);
      assert SharesRoot(s[..Cut(s)], s);
    }
    forall t | SharesRoot(t, s) ensures Ambiguous(s) {
      if !Ambiguous(s) {
        var k := CutOff(t);
        UnambiguousUnique(s, t[..k]);
      }
    }
  }

  /** A shorter list of transaction hashes with the same root. */
  predicate SharesRoot(t: seq<Hash>, s: seq<Hash>)
    requires s != []
  {
    t != [] && AllLeaves(t) && |t| < |s| && Root(t) == Root(s)
  }

  /** Equal transactions in a block of two raise the flag although no shorter list has their root. */
  lemma TwinsAreNotAmbiguous(x: nat)
    ensures var s := [Leaf(x), Leaf(x)]; Malleated(s) && forall t :: !SharesRoot(t, s)
  {
    var s := [Leaf(x), Leaf(x)];
    assert Root(s) == Root(Up(s)) == Node(Leaf(x), Leaf(x));
  }

  /** The root a block's header must carry, unless the block could have been tampered with. */
  method CreateMerkleRoot(txs: seq<Tx>) returns (root: Option<Hash>)
    ensures txs == [] ==> root == Some(Zero)
    ensures txs != [] ==> root == if Malleated(Leaves(txs)) then None else Some(Root(Leaves(txs)))
  {
    var leaves: seq<Hash> := [];
    for i := 0 to |txs|
      invariant leaves == Leaves(txs[..i])
    {
      assert txs[..i + 1] == txs[..i] + [txs[i]];
      leaves := leaves + [Leaf(txs[i].txid)];
    }
    assert txs[..|txs|] == txs;
    var r, malleated := CreateRoot(leaves);
    if malleated {
      return None;
    }
    return Some(r);
  }

  function Leaves(txs: seq<Tx>): (r: seq<Hash>)
    ensures |r| == |txs| && forall i :: 0 <= i < |txs| ==> r[i] == Leaf(txs[i].txid)
  {
    seq(|txs|, i requires 0 <= i < |txs| => Leaf(txs[i].txid))
  }

  /** A header's root pins down the transactions of the block, in order. */
  lemma HeaderPinsTransactions(a: seq<Tx>, b: seq<Tx>)
    requires a != [] && b != [] && !Malleated(Leaves(a)) && !Malleated(Leaves(b))
    requires Root(Leaves(a)) == Root(Leaves(b))
    ensures |a| == |b| && forall i :: 0 <= i < |a| ==> a[i].txid == b[i].txid
  {
    RootDeterminesLeaves(Leaves(a), Leaves(b));
    forall i | 0 <= i < |a| ensures a[i].txid == b[i].txid {
      assert Leaves(a)[i] == Leaves(b)[i];
    }
  }

  /** Small trees: an odd node is paired with itself, and left comes before right. */
  lemma SmallRoots(a: Hash, b: Hash, c: Hash)
    ensures Root([a]) == a && Root([a, b]) == Node(a, b) && Root([a, b, c]) == Node(Node(a, b), Node(c, c))
  {
    assert Up([a, b]) == [Node(a, b)];
    assert Up([a, b, c]) == [Node(a, b), Node(c, c)];
    assert Up([Node(a, b), Node(c, c)]) == [Node(Node(a, b), Node(c, c))];
    assert Root([a, b, c]) == Root(Up([a, b, c])) == Root(Up([Node(a, b), Node(c, c)]));
  }
}
