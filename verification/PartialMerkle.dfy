/** Partial merkle trees (src/primitives/merkleblock.js; BIP37, "Partial Merkle branch format"):
    what a traversal writes, what a traversal reads, and that reading undoes writing. */
module PartialMerkle {
  import opened Merkle
  import opened Arithmetic

  // ----- the shape of the tree over `n` leaves

  function ShiftRight(x: nat, k: nat): nat {
    if k == 0 then x else ShiftRight(x / 2, k - 1)
  }

  /** Number of nodes at height `h`. */
  function Width(n: nat, h: nat): nat {
    ShiftRight(n + Pow2(h) - 1, h)
  }

  /** The first leaf at or below node `pos` of height `h`: `pos` shifted left by `h`. */
  function Start(h: nat, pos: nat): nat {
    if h == 0 then pos else Start(h - 1, 2 * pos)
  }

  lemma {:induction false} WidthStep(n: nat, h: nat)
    ensures Width(n, h + 1) == Width((n + 1) / 2, h) == (Width(n, h) + 1) / 2
  {
    HalfUp(n, Pow2(h));
    if h > 0 {
      WidthStep((n + 1) / 2, h - 1);
    }
  }

  lemma HalfUp(n: nat, p: nat)
    requires p > 0
    ensures (n + 2 * p - 1) / 2 == (n + 1) / 2 + p - 1
  {}

  lemma {:induction false} InWidth(n: nat, h: nat, pos: nat)
    ensures pos < Width(n, h) <==> Start(h, pos) < n
    ensures Start(h, pos) < Start(h, pos + 1)
  {
    if h > 0 {
      WidthStep(n, h - 1);
      InWidth(n, h - 1, 2 * pos);
      InWidth(n, h - 1, 2 * pos + 1);
    }
  }

  /** Children of an existing node: the left one exists, the right one when it has a leaf. */
  lemma Children(n: nat, h: nat, pos: nat)
    requires h > 0 && pos < Width(n, h)
    ensures 2 * pos < Width(n, h - 1)
    ensures Start(h, pos) == Start(h - 1, 2 * pos) < Start(h - 1, 2 * pos + 1) < Start(h - 1, 2 * pos + 2) == Start(h, pos + 1)
    ensures 2 * pos + 1 < Width(n, h - 1) <==> Start(h - 1, 2 * pos + 1) < n
  {
    WidthStep(n, h - 1);
    InWidth(n, h - 1, 2 * pos);
    InWidth(n, h - 1, 2 * pos + 1);
  }

  /** The node at height `h` and position `pos`, computed from the leaves. */
  function Top(leaves: seq<Hash>, h: nat, pos: nat): Hash
    requires pos < Width(|leaves|, h)
  {
    if h == 0 then leaves[pos]
    else
      Children(|leaves|, h, pos);
      var left := Top(leaves, h - 1, 2 * pos);
      var right := if 2 * pos + 1 < Width(|leaves|, h - 1) then Top(leaves, h - 1, 2 * pos + 1) else left;
      Node(left, right)
  }

  lemma TopStep(leaves: seq<Hash>, h: nat, pos: nat)
    requires h > 0 && pos < Width(|leaves|, h)
    ensures 2 * pos < Width(|leaves|, h - 1)
    ensures Top(leaves, h, pos) == Node(Top(leaves, h - 1, 2 * pos),
      if 2 * pos + 1 < Width(|leaves|, h - 1) then Top(leaves, h - 1, 2 * pos + 1) else Top(leaves, h - 1, 2 * pos))
  {
    Children(|leaves|, h, pos);
  }

  // ----- the array of all levels holds the same nodes

  function Level(s: seq<Hash>, h: nat): seq<Hash> {
    if h == 0 then s else Up(Level(s, h - 1))
  }

  lemma {:induction false} LevelWidth(s: seq<Hash>, h: nat)
    ensures |Level(s, h)| == Width(|s|, h)
    ensures Level(Up(s), h) == Level(s, h + 1)
  {
    if h > 0 {
      LevelWidth(s, h - 1);
      WidthStep(|s|, h - 1);
    }
  }

  lemma LevelZero(s: seq<Hash>)
    ensures Level(s, 0) == s && Width(|s|, 0) == |s| && forall pos :: 0 <= pos < |s| ==> Top(s, 0, pos) == s[pos]
  {}

  lemma LevelStep(s: seq<Hash>, h: nat, pos: nat)
    requires h > 0 && pos < |Level(s, h)|
    ensures var below := Level(s, h - 1);
      2 * pos < |below| && Level(s, h)[pos] == Node(below[2 * pos], below[if 2 * pos + 1 < |below| then 2 * pos + 1 else 2 * pos])
  {}

  lemma {:induction false} TopIsInLevel(s: seq<Hash>, h: nat, pos: nat)
    requires pos < Width(|s|, h)
    ensures |Level(s, h)| == Width(|s|, h) && Level(s, h)[pos] == Top(s, h, pos)
  {
    hide Width, Top, Level, Up;
    if h == 0 {
      LevelZero(s);
    } else {
      TopStep(s, h, pos);
      LevelWidth(s, h);
      LevelStep(s, h, pos);
      TopIsInLevel(s, h - 1, 2 * pos);
      if 2 * pos + 1 < Width(|s|, h - 1) { TopIsInLevel(s, h - 1, 2 * pos + 1); }
    }
  }

  /** Where level `h` begins in the array over `n` leaves. */
  function Offset(n: nat, h: nat): nat {
    if h == 0 then 0 else n + Offset((n + 1) / 2, h - 1)
  }

  /** The array built from the bottom up holds, at each level and position, the node that the
      recursion from the top computes. */
  lemma {:induction false} FlatHoldsTop(s: seq<Hash>, h: nat, pos: nat)
    requires s != [] && h <= Depth(|s|) && pos < Width(|s|, h)
    ensures Offset(|s|, h) + pos < |Flat(s)| && Flat(s)[Offset(|s|, h) + pos] == Top(s, h, pos)
    decreases h
  {
    hide Width, Top, Level, Up;
    TopIsInLevel(s, h, pos);
    if h == 0 {
      LevelZero(s);
    } else {
      LevelWidth(s, h - 1);
      WidthStep(|s|, h - 1);
      FlatHoldsTop(Up(s), h - 1, pos);
      TopIsInLevel(Up(s), h - 1, pos);
    }
  }

  /** The root is the one node at full height. */
  lemma {:induction false} RootIsTop(s: seq<Hash>)
    requires s != []
    ensures Width(|s|, Depth(|s|)) == 1 && Top(s, Depth(|s|), 0) == Root(s)
    decreases |s|
  {
    if |s| > 1 {
      RootIsTop(Up(s));
      var h := Depth(|Up(s)|);
      WidthStep(|s|, h);
      LevelWidth(s, h);
      TopIsInLevel(s, h + 1, 0);
      TopIsInLevel(Up(s), h, 0);
    }
  }

  predicate Distinct(s: seq<Hash>) {
    forall i, j :: 0 <= i < j < |s| ==> s[i] != s[j]
  }

  /** Over distinct leaves no two nodes of a level are equal. */
  lemma {:induction false} TopDistinct(s: seq<Hash>, h: nat, p: nat, q: nat)
    requires Distinct(s) && p < q < Width(|s|, h)
    ensures Top(s, h, p) != Top(s, h, q)
  {
    if h > 0 {
      Children(|s|, h, p);
      Children(|s|, h, q);
      TopDistinct(s, h - 1, 2 * p, 2 * q);
    }
  }

  // ----- what the encoder writes

  /** One of the leaves `from`..`to` is matched. */
  predicate AnyMatch(matches: seq<bool>, from: nat, to: nat) {
    exists p :: from <= p < to && p < |matches| && matches[p]
  }

  predicate Covers(matches: seq<bool>, h: nat, pos: nat) {
    AnyMatch(matches, Start(h, pos), Start(h, pos + 1))
  }

  /** Flag bits of the subtree: a node with no match below it is not opened. */
  function BitsOf(matches: seq<bool>, h: nat, pos: nat): seq<bool>
    requires pos < Width(|matches|, h)
  {
    if h == 0 || !Covers(matches, h, pos) then [Covers(matches, h, pos)]
    else
      Children(|matches|, h, pos);
      [true] + BitsOf(matches, h - 1, 2 * pos)
      + if 2 * pos + 1 < Width(|matches|, h - 1) then BitsOf(matches, h - 1, 2 * pos + 1) else []
  }

  /** Hashes of the subtree: those of its leaves and of the nodes that are not opened. */
  function HashesOf(leaves: seq<Hash>, matches: seq<bool>, h: nat, pos: nat): seq<Hash>
    requires |matches| == |leaves| && pos < Width(|leaves|, h)
  {
    if h == 0 || !Covers(matches, h, pos) then [Top(leaves, h, pos)]
    else
      Children(|leaves|, h, pos);
      HashesOf(leaves, matches, h - 1, 2 * pos)
      + if 2 * pos + 1 < Width(|leaves|, h - 1) then HashesOf(leaves, matches, h - 1, 2 * pos + 1) else []
  }

  /** What is written for an opened node. */
  lemma Opened(leaves: seq<Hash>, matches: seq<bool>, h: nat, pos: nat)
    requires |matches| == |leaves| && pos < Width(|leaves|, h) && h > 0 && Covers(matches, h, pos)
    ensures 2 * pos < Width(|leaves|, h - 1)
    ensures var more := 2 * pos + 1 < Width(|leaves|, h - 1);
      && BitsOf(matches, h, pos) == [true] + (BitsOf(matches, h - 1, 2 * pos) + if more then BitsOf(matches, h - 1, 2 * pos + 1) else [])
      && HashesOf(leaves, matches, h, pos)
         == HashesOf(leaves, matches, h - 1, 2 * pos) + if more then HashesOf(leaves, matches, h - 1, 2 * pos + 1) else []
  {
    Children(|leaves|, h, pos);
    var bits := BitsOf(matches, h - 1, 2 * pos);
    var rest := if 2 * pos + 1 < Width(|leaves|, h - 1) then BitsOf(matches, h - 1, 2 * pos + 1) else [];
    assert [true] + bits + rest == [true] + (bits + rest);
  }

  /** No more hashes than flag bits, and no more than leaves. */
  lemma {:induction false} Budgets(leaves: seq<Hash>, matches: seq<bool>, h: nat, pos: nat)
    requires |matches| == |leaves| && pos < Width(|leaves|, h)
    ensures 1 <= |HashesOf(leaves, matches, h, pos)| <= |BitsOf(matches, h, pos)|
    ensures |HashesOf(leaves, matches, h, pos)| <= |leaves| - Start(h, pos)
    ensures |HashesOf(leaves, matches, h, pos)| <= Start(h, pos + 1) - Start(h, pos)
  {
    hide Width, Top, Start, Covers;
    InWidth(|leaves|, h, pos);
    if h > 0 && Covers(matches, h, pos) {
      Opened(leaves, matches, h, pos);
      Children(|leaves|, h, pos);
      Budgets(leaves, matches, h - 1, 2 * pos);
      if 2 * pos + 1 < Width(|leaves|, h - 1) { Budgets(leaves, matches, h - 1, 2 * pos + 1); }
    }
  }

  // ----- what the decoder reads

  datatype Found = Found(pos: nat, hash: Hash)

  predicate Bit(x: bv8, k: nat)
    requires k < 8
  {
    (x >> k) & 1 == 1
  }

  predicate BitAt(flags: seq<bv8>, p: nat)
    requires p < 8 * |flags|
  {
    Bit(flags[p / 8], p % 8)
  }

  /** The outcome of reading a subtree: its hash, how many flag bits and hashes are used up, whether
      something was wrong, and the matched leaves. */
  datatype Walk = Walk(hash: Hash, bits: nat, hashes: nat, failed: bool, found: seq<Found>)

  function Decode(flags: seq<bv8>, hashes: seq<Hash>, n: nat, h: nat, pos: nat, b: nat, u: nat): Walk {
    if b >= 8 * |flags| then Walk(Zero, b, u, true, [])
    else
      var parent := BitAt(flags, b);
      if h == 0 || !parent then
        if u >= |hashes| then Walk(Zero, b + 1, u, true, [])
        else Walk(hashes[u], b + 1, u + 1, false, if h == 0 && parent then [Found(pos, hashes[u])] else [])
      else
        var left := Decode(flags, hashes, n, h - 1, 2 * pos, b + 1, u);
        if 2 * pos + 1 < Width(n, h - 1) then
          var right := Decode(flags, hashes, n, h - 1, 2 * pos + 1, left.bits, left.hashes);
          Walk(Node(left.hash, right.hash), right.bits, right.hashes,
            left.failed || right.failed || right.hash == left.hash, left.found + right.found)
        else
          Walk(Node(left.hash, left.hash), left.bits, left.hashes, left.failed, left.found)
  }

  /** Reading a node whose flag is set reads its left child and, if it exists, its right child. */
  lemma DecodeOpen(flags: seq<bv8>, hashes: seq<Hash>, n: nat, h: nat, pos: nat, b: nat, u: nat, left: Walk)
    requires h > 0 && b < 8 * |flags| && BitAt(flags, b)
    requires left == Decode(flags, hashes, n, h - 1, 2 * pos, b + 1, u)
    ensures 2 * pos + 1 < Width(n, h - 1) ==>
      var right := Decode(flags, hashes, n, h - 1, 2 * pos + 1, left.bits, left.hashes);
      Decode(flags, hashes, n, h, pos, b, u) == Walk(Node(left.hash, right.hash), right.bits, right.hashes,
        left.failed || right.failed || right.hash == left.hash, left.found + right.found)
    ensures 2 * pos + 1 >= Width(n, h - 1) ==>
      Decode(flags, hashes, n, h, pos, b, u) == Walk(Node(left.hash, left.hash), left.bits, left.hashes, left.failed, left.found)
  {}

  /** The matched leaves from `from` up to `to`, in order. */
  function Selected(leaves: seq<Hash>, matches: seq<bool>, from: nat, to: nat): seq<Found>
    requires |matches| == |leaves|
    decreases if from < to then to - from else 0
  {
    if from >= to || from >= |leaves| then []
    else (if matches[from] then [Found(from, leaves[from])] else []) + Selected(leaves, matches, from + 1, to)
  }

  lemma {:induction false} SelectedSplit(leaves: seq<Hash>, matches: seq<bool>, from: nat, mid: nat, to: nat)
    requires |matches| == |leaves| && from <= mid <= to
    ensures Selected(leaves, matches, from, to) == Selected(leaves, matches, from, mid) + Selected(leaves, matches, mid, to)
    decreases if from < mid then mid - from else 0
  {
    if from < mid && from < |leaves| { SelectedSplit(leaves, matches, from + 1, mid, to); }
  }

  lemma {:induction false} SelectedNone(leaves: seq<Hash>, matches: seq<bool>, from: nat, to: nat)
    requires |matches| == |leaves| && !AnyMatch(matches, from, to)
    ensures Selected(leaves, matches, from, to) == []
    decreases if from < to then to - from else 0
  {
    if from < to && from < |leaves| { SelectedNone(leaves, matches, from + 1, to); }
  }

  predicate Carries(flags: seq<bv8>, b: nat, bits: seq<bool>) {
    b + |bits| <= 8 * |flags| && forall i :: 0 <= i < |bits| ==> BitAt(flags, b + i) == bits[i]
  }

  lemma CarriesParts(flags: seq<bv8>, b: nat, one: seq<bool>, two: seq<bool>)
    requires Carries(flags, b, one + two)
    ensures Carries(flags, b, one) && Carries(flags, b + |one|, two)
  {
    forall i | 0 <= i < |one| ensures BitAt(flags, b + i) == one[i] {
      assert (one + two)[i] == one[i];
    }
    forall i | 0 <= i < |two| ensures BitAt(flags, b + |one| + i) == two[i] {
      assert (one + two)[|one| + i] == two[i];
    }
  }

  predicate Holds(hashes: seq<Hash>, u: nat, part: seq<Hash>) {
    u + |part| <= |hashes| && hashes[u..u + |part|] == part
  }

  lemma HoldsParts(hashes: seq<Hash>, u: nat, one: seq<Hash>, two: seq<Hash>)
    requires Holds(hashes, u, one + two)
    ensures Holds(hashes, u, one) && Holds(hashes, u + |one|, two)
  {
    assert (one + two)[..|one|] == one && (one + two)[|one|..] == two;
  }

  lemma CarriesOne(flags: seq<bv8>, b: nat, bit: bool)
    requires Carries(flags, b, [bit])
    ensures b < 8 * |flags| && BitAt(flags, b) == bit
  {
    assert [bit][0] == bit;
  }

  /** The matched leaves below a node are those below its children. */
  lemma SelectedBelow(leaves: seq<Hash>, matches: seq<bool>, h: nat, pos: nat)
    requires |matches| == |leaves| && pos < Width(|leaves|, h) && h > 0
    ensures Below(leaves, matches, h, pos) == Below(leaves, matches, h - 1, 2 * pos)
      + if 2 * pos + 1 < Width(|leaves|, h - 1) then Below(leaves, matches, h - 1, 2 * pos + 1) else []
  {
    Children(|leaves|, h, pos);
    SelectedSplit(leaves, matches, Start(h, pos), Start(h - 1, 2 * pos + 1), Start(h, pos + 1));
  }

  /** The matched leaves below a node. */
  function Below(leaves: seq<Hash>, matches: seq<bool>, h: nat, pos: nat): seq<Found>
    requires |matches| == |leaves|
  {
    Selected(leaves, matches, Start(h, pos), Start(h, pos + 1))
  }

  /** What reading the subtree should come to. */
  function Written(leaves: seq<Hash>, matches: seq<bool>, h: nat, pos: nat, b: nat, u: nat): Walk
    requires |matches| == |leaves| && pos < Width(|leaves|, h)
  {
    Walk(Top(leaves, h, pos), b + |BitsOf(matches, h, pos)|, u + |HashesOf(leaves, matches, h, pos)|, false, Below(leaves, matches, h, pos))
  }

  lemma WrittenBoth(leaves: seq<Hash>, matches: seq<bool>, h: nat, pos: nat, b: nat, u: nat)
    requires |matches| == |leaves| && pos < Width(|leaves|, h) && h > 0 && Covers(matches, h, pos)
    requires 2 * pos < Width(|leaves|, h - 1) && 2 * pos + 1 < Width(|leaves|, h - 1)
    ensures var left := Written(leaves, matches, h - 1, 2 * pos, b + 1, u);
      var right := Written(leaves, matches, h - 1, 2 * pos + 1, left.bits, left.hashes);
      Written(leaves, matches, h, pos, b, u) == Walk(Node(left.hash, right.hash), right.bits, right.hashes, false, left.found + right.found)
  {
    hide Width, Top, BitsOf, HashesOf, Below, Covers;
    Opened(leaves, matches, h, pos);
    TopStep(leaves, h, pos);
    SelectedBelow(leaves, matches, h, pos);
  }

  lemma WrittenOne(leaves: seq<Hash>, matches: seq<bool>, h: nat, pos: nat, b: nat, u: nat)
    requires |matches| == |leaves| && pos < Width(|leaves|, h) && h > 0 && Covers(matches, h, pos)
    requires 2 * pos < Width(|leaves|, h - 1) && 2 * pos + 1 >= Width(|leaves|, h - 1)
    ensures var left := Written(leaves, matches, h - 1, 2 * pos, b + 1, u);
      Written(leaves, matches, h, pos, b, u) == Walk(Node(left.hash, left.hash), left.bits, left.hashes, false, left.found)
  {
    hide Width, Top, BitsOf, HashesOf, Below, Covers;
    Opened(leaves, matches, h, pos);
    TopStep(leaves, h, pos);
    SelectedBelow(leaves, matches, h, pos);
  }

  /** Reading what was written for a subtree gives back its hash and exactly its matched leaves. */
  lemma {:induction false} DecodeEncoded(leaves: seq<Hash>, matches: seq<bool>, flags: seq<bv8>, hashes: seq<Hash>,
      h: nat, pos: nat, b: nat, u: nat)
    requires |matches| == |leaves| && Distinct(leaves) && pos < Width(|leaves|, h)
    requires Carries(flags, b, BitsOf(matches, h, pos)) && Holds(hashes, u, HashesOf(leaves, matches, h, pos))
    ensures Decode(flags, hashes, |leaves|, h, pos, b, u) == Written(leaves, matches, h, pos, b, u)
  {
    hide Width, Top, BitsOf, HashesOf, Below, Carries, Holds, Covers, Decode, Distinct, BitAt;
    if h == 0 || !Covers(matches, h, pos) {
      DecodeClosed(leaves, matches, flags, hashes, h, pos, b, u);
    } else {
      var n := |leaves|;
      Opened(leaves, matches, h, pos);
      var more := 2 * pos + 1 < Width(n, h - 1);
      var bits := BitsOf(matches, h - 1, 2 * pos);
      var part := HashesOf(leaves, matches, h - 1, 2 * pos);
      var restBits := if more then BitsOf(matches, h - 1, 2 * pos + 1) else [];
      var rest := if more then HashesOf(leaves, matches, h - 1, 2 * pos + 1) else [];
      CarriesParts(flags, b, [true], bits + restBits);
      CarriesOne(flags, b, true);
      CarriesParts(flags, b + 1, bits, restBits);
      HoldsParts(hashes, u, part, rest);
      DecodeEncoded(leaves, matches, flags, hashes, h - 1, 2 * pos, b + 1, u);
      DecodeOpen(flags, hashes, n, h, pos, b, u, Decode(flags, hashes, n, h - 1, 2 * pos, b + 1, u));
      if more {
        DecodeEncoded(leaves, matches, flags, hashes, h - 1, 2 * pos + 1, b + 1 + |bits|, u + |part|);
        TopDistinct(leaves, h - 1, 2 * pos, 2 * pos + 1);
        WrittenBoth(leaves, matches, h, pos, b, u);
      } else {
        WrittenOne(leaves, matches, h, pos, b, u);
      }
    }
  }

  lemma DecodeClosed(leaves: seq<Hash>, matches: seq<bool>, flags: seq<bv8>, hashes: seq<Hash>,
      h: nat, pos: nat, b: nat, u: nat)
    requires |matches| == |leaves| && pos < Width(|leaves|, h) && (h == 0 || !Covers(matches, h, pos))
    requires Carries(flags, b, BitsOf(matches, h, pos)) && Holds(hashes, u, HashesOf(leaves, matches, h, pos))
    ensures Decode(flags, hashes, |leaves|, h, pos, b, u) == Written(leaves, matches, h, pos, b, u)
  {
    CarriesOne(flags, b, Covers(matches, h, pos));
    assert hashes[u..u + 1][0] == Top(leaves, h, pos);
    InWidth(|leaves|, h, pos);
    if h == 0 {
      assert Selected(leaves, matches, pos + 1, pos + 1) == [];
      assert Covers(matches, 0, pos) <==> matches[pos];
    } else {
      SelectedNone(leaves, matches, Start(h, pos), Start(h, pos + 1));
    }
  }

  /** Reported leaves are real and come in increasing order. */
  predicate Real(leaves: seq<Hash>, found: seq<Found>, from: nat, to: nat) {
    && (forall i :: 0 <= i < |found| ==>
         from <= found[i].pos < to && found[i].pos < |leaves| && found[i].hash == leaves[found[i].pos])
    && (forall i, j :: 0 <= i < j < |found| ==> found[i].pos < found[j].pos)
  }

  /** Whatever the flags and hashes are, a reading that ends in the true node reports only leaves
      that are there. */
  lemma {:induction false} DecodeSound(leaves: seq<Hash>, flags: seq<bv8>, hashes: seq<Hash>, h: nat, pos: nat,
      b: nat, u: nat)
    requires pos < Width(|leaves|, h)
    requires var w := Decode(flags, hashes, |leaves|, h, pos, b, u); !w.failed && w.hash == Top(leaves, h, pos)
    ensures Real(leaves, Decode(flags, hashes, |leaves|, h, pos, b, u).found, Start(h, pos), Start(h, pos + 1))
  {
    hide Width, Top, Real, Start, BitAt;
    if h == 0 || !BitAt(flags, b) {
      DecodeSoundClosed(leaves, flags, hashes, h, pos, b, u);
    } else {
      Children(|leaves|, h, pos);
      TopStep(leaves, h, pos);
      var left := Decode(flags, hashes, |leaves|, h - 1, 2 * pos, b + 1, u);
      DecodeSound(leaves, flags, hashes, h - 1, 2 * pos, b + 1, u);
      if 2 * pos + 1 < Width(|leaves|, h - 1) {
        var right := Decode(flags, hashes, |leaves|, h - 1, 2 * pos + 1, left.bits, left.hashes);
        DecodeSound(leaves, flags, hashes, h - 1, 2 * pos + 1, left.bits, left.hashes);
        RealJoin(leaves, left.found, right.found, Start(h, pos), Start(h - 1, 2 * pos + 1), Start(h, pos + 1));
      } else {
        RealJoin(leaves, left.found, [], Start(h, pos), Start(h - 1, 2 * pos + 1), Start(h, pos + 1));
      }
    }
  }

  lemma DecodeSoundClosed(leaves: seq<Hash>, flags: seq<bv8>, hashes: seq<Hash>, h: nat, pos: nat, b: nat, u: nat)
    requires pos < Width(|leaves|, h) && b < 8 * |flags| && (h == 0 || !BitAt(flags, b))
    requires var w := Decode(flags, hashes, |leaves|, h, pos, b, u); !w.failed && w.hash == Top(leaves, h, pos)
    ensures Real(leaves, Decode(flags, hashes, |leaves|, h, pos, b, u).found, Start(h, pos), Start(h, pos + 1))
  {
    InWidth(|leaves|, h, pos);
  }

  lemma RealJoin(leaves: seq<Hash>, one: seq<Found>, two: seq<Found>, from: nat, mid: nat, to: nat)
    requires Real(leaves, one, from, mid) && (two == [] || Real(leaves, two, mid, to)) && from <= mid <= to
    ensures Real(leaves, one, from, to) && Real(leaves, one + two, from, to)
  {}
}
