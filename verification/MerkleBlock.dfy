/** Merkle blocks: writing and reading partial merkle trees (src/primitives/merkleblock.js). */
module MerkleBlock {
  import opened Primitives
  import opened Arithmetic
  import opened Merkle
  import opened PartialMerkle
  import opened MerkleNodes

  const MAX_BLOCK_SIZE: nat := 1000000

  datatype MerkleBlock = MerkleBlock(totalTX: nat, hashes: seq<Hash>, flags: seq<bv8>)

  datatype PartialTree = PartialTree(root: Hash, matches: seq<Hash>, indexes: seq<nat>, map_: map<Hash, nat>)

  datatype Fault = ZeroTransactions | TooManyTransactions | TooManyHashes | FlagsTooSmall | Mutated | TooManyFlagBits | WrongHashCount

  datatype Extraction = Extracted(tree: PartialTree) | Failed(fault: Fault)

  // ----- flag bytes

  function Mask(k: nat): bv8
    requires k < 8
  {
    1 << k
  }

  lemma SetBit(x: bv8, k: nat, j: nat)
    requires k < 8 && j < 8
    ensures Bit(x | Mask(k), j) <==> j == k || Bit(x, j)
  {
    if j == k {
      SetSame(x, k);
    } else {
      SetOther(x, k, j);
    }
  }

  lemma SetSame(x: bv8, k: nat)
    requires k < 8
    ensures Bit(x | Mask(k), k)
  {}

  lemma SetOther(x: bv8, k: nat, j: nat)
    requires k < 8 && j < 8 && j != k
    ensures Bit(x | Mask(k), j) <==> Bit(x, j)
  {}

  /** The first `p` bits are set as given, all others are clear. */
  ghost predicate Packed(flags: seq<bv8>, bits: seq<bool>, p: nat)
    requires p <= |bits|
  {
    forall q :: 0 <= q < 8 * |flags| ==> BitAt(flags, q) == (q < p && bits[q])
  }

  lemma PackStep(flags: seq<bv8>, bits: seq<bool>, p: nat, next: seq<bv8>)
    requires p < |bits| && p < 8 * |flags| && Packed(flags, bits, p)
    requires next == flags[p / 8 := flags[p / 8] | if bits[p] then Mask(p % 8) else 0]
    ensures Packed(next, bits, p + 1)
  {
    hide Bit, Mask;
    forall q | 0 <= q < 8 * |next| ensures BitAt(next, q) == (q < p + 1 && bits[q]) {
      PackBit(flags, bits, p, next, q);
    }
  }

  lemma PackBit(flags: seq<bv8>, bits: seq<bool>, p: nat, next: seq<bv8>, q: nat)
    requires p < |bits| && p < 8 * |flags| && q < 8 * |flags| && Packed(flags, bits, p)
    requires next == flags[p / 8 := flags[p / 8] | if bits[p] then Mask(p % 8) else 0]
    ensures BitAt(next, q) == (q < p + 1 && bits[q])
  {
    hide Bit, Mask;
    assert BitAt(flags, q) == (q < p && bits[q]);
    if bits[p] {
      SetBit(flags[p / 8], p % 8, q % 8);
    } else {
      OrNothing(flags[p / 8]);
    }
  }

  lemma OrNothing(x: bv8)
    ensures x | 0 == x
  {}

  /** The flag bits in bytes, lowest bit first; what is left of the last byte is zero. */
  method PackFlags(bits: seq<bool>) returns (flags: seq<bv8>)
    ensures |flags| == (|bits| + 7) / 8 && Packed(flags, bits, |bits|)
  {
    hide Bit, Mask;
    var bytes := new bv8[(|bits| + 7) / 8](_ => 0);
    NoBits(bytes[..], bits);
    hide Packed;
    for p := 0 to |bits|
      invariant Packed(bytes[..], bits, p)
    {
      ghost var before := bytes[..];
      bytes[p / 8] := bytes[p / 8] | if bits[p] then Mask(p % 8) else 0;
      PackStep(before, bits, p, bytes[..]);
    }
    flags := bytes[..];
  }

  lemma NoBits(flags: seq<bv8>, bits: seq<bool>)
    requires forall i :: 0 <= i < |flags| ==> flags[i] == 0
    ensures Packed(flags, bits, 0)
  {
    forall q | 0 <= q < 8 * |flags| ensures !BitAt(flags, q) {
      ZeroBit(q % 8);
    }
  }

  lemma ZeroBit(k: nat)
    requires k < 8
    ensures !Bit(0, k)
  {}

  // ----- writing

  class Encoder {
    const leaves: seq<Hash>
    const matched: seq<bool>
    var bits: seq<bool>
    var hashes: seq<Hash>

    constructor (leaves: seq<Hash>, matched: seq<bool>)
      ensures this.leaves == leaves && this.matched == matched && bits == [] && hashes == []
    {
      this.leaves := leaves;
      this.matched := matched;
      bits := [];
      hashes := [];
    }

    method Traverse(h: nat, pos: nat)
      requires |matched| == |leaves| && pos < Width(|leaves|, h)
      modifies this
      ensures bits == old(bits) + BitsOf(matched, h, pos)
      ensures hashes == old(hashes) + HashesOf(leaves, matched, h, pos)
      decreases h
    {
      hide Width, Start, Top, BitsOf, HashesOf, Covers;
      var parent := AnyBelow(h, pos);
      Unopened(leaves, matched, h, pos);
      bits := bits + [parent];
      if h == 0 || !parent {
        hashes := hashes + [Top(leaves, h, pos)];
        return;
      }
      Opened(leaves, matched, h, pos);
      Traverse(h - 1, 2 * pos);
      if 2 * pos + 1 < Width(|leaves|, h - 1) {
        Traverse(h - 1, 2 * pos + 1);
        Grouped(old(bits), [true], BitsOf(matched, h - 1, 2 * pos), BitsOf(matched, h - 1, 2 * pos + 1));
        Grouped(old(hashes), [], HashesOf(leaves, matched, h - 1, 2 * pos),
          HashesOf(leaves, matched, h - 1, 2 * pos + 1));
      } else {
        Grouped(old(bits), [true], BitsOf(matched, h - 1, 2 * pos), []);
        Grouped(old(hashes), [], HashesOf(leaves, matched, h - 1, 2 * pos), []);
      }
    }

    /** Whether a leaf below the node is matched. */
    method AnyBelow(h: nat, pos: nat) returns (parent: bool)
      requires |matched| == |leaves|
      ensures parent == Covers(matched, h, pos)
      ensures parent <==> Matches(matched, Spot(h, pos))
    {
      CoversIs(matched, h, pos);
      InWidth(|leaves|, h, pos);
      parent := false;
      var p := Start(h, pos);
      while p < Start(h, pos + 1) && p < |leaves|
        invariant Start(h, pos) <= p <= Start(h, pos + 1)
        invariant parent == AnyMatch(matched, Start(h, pos), p)
      {
        parent := parent || matched[p];
        p := p + 1;
      }
    }
  }

  lemma Grouped<T>(a: seq<T>, b: seq<T>, c: seq<T>, d: seq<T>)
    ensures a + b + c + d == a + (b + (c + d)) && a + b + c == a + (b + c) && [] + c == c && c + [] == c
    ensures a + c + d == a + (c + d)
  {}

  lemma Unopened(leaves: seq<Hash>, matched: seq<bool>, h: nat, pos: nat)
    requires |matched| == |leaves| && pos < Width(|leaves|, h)
    ensures h == 0 || !Covers(matched, h, pos) ==>
      BitsOf(matched, h, pos) == [Covers(matched, h, pos)] && HashesOf(leaves, matched, h, pos) == [Top(leaves, h, pos)]
  {}

  /** Smallest height with a single node. */
  method FullHeight(n: nat) returns (h: nat)
    ensures h == Depth(n)
  {
    h := 0;
    while Width(n, h) > 1
      invariant Depth(n) == h + Depth(Width(n, h))
      decreases Width(n, h)
    {
      WidthStep(n, h);
      h := h + 1;
    }
  }

  /** `m` is the merkle block of the leaves that shows those matched. */
  ghost predicate Shows(m: MerkleBlock, leaves: seq<Hash>, matched: seq<bool>)
    requires leaves != [] && |matched| == |leaves|
  {
    RootIsTop(leaves);
    var bits := BitsOf(matched, Depth(|leaves|), 0);
    && m.totalTX == |leaves|
    && m.hashes == HashesOf(leaves, matched, Depth(|leaves|), 0)
    && |m.flags| == (|bits| + 7) / 8
    && Carries(m.flags, 0, bits)
    && forall p :: |bits| <= p < 8 * |m.flags| ==> !BitAt(m.flags, p)
  }

  /** `m` holds a flag for every node visited, set where a leaf below is matched, and a hash for every
      node sent, in order; what is left of the last byte is clear. */
  ghost predicate Carried(m: MerkleBlock, leaves: seq<Hash>, matched: seq<bool>, top: nat) {
    var root := Spot(top, 0);
    && m.totalTX == |leaves| == |matched|
    && (exists bits, spots :: Flagged(bits, matched, root, spots) && |m.flags| == (|bits| + 7) / 8 && Spelled(m.flags, bits))
    && (exists spots :: Hashed(m.hashes, leaves, matched, root, spots))
  }

  predicate Spelled(flags: seq<bv8>, bits: seq<bool>) {
    forall p :: 0 <= p < 8 * |flags| ==> (BitAt(flags, p) <==> p < |bits| && bits[p])
  }

  lemma ShowsCarried(m: MerkleBlock, leaves: seq<Hash>, matched: seq<bool>)
    requires leaves != [] && |matched| == |leaves| && Shows(m, leaves, matched)
    ensures Carried(m, leaves, matched, Depth(|leaves|))
  {
    hide Flagged, Hashed, BitsOf, HashesOf, Width, Top, Bit;
    RootIsTop(leaves);
    DepthIs(|leaves|);
    WrittenExactly(leaves, matched, Depth(|leaves|));
    assert Spelled(m.flags, BitsOf(matched, Depth(|leaves|), 0));
  }

  /** The root lies at the first height with room for all leaves. */
  lemma {:induction false} DepthIs(n: nat)
    requires n > 0
    ensures n <= Pow2(Depth(n)) && (n > 1 ==> Pow2(Depth(n) - 1) < n)
  {
    if n > 1 {
      DepthIs((n + 1) / 2);
    }
  }

  /** With nothing matched, the root is all there is, and its flag is clear. */
  lemma NothingMatched(m: MerkleBlock, leaves: seq<Hash>, matched: seq<bool>)
    requires leaves != [] && |matched| == |leaves| && Shows(m, leaves, matched)
    requires forall p :: 0 <= p < |matched| ==> !matched[p]
    ensures m.hashes == [Root(leaves)] && m.flags == [0]
  {
    hide Width, Top;
    RootIsTop(leaves);
    Unopened(leaves, matched, Depth(|leaves|), 0);
    assert !Covers(matched, Depth(|leaves|), 0);
    CarriesOne(m.flags, 0, false);
    forall k | 0 <= k < 8 ensures !Bit(m.flags[0], k) {
      assert !BitAt(m.flags, k);
    }
    AllClear(m.flags[0]);
  }

  lemma AllClear(x: bv8)
    requires forall k :: 0 <= k < 8 ==> !Bit(x, k)
    ensures x == 0
  {
    assert !Bit(x, 0) && !Bit(x, 1) && !Bit(x, 2) && !Bit(x, 3) && !Bit(x, 4) && !Bit(x, 5) && !Bit(x, 6) && !Bit(x, 7);
  }

  /** Every transaction comes with a match flag; a block has at least its coinbase. */
  method FromMatches(leaves: seq<Hash>, matched: seq<bool>) returns (m: MerkleBlock)
    requires leaves != [] && |matched| == |leaves|
    ensures Shows(m, leaves, matched) && Carried(m, leaves, matched, Depth(|leaves|))
  {
    hide Width, Top, BitsOf, HashesOf, Packed, Shows, Bit, Carried;
    var encoder := new Encoder(leaves, matched);
    var h := FullHeight(|leaves|);
    RootIsTop(leaves);
    encoder.Traverse(h, 0);
    assert encoder.bits == BitsOf(matched, h, 0) && encoder.hashes == HashesOf(leaves, matched, h, 0);
    var flags := PackFlags(encoder.bits);
    m := MerkleBlock(|leaves|, encoder.hashes, flags);
    ItShows(m, leaves, matched);
    ShowsCarried(m, leaves, matched);
  }

  lemma ItShows(m: MerkleBlock, leaves: seq<Hash>, matched: seq<bool>)
    requires leaves != [] && |matched| == |leaves| && m.totalTX == |leaves| && Width(|leaves|, Depth(|leaves|)) == 1
    requires m.hashes == HashesOf(leaves, matched, Depth(|leaves|), 0)
    requires var bits := BitsOf(matched, Depth(|leaves|), 0); |m.flags| == (|bits| + 7) / 8 && Packed(m.flags, bits, |bits|)
    ensures Shows(m, leaves, matched)
  {
    hide Width, BitsOf, HashesOf, Bit;
  }

  // ----- reading

  function Positions(found: seq<Found>): (r: seq<nat>)
    ensures |r| == |found| && forall i :: 0 <= i < |r| ==> r[i] == found[i].pos
  {
    seq(|found|, i requires 0 <= i < |found| => found[i].pos)
  }

  function Hashes(found: seq<Found>): (r: seq<Hash>)
    ensures |r| == |found| && forall i :: 0 <= i < |r| ==> r[i] == found[i].hash
  {
    seq(|found|, i requires 0 <= i < |found| => found[i].hash)
  }

  /** Later entries replace earlier ones for the same hash. */
  function PutAll(m: map<Hash, nat>, found: seq<Found>): map<Hash, nat> {
    if found == [] then m
    else PutAll(m, found[..|found| - 1])[found[|found| - 1].hash := found[|found| - 1].pos]
  }

  lemma {:induction false} PutAllTwice(m: map<Hash, nat>, one: seq<Found>, two: seq<Found>)
    ensures PutAll(PutAll(m, one), two) == PutAll(m, one + two)
    decreases |two|
  {
    if two == [] {
      assert one + two == one;
    } else {
      assert (one + two)[..|one + two| - 1] == one + two[..|two| - 1];
      PutAllTwice(m, one, two[..|two| - 1]);
    }
  }

  /** What a decoder reports: matched hashes, their positions, and the map from one to the other. */
  datatype Report = Report(matches: seq<Hash>, indexes: seq<nat>, map_: map<Hash, nat>) {
    function With(found: seq<Found>): Report {
      Report(matches + Hashes(found), indexes + Positions(found), PutAll(map_, found))
    }
  }

  lemma HashesBoth(one: seq<Found>, two: seq<Found>)
    ensures Hashes(one + two) == Hashes(one) + Hashes(two)
    ensures Positions(one + two) == Positions(one) + Positions(two)
  {}

  lemma ReportBoth(r: Report, one: seq<Found>, two: seq<Found>)
    ensures r.With(one).With(two) == r.With(one + two)
  {
    HashesBoth(one, two);
    hide Hashes, Positions;
    assert r.matches + (Hashes(one) + Hashes(two)) == r.matches + Hashes(one) + Hashes(two);
    assert r.indexes + (Positions(one) + Positions(two)) == r.indexes + Positions(one) + Positions(two);
    PutAllTwice(r.map_, one, two);
  }

  lemma ReportOne(r: Report, pos: nat, hash: Hash)
    ensures r.With([]) == r
    ensures r.With([Found(pos, hash)]) == Report(r.matches + [hash], r.indexes + [pos], r.map_[hash := pos])
  {
    assert [Found(pos, hash)][..0] == [];
    assert PutAll(r.map_, []) == r.map_;
    assert Hashes([Found(pos, hash)]) == [hash];
    assert Positions([Found(pos, hash)]) == [pos];
  }

  lemma DecodeShut(flags: seq<bv8>, hashes: seq<Hash>, n: nat, h: nat, pos: nat, b: nat, u: nat)
    ensures b >= 8 * |flags| ==> Decode(flags, hashes, n, h, pos, b, u) == Walk(Zero, b, u, true, [])
    ensures b < 8 * |flags| && (h == 0 || !BitAt(flags, b)) ==>
      Decode(flags, hashes, n, h, pos, b, u) == if u >= |hashes| then Walk(Zero, b + 1, u, true, []) else
        Walk(hashes[u], b + 1, u + 1, false, if h == 0 && BitAt(flags, b) then [Found(pos, hashes[u])] else [])
  {}

  class Decoder {
    const block: MerkleBlock
    var bitsUsed: nat
    var hashUsed: nat
    var failed: bool
    var matches: seq<Hash>
    var indexes: seq<nat>
    var map_: map<Hash, nat>

    constructor (block: MerkleBlock)
      ensures this.block == block && bitsUsed == 0 && hashUsed == 0 && !failed && Reported() == Report([], [], map[])
    {
      this.block := block;
      bitsUsed, hashUsed, failed := 0, 0, false;
      matches, indexes, map_ := [], [], map[];
    }

    ghost function Reported(): Report
      reads this
    {
      Report(matches, indexes, map_)
    }

    method Traverse(h: nat, pos: nat) returns (hash: Hash)
      modifies this
      ensures var w := Decode(block.flags, block.hashes, block.totalTX, h, pos, old(bitsUsed), old(hashUsed));
        && hash == w.hash && bitsUsed == w.bits && hashUsed == w.hashes && failed == (old(failed) || w.failed)
        && Reported() == old(Reported()).With(w.found)
      decreases h
    {
      hide Width, BitAt, Decode, Report.With;
      ghost var b, u, so := bitsUsed, hashUsed, Reported();
      DecodeShut(block.flags, block.hashes, block.totalTX, h, pos, b, u);
      ReportOne(so, pos, if u < |block.hashes| then block.hashes[u] else Zero);
      if bitsUsed >= |block.flags| * 8 {
        failed := true;
        return Zero;
      }
      var parent := BitAt(block.flags, bitsUsed);
      bitsUsed := bitsUsed + 1;
      if h == 0 || !parent {
        if hashUsed >= |block.hashes| {
          failed := true;
          return Zero;
        }
        hash := block.hashes[hashUsed];
        hashUsed := hashUsed + 1;
        if h == 0 && parent {
          matches := matches + [hash];
          indexes := indexes + [pos];
          map_ := map_[hash := pos];
        }
        return;
      }
      ghost var one := Decode(block.flags, block.hashes, block.totalTX, h - 1, 2 * pos, b + 1, u);
      DecodeOpen(block.flags, block.hashes, block.totalTX, h, pos, b, u, one);
      var left := Traverse(h - 1, 2 * pos);
      var right;
      if 2 * pos + 1 < Width(block.totalTX, h - 1) {
        ghost var two := Decode(block.flags, block.hashes, block.totalTX, h - 1, 2 * pos + 1, one.bits, one.hashes);
        ReportBoth(so, one.found, two.found);
        right := Traverse(h - 1, 2 * pos + 1);
        if right == left {
          failed := true;
        }
      } else {
        right := left;
      }
      return Node(left, right);
    }
  }

  /** What reading the whole merkle block comes to. */
  function Extract(m: MerkleBlock): Extraction {
    if m.totalTX == 0 then Failed(ZeroTransactions)
    else if m.totalTX * 60 > MAX_BLOCK_SIZE then Failed(TooManyTransactions)
    else if |m.hashes| > m.totalTX then Failed(TooManyHashes)
    else if |m.flags| * 8 < |m.hashes| then Failed(FlagsTooSmall)
    else
      var w := Decode(m.flags, m.hashes, m.totalTX, Depth(m.totalTX), 0, 0, 0);
      if w.failed then Failed(Mutated)
      else if (w.bits + 7) / 8 != |m.flags| then Failed(TooManyFlagBits)
      else if w.hashes != |m.hashes| then Failed(WrongHashCount)
      else Extracted(PartialTree(w.hash, Hashes(w.found), Positions(w.found), PutAll(map[], w.found)))
  }

  method ExtractTree(m: MerkleBlock) returns (r: Extraction)
    ensures r == Extract(m)
  {
    hide Decode;
    if m.totalTX == 0 {
      return Failed(ZeroTransactions);
    }
    if m.totalTX * 60 > MAX_BLOCK_SIZE {
      return Failed(TooManyTransactions);
    }
    if |m.hashes| > m.totalTX {
      return Failed(TooManyHashes);
    }
    if |m.flags| * 8 < |m.hashes| {
      return Failed(FlagsTooSmall);
    }
    var decoder := new Decoder(m);
    var h := FullHeight(m.totalTX);
    var root := decoder.Traverse(h, 0);
    if decoder.failed {
      return Failed(Mutated);
    }
    if (decoder.bitsUsed + 7) / 8 != |m.flags| {
      return Failed(TooManyFlagBits);
    }
    if decoder.hashUsed != |m.hashes| {
      return Failed(WrongHashCount);
    }
    return Extracted(PartialTree(root, decoder.matches, decoder.indexes, decoder.map_));
  }

  // ----- the two together

  /** Reading a merkle block gives back the true root and exactly the matched leaves, in order, unless
      there are more leaves than a reader accepts. */
  lemma ExtractUndoesFromMatches(m: MerkleBlock, leaves: seq<Hash>, matched: seq<bool>)
    requires leaves != [] && |matched| == |leaves| && Distinct(leaves) && Shows(m, leaves, matched)
    ensures var found := Selected(leaves, matched, 0, |leaves|);
      Extract(m) == if |leaves| * 60 > MAX_BLOCK_SIZE then Failed(TooManyTransactions)
        else Extracted(PartialTree(Root(leaves), Hashes(found), Positions(found), PutAll(map[], found)))
  {
    hide Decode, BitsOf, HashesOf, Width, Top, Carries, Shows, Selected, Hashes, Positions, PutAll, Distinct, Depth;
    hide Below;
    var h := Depth(|leaves|);
    RootIsTop(leaves);
    ShowsParts(m, leaves, matched);
    Budgets(leaves, matched, h, 0);
    DecodeEncoded(leaves, matched, m.flags, m.hashes, h, 0, 0, 0);
    BelowRoot(leaves, matched);
  }

  lemma ShowsParts(m: MerkleBlock, leaves: seq<Hash>, matched: seq<bool>)
    requires leaves != [] && |matched| == |leaves| && Shows(m, leaves, matched)
    ensures 0 < Width(|leaves|, Depth(|leaves|)) && m.totalTX == |leaves|
    ensures m.hashes == HashesOf(leaves, matched, Depth(|leaves|), 0) && Holds(m.hashes, 0, m.hashes)
    ensures var bits := BitsOf(matched, Depth(|leaves|), 0); |m.flags| == (|bits| + 7) / 8 && Carries(m.flags, 0, bits)
  {
    hide BitsOf, HashesOf, Width, Top, Carries;
    RootIsTop(leaves);
  }

  lemma BelowRoot(leaves: seq<Hash>, matched: seq<bool>)
    requires leaves != [] && |matched| == |leaves|
    ensures Below(leaves, matched, Depth(|leaves|), 0) == Selected(leaves, matched, 0, |leaves|)
  {
    hide Width, Top;
    var n, h := |leaves|, Depth(|leaves|);
    RootIsTop(leaves);
    StartZero(h);
    InWidth(n, h, 1);
    SelectedSplit(leaves, matched, 0, n, Start(h, 1));
    assert Selected(leaves, matched, n, Start(h, 1)) == [];
  }

  lemma {:induction false} StartZero(h: nat)
    ensures Start(h, 0) == 0
  {
    if h > 0 { StartZero(h - 1); }
  }

  /** Position `p` is reported exactly when its leaf is matched. */
  lemma {:induction false} SelectedExactly(leaves: seq<Hash>, matched: seq<bool>, from: nat, to: nat, f: Found)
    requires |matched| == |leaves|
    ensures f in Selected(leaves, matched, from, to)
      <==> from <= f.pos < to && f.pos < |leaves| && matched[f.pos] && f.hash == leaves[f.pos]
    decreases if from < to then to - from else 0
  {
    if from < to && from < |leaves| { SelectedExactly(leaves, matched, from + 1, to, f); }
  }

  /** Whatever a peer sends, a merkle block that claims the right number of transactions and leads
      to the root of the block reports only transactions of the block, at their own positions and
      in increasing order. */
  lemma ExtractSound(m: MerkleBlock, leaves: seq<Hash>)
    requires leaves != [] && m.totalTX == |leaves|
    requires Extract(m).Extracted? && Extract(m).tree.root == Root(leaves)
    ensures var t := Extract(m).tree;
      && |t.matches| == |t.indexes|
      && (forall i :: 0 <= i < |t.matches| ==> t.indexes[i] < |leaves| && t.matches[i] == leaves[t.indexes[i]])
      && (forall i, j :: 0 <= i < j < |t.indexes| ==> t.indexes[i] < t.indexes[j])
  {
    hide Decode, Top, Width;
    RootIsTop(leaves);
    DecodeSound(leaves, m.flags, m.hashes, Depth(|leaves|), 0, 0, 0);
  }

  // ----- nothing may be left over

  lemma FlagsBefore(flags: seq<bv8>, f: bv8, b: nat)
    requires b < 8 * |flags|
    ensures BitAt(flags + [f], b) == BitAt(flags, b)
  {
    assert (flags + [f])[b / 8] == flags[b / 8];
  }

  /** A reading that goes well does not look beyond what it uses. */
  lemma {:induction false} ReadsNoMore(flags: seq<bv8>, hashes: seq<Hash>, f: bv8, x: Hash, n: nat, h: nat, pos: nat, b: nat, u: nat)
    requires !Decode(flags, hashes, n, h, pos, b, u).failed
    ensures Decode(flags, hashes + [x], n, h, pos, b, u) == Decode(flags, hashes, n, h, pos, b, u)
    ensures Decode(flags + [f], hashes, n, h, pos, b, u) == Decode(flags, hashes, n, h, pos, b, u)
    decreases h
  {
    hide BitAt, Width;
    FlagsBefore(flags, f, b);
    if h > 0 && BitAt(flags, b) {
      var left := Decode(flags, hashes, n, h - 1, 2 * pos, b + 1, u);
      ReadsNoMore(flags, hashes, f, x, n, h - 1, 2 * pos, b + 1, u);
      if 2 * pos + 1 < Width(n, h - 1) {
        ReadsNoMore(flags, hashes, f, x, n, h - 1, 2 * pos + 1, left.bits, left.hashes);
      }
    }
  }

  /** To a merkle block that is accepted, no hash and no flag byte can be added. */
  lemma NothingLeftOver(m: MerkleBlock, x: Hash, f: bv8)
    requires Extract(m).Extracted?
    ensures Extract(m.(hashes := m.hashes + [x])) in {Failed(TooManyHashes), Failed(FlagsTooSmall), Failed(WrongHashCount)}
    ensures Extract(m.(flags := m.flags + [f])) == Failed(TooManyFlagBits)
  {
    hide Decode;
    ReadsNoMore(m.flags, m.hashes, f, x, m.totalTX, Depth(m.totalTX), 0, 0, 0);
  }

  /** Two equal transactions side by side are refused, and so is a block of none. */
  lemma TwinsRefused(x: Hash)
    ensures Extract(MerkleBlock(2, [x, x], [7])) == Failed(Mutated)
    ensures Extract(MerkleBlock(0, [x], [1])) == Failed(ZeroTransactions)
    ensures Extract(MerkleBlock(16667, [x], [1])) == Failed(TooManyTransactions)
  {
    var m := MerkleBlock(2, [x, x], [7]);
    LowBits();
    assert Width(2, 0) == 2 && Depth(2) == 1;
    assert Decode(m.flags, m.hashes, 2, 0, 0, 1, 0).hash == x;
    assert Decode(m.flags, m.hashes, 2, 0, 1, 2, 1).hash == x;
  }

  lemma LowBits()
    ensures BitAt([7], 0) && BitAt([7], 1) && BitAt([7], 2)
  {
    assert Bit(7, 0) && Bit(7, 1) && Bit(7, 2);
  }
}
