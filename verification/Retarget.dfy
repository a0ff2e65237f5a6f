/** Difficulty adjustment (src/blockchain/chain.js). */
module Retarget {
  import opened Primitives
  import opened Compact
  import opened Arithmetic

  /** Proof-of-work parameters of a network. `bits` is the compact form of the easiest target. */
  datatype Pow = Pow(limit: nat, bits: Word, targetTimespan: nat, targetSpacing: nat, retargetInterval: nat,
                     targetReset: bool, noRetargeting: bool)

  predicate Sensible(pow: Pow) {
    pow.targetTimespan > 0 && pow.retargetInterval > 0 && 0 <= FromCompact(pow.bits) <= pow.limit
  }

  /** The time a window took, kept between a quarter of the planned time and four times it. */
  function Clamped(actual: int, planned: nat): (r: nat)
    ensures r <= 4 * planned
  {
    if 4 * actual < planned then planned / 4
    else if actual > 4 * planned then 4 * planned
    else actual
  }

  /** The target in proportion to the time taken. */
  function Scaled(target: nat, timespan: nat, planned: nat): nat
    requires planned > 0
  {
    ProductNonNegative(target, timespan);
    target * timespan / planned
  }

  lemma ProductNonNegative(a: nat, b: nat)
    ensures a * b >= 0
  {}

  method Retarget(prev: Block, first: Block, pow: Pow) returns (bits: Word)
    requires Sensible(pow) && 0 <= FromCompact(prev.bits)
    ensures bits == NextBits(prev, first, pow)
    ensures if pow.noRetargeting then bits == prev.bits
      else Adjusted(FromCompact(prev.bits), prev.time - first.time, bits, pow)
  {
    hide Adjusted;
    if pow.noRetargeting {
      return prev.bits;
    }
    RetargetAdjusts(prev, first, pow);
    var target := FromCompact(prev.bits);
    var actualTimespan := prev.time - first.time;
    if 4 * actualTimespan < pow.targetTimespan {
      actualTimespan := pow.targetTimespan / 4;
    }
    if actualTimespan > pow.targetTimespan * 4 {
      actualTimespan := pow.targetTimespan * 4;
    }
    target := Scaled(target, actualTimespan, pow.targetTimespan);
    if target > pow.limit {
      return pow.bits;
    }
    return ToCompact(target);
  }

  function NextBits(prev: Block, first: Block, pow: Pow): Word
    requires Sensible(pow) && 0 <= FromCompact(prev.bits)
  {
    if pow.noRetargeting then prev.bits
    else
      var target := Scaled(FromCompact(prev.bits), Clamped(prev.time - first.time, pow.targetTimespan), pow.targetTimespan);
      if target > pow.limit then pow.bits else ToCompact(target)
  }

  lemma ScaledBound(target: nat, timespan: nat, planned: nat)
    requires planned > 0 && timespan <= 4 * planned
    ensures Scaled(target, timespan, planned) <= 4 * target
  {
    assert target * timespan <= target * (4 * planned) == 4 * target * planned;
    QuotientAtMost(target * timespan, 4 * target, planned);
  }

  /** Whatever the times say, the next target is no easier than the limit, when the old one is not,
      and never more than four times the old one. */
  lemma NextBitsBounded(prev: Block, first: Block, pow: Pow)
    requires Sensible(pow) && 0 <= FromCompact(prev.bits)
    ensures 0 <= FromCompact(NextBits(prev, first, pow)) <= 4 * FromCompact(prev.bits)
    ensures FromCompact(prev.bits) <= pow.limit ==> FromCompact(NextBits(prev, first, pow)) <= pow.limit
  {
    hide FromCompact, ToCompact, Scaled;
    var timespan := Clamped(prev.time - first.time, pow.targetTimespan);
    ScaledBound(FromCompact(prev.bits), timespan, pow.targetTimespan);
    var target := Scaled(FromCompact(prev.bits), timespan, pow.targetTimespan);
    if target > 0 { Accuracy(target); } else { ZeroTarget(); }
  }

  lemma ZeroTarget()
    ensures FromCompact(ToCompact(0)) == 0
  {}

  // ----- what a retarget comes to

  /** The bits `next` stand for `product / planned`, rounded down by less than 2^-15, or are the easiest. */
  ghost predicate Rescaled(product: nat, next: Word, pow: Pow) {
    var planned, r := pow.targetTimespan, FromCompact(next);
    if product >= (pow.limit + 1) * planned then next == pow.bits
    else
      && 0 <= r * planned <= product
      && (pow.limit < OVERFLOW ==> 0x7fff * (product - planned) < 0x8000 * (r * planned))
  }

  /** The target moves in proportion to the time the window took, which counts as a quarter of the plan
      at least and as four times the plan at most. */
  ghost predicate Adjusted(was: nat, actual: int, next: Word, pow: Pow) {
    var planned := pow.targetTimespan;
    && (planned <= 4 * actual && actual <= 4 * planned ==> Rescaled(was * actual, next, pow))
    && (4 * actual < planned ==> Rescaled(was * (planned / 4), next, pow))
    && (actual > 4 * planned ==> Rescaled(was * (4 * planned), next, pow))
  }

  lemma RetargetAdjusts(prev: Block, first: Block, pow: Pow)
    requires Sensible(pow) && 0 <= FromCompact(prev.bits) && !pow.noRetargeting
    ensures Adjusted(FromCompact(prev.bits), prev.time - first.time, NextBits(prev, first, pow), pow)
  {
    hide FromCompact, ToCompact, Rescaled;
    EncodedRescales(FromCompact(prev.bits), Clamped(prev.time - first.time, pow.targetTimespan), pow);
  }

  lemma EncodedRescales(was: nat, span: nat, pow: Pow)
    requires Sensible(pow) && was * span >= 0
    ensures var q := Scaled(was, span, pow.targetTimespan);
      Rescaled(was * span, if q > pow.limit then pow.bits else ToCompact(q), pow)
  {
    hide FromCompact, ToCompact, Rescaled;
    var product: nat := was * span;
    QuotientRescales(product, Scaled(was, span, pow.targetTimespan), pow);
  }

  lemma QuotientRescales(product: nat, q: nat, pow: Pow)
    requires Sensible(pow) && q == product / pow.targetTimespan
    ensures Rescaled(product, if q > pow.limit then pow.bits else ToCompact(q), pow)
  {
    hide FromCompact, ToCompact;
    var d := pow.targetTimespan;
    QuotientBounds(product, d);
    PastLimit(product, q, d, pow.limit);
    if q <= pow.limit {
      var r := Decoded(q);
      ProductOrder(r, q, d);
      if pow.limit < OVERFLOW { RoundedProduct(q, r, d, product); }
    }
  }

  lemma PastLimit(product: nat, q: nat, d: nat, limit: nat)
    requires q * d <= product < (q + 1) * d
    ensures product >= (limit + 1) * d <==> q > limit
  {
    if q > limit { ProductOrder(limit + 1, q, d); } else { ProductOrder(q + 1, limit + 1, d); }
  }

  lemma Decoded(q: nat) returns (r: nat)
    ensures r == FromCompact(ToCompact(q)) && r <= q && (q < OVERFLOW ==> 0x7fff * q <= 0x8000 * r)
  {
    hide FromCompact, ToCompact;
    if q == 0 { ZeroTarget(); } else { Accuracy(q); }
    r := FromCompact(ToCompact(q));
  }

  lemma ProductOrder(a: nat, b: nat, d: nat)
    requires a <= b
    ensures a * d <= b * d
  {}

  lemma RoundedProduct(q: nat, r: nat, d: nat, product: nat)
    requires d > 0 && product < (q + 1) * d && 0x7fff * q <= 0x8000 * r
    ensures 0x7fff * (product - d) < 0x8000 * (r * d)
  {
    ProductOrder(0x7fff * q, 0x8000 * r, d);
    assert (q + 1) * d == q * d + d;
    assert 0x7fff * q * d == 0x7fff * (q * d) && 0x8000 * r * d == 0x8000 * (r * d);
  }

  /** A window that took exactly the planned time gives the old target back. */
  lemma OnPlanStays(prev: Block, first: Block, pow: Pow)
    requires Sensible(pow) && 0 <= FromCompact(prev.bits) <= pow.limit && prev.time - first.time == pow.targetTimespan
    ensures FromCompact(NextBits(prev, first, pow)) == FromCompact(prev.bits)
  {
    hide FromCompact, ToCompact;
    QuotientOfProduct(FromCompact(prev.bits), pow.targetTimespan);
    DecodedAgain(prev.bits);
  }

  /** A window that took longer never leads to a harder target, as the easiest bits stand for the limit. */
  lemma LongerIsEasier(prev: Block, first: Block, slow: Block, start: Block, pow: Pow)
    requires Sensible(pow) && 0 <= FromCompact(prev.bits) == FromCompact(slow.bits) && !pow.noRetargeting
    requires pow.limit < OVERFLOW && FromCompact(ToCompact(pow.limit)) <= FromCompact(pow.bits)
    requires prev.time - first.time <= slow.time - start.time
    ensures FromCompact(NextBits(prev, first, pow)) <= FromCompact(NextBits(slow, start, pow))
  {
    hide FromCompact, ToCompact;
    var was, d := FromCompact(prev.bits), pow.targetTimespan;
    var a, b := Clamped(prev.time - first.time, d), Clamped(slow.time - start.time, d);
    ProductOrder(a, b, was);
    assert was * a == a * was && was * b == b * was;
    QuotientGrows(was * a, was * b, d);
    var p, q := Scaled(was, a, d), Scaled(was, b, d);
    if q <= pow.limit {
      Monotone(p, q);
    } else if p <= pow.limit {
      Monotone(p, pow.limit);
    }
  }

  /** The easiest bits of the main network do stand for its limit. */
  lemma MainLimit()
    ensures var limit := Pow2(224) - 1; 0 < FromCompact(486604799) == FromCompact(ToCompact(limit)) <= limit < OVERFLOW
  {
    hide FromCompact, ToCompact, Pow2;
    EasiestBits();
    EasiestTarget();
    Sixteen(208);
    Accuracy(Pow2(224) - 1);
  }

  // ----- the target a block must meet

  /** On networks that allow it, blocks at the easiest target are skipped until one that was set in
      earnest, or the first of its window. */
  function LastEarnest(b: Block, pow: Pow): (r: Block)
    requires pow.retargetInterval > 0
    ensures IsAncestor(r, b)
  {
    if b.prev.Some? && Height(b) % pow.retargetInterval != 0 && b.bits == pow.bits then
      LastEarnest(b.prev.value, pow)
    else b
  }

  /** The bits demanded of a block with this time on top of `prev`. */
  function Demanded(time: int, prev: Block, pow: Pow): Word
    requires Sensible(pow) && 0 <= FromCompact(prev.bits)
  {
    if (Height(prev) + 1) % pow.retargetInterval != 0 then
      if !pow.targetReset then prev.bits
      else if time > prev.time + pow.targetSpacing * 2 then pow.bits
      else LastEarnest(prev, pow).bits
    else
      FirstOfWindow(prev, pow);
      NextBits(prev, Ancestor(prev, Height(prev) - (pow.retargetInterval - 1)), pow)
  }

  lemma FirstOfWindow(prev: Block, pow: Pow)
    requires pow.retargetInterval > 0 && (Height(prev) + 1) % pow.retargetInterval == 0
    ensures Height(prev) >= pow.retargetInterval - 1
  {
    SmallRemainder(Height(prev) + 1, pow.retargetInterval);
  }

  lemma SmallRemainder(n: nat, w: nat)
    requires w > 0
    ensures n < w ==> n % w == n
  {}

  /** `b` carries bits set in earnest: it begins a window, or its bits are not the easiest. */
  predicate Earnest(b: Block, pow: Pow)
    requires pow.retargetInterval > 0
  {
    b.prev.None? || Height(b) % pow.retargetInterval == 0 || b.bits != pow.bits
  }

  /** `e` is the last such block at or below `b`. */
  ghost predicate LastInEarnest(e: Block, b: Block, pow: Pow)
    requires pow.retargetInterval > 0
  {
    && IsAncestor(e, b) && Earnest(e, pow)
    && forall x :: IsAncestor(e, x) && IsAncestor(x, b) && x != e ==> !Earnest(x, pow)
  }

  lemma {:induction false} EarnestIsLast(b: Block, pow: Pow)
    requires pow.retargetInterval > 0
    ensures LastInEarnest(LastEarnest(b, pow), b, pow)
  {
    if Earnest(b, pow) {
      forall x | IsAncestor(b, x) && IsAncestor(x, b) ensures x == b {
        AncestorHeight(b, x);
        AncestorHeight(x, b);
      }
    } else {
      EarnestIsLast(b.prev.value, pow);
    }
  }

  /** What bits a block on `prev` must carry: those of `prev` within a window, on networks with resets the
      easiest after a long wait and otherwise the last set in earnest, and at the end of a window those
      adjusted by the time since its first block. */
  ghost predicate Due(time: int, prev: Block, bits: Word, pow: Pow)
    requires Sensible(pow) && 0 <= FromCompact(prev.bits)
  {
    var w := pow.retargetInterval;
    if (Height(prev) + 1) % w != 0 then
      && (!pow.targetReset ==> bits == prev.bits)
      && (pow.targetReset && time > prev.time + 2 * pow.targetSpacing ==> bits == pow.bits)
      && (pow.targetReset && time <= prev.time + 2 * pow.targetSpacing ==>
        exists e :: LastInEarnest(e, prev, pow) && bits == e.bits)
    else if pow.noRetargeting then bits == prev.bits
    else
      && Height(prev) + 1 >= w
      && Adjusted(FromCompact(prev.bits), prev.time - Ancestor(prev, Height(prev) + 1 - w).time, bits, pow)
  }

  lemma DemandedIsDue(time: int, prev: Block, pow: Pow)
    requires Sensible(pow) && 0 <= FromCompact(prev.bits)
    ensures Due(time, prev, Demanded(time, prev, pow), pow)
  {
    hide FromCompact, Adjusted, NextBits, LastInEarnest;
    EarnestIsLast(prev, pow);
    if (Height(prev) + 1) % pow.retargetInterval == 0 {
      FirstOfWindow(prev, pow);
      if pow.noRetargeting {
        NoChange(prev, Ancestor(prev, Height(prev) - (pow.retargetInterval - 1)), pow);
      } else {
        RetargetAdjusts(prev, Ancestor(prev, Height(prev) - (pow.retargetInterval - 1)), pow);
      }
    }
  }

  lemma NoChange(prev: Block, first: Block, pow: Pow)
    requires Sensible(pow) && 0 <= FromCompact(prev.bits) && pow.noRetargeting
    ensures NextBits(prev, first, pow) == prev.bits
  {}

  method GetTarget(time: int, prev: Block, pow: Pow) returns (bits: Word)
    requires Sensible(pow) && 0 <= FromCompact(prev.bits)
    ensures bits == Demanded(time, prev, pow) && Due(time, prev, bits, pow)
  {
    hide FromCompact, Due;
    DemandedIsDue(time, prev, pow);
    var entry := prev;
    if (Height(prev) + 1) % pow.retargetInterval != 0 {
      if pow.targetReset {
        if time > prev.time + pow.targetSpacing * 2 {
          return pow.bits;
        }
        while Height(entry) != 0 && Height(entry) % pow.retargetInterval != 0 && entry.bits == pow.bits
          invariant LastEarnest(entry, pow) == LastEarnest(prev, pow)
          decreases Height(entry)
        {
          entry := entry.prev.value;
        }
      }
      return entry.bits;
    }
    var height := Height(prev) - (pow.retargetInterval - 1);
    FirstOfWindow(prev, pow);
    bits := Retarget(prev, Ancestor(prev, height), pow);
  }

  /** Every block above genesis carries the bits demanded of it; genesis carries the easiest. */
  predicate BitsOk(b: Block, pow: Pow)
    requires Sensible(pow)
  {
    if b.prev.None? then b.bits == pow.bits
    else BitsOk(b.prev.value, pow) && 0 <= FromCompact(b.prev.value.bits) && b.bits == Demanded(b.time, b.prev.value, pow)
  }

  /** Along a chain whose blocks carry the bits demanded of them, no target exceeds the limit. */
  lemma {:induction false} TargetsWithinLimit(b: Block, pow: Pow)
    requires Sensible(pow) && BitsOk(b, pow)
    ensures 0 <= FromCompact(b.bits) <= pow.limit
    decreases Height(b)
  {
    hide FromCompact, NextBits;
    if b.prev.Some? {
      var p := b.prev.value;
      TargetsWithinLimit(p, pow);
      if (Height(p) + 1) % pow.retargetInterval == 0 {
        FirstOfWindow(p, pow);
        NextBitsBounded(p, Ancestor(p, Height(p) - (pow.retargetInterval - 1)), pow);
      } else {
        var e := LastEarnest(p, pow);
        AncestorHeight(e, p);
        BitsOkBelow(e, p, pow);
        TargetsWithinLimit(e, pow);
      }
    }
  }

  lemma {:induction false} BitsOkBelow(a: Block, b: Block, pow: Pow)
    requires Sensible(pow) && IsAncestor(a, b) && BitsOk(b, pow)
    ensures BitsOk(a, pow)
  {
    hide FromCompact, Demanded;
    if a != b { BitsOkBelow(a, b.prev.value, pow); }
  }
}
