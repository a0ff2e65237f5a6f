/** Subsidy and version bits (src/protocol/consensus.js). */
module Consensus {
  import opened Primitives
  import Arithmetic

  function Halve(x: nat, k: nat): (r: nat)
    ensures r <= x
  {
    if k == 0 then x else Halve(x / 2, k - 1)
  }

  /** The shift count of the 32-bit `>>>` operator is taken modulo 32. */
  function ShiftRight32(x: nat, k: nat): (r: nat)
    ensures r <= x
  {
    Halve(x, k % 32)
  }

  function Halvings(height: nat, interval: nat): nat {
    height / (if interval == 0 then BASE_REWARD_INTERVAL else interval)
  }

  function GetReward(height: nat, interval: nat): (r: int)
    ensures 0 <= r <= BASE_REWARD
  {
    var halvings := Halvings(height, interval);
    if halvings >= 100 then 0
    else if halvings == 0 then BASE_REWARD
    else
      var units := ShiftRight32(BASE_REWARD / COIN, halvings);
      units * COIN
  }

  lemma {:induction false} HalveLess(x: nat, a: nat, b: nat)
    requires a <= b
    ensures Halve(x, b) <= Halve(x, a)
    decreases a
  {
    if a > 0 { HalveLess(x / 2, a - 1, b - 1); }
  }

  lemma HalvingsGrow(a: nat, b: nat, interval: nat)
    requires a <= b
    ensures Halvings(a, interval) <= Halvings(b, interval)
  {
    var w := if interval == 0 then BASE_REWARD_INTERVAL else interval;
    Arithmetic.QuotientGrows(a, b, w);
  }

  /** Within the first 32 eras, and from the hundredth on, the subsidy never rises. */
  lemma RewardFalls(a: nat, b: nat, interval: nat)
    requires a <= b && (Halvings(b, interval) < 32 || Halvings(b, interval) >= 100)
    ensures GetReward(b, interval) <= GetReward(a, interval)
  {
    hide Halvings, Halve, GetReward;
    HalvingsGrow(a, b, interval);
    RewardOf(a, interval);
    RewardOf(b, interval);
    if Halvings(b, interval) < 32 {
      HalveLess(512, Halvings(a, interval), Halvings(b, interval));
    }
  }

  lemma RewardOf(height: nat, interval: nat)
    ensures var era := Halvings(height, interval);
      GetReward(height, interval) == if era >= 100 then 0 else COIN * Halve(512, era % 32)
    ensures Halvings(height, interval) < 32 ==> Halvings(height, interval) % 32 == Halvings(height, interval)
  {
    hide Halvings;
    assert Halve(512, 0) == 512;
  }

  /** No block below `b` was paid less. */
  ghost predicate NeverBelow(b: nat, interval: nat) {
    forall a: nat :: a <= b ==> GetReward(b, interval) <= GetReward(a, interval)
  }

  /** No earlier block was paid less exactly in the first 32 eras, from era 100 on, and in between in
      the eras in which the shift leaves nothing. */
  lemma NonePaidLess(b: nat, interval: nat)
    ensures var era := Halvings(b, interval);
      NeverBelow(b, interval) <==> era < 32 || era >= 100 || era % 32 >= 10
  {
    hide Halvings, Halve, GetReward;
    var era := Halvings(b, interval);
    RewardOf(b, interval);
    ShiftedOut(era % 32);
    if era < 32 {
      forall a: nat | a <= b ensures GetReward(b, interval) <= GetReward(a, interval) {
        RewardFalls(a, b, interval);
      }
    } else if era < 100 && era % 32 < 10 {
      var a := EraBelow(b, 31, interval);
      RewardOf(a, interval);
      NothingLeft();
      assert GetReward(b, interval) > GetReward(a, interval);
    }
  }

  /** The subsidy rises nowhere up to `b`. */
  ghost predicate NeverRises(b: nat, interval: nat) {
    forall x: nat, y: nat :: x <= y <= b ==> GetReward(y, interval) <= GetReward(x, interval)
  }

  /** It is as planned, falling and never rising, exactly in the first 32 eras. */
  lemma RewardNeverRises(b: nat, interval: nat)
    ensures NeverRises(b, interval) <==> Halvings(b, interval) < 32
  {
    hide Halvings, Halve, GetReward;
    if Halvings(b, interval) < 32 {
      forall x: nat, y: nat | x <= y <= b ensures GetReward(y, interval) <= GetReward(x, interval) {
        HalvingsGrow(y, b, interval);
        RewardFalls(x, y, interval);
      }
    } else {
      var x := EraBelow(b, 31, interval);
      var y := EraBelow(b, 32, interval);
      if y < x { HalvingsGrow(y, x, interval); }
      RewardOf(x, interval);
      RewardOf(y, interval);
      NothingLeft();
      assert GetReward(y, interval) > GetReward(x, interval);
    }
  }

  /** Some block at or below `b` lies in any earlier era. */
  lemma EraBelow(b: nat, era: nat, interval: nat) returns (a: nat)
    requires era <= Halvings(b, interval)
    ensures a <= b && Halvings(a, interval) == era
  {
    var w := if interval == 0 then BASE_REWARD_INTERVAL else interval;
    Arithmetic.ProductBelow(era, b, w);
    a := era * w;
  }

  lemma ShiftedOut(k: nat)
    requires k < 32
    ensures Halve(512, k) > 0 <==> k < 10
  {
    assert Halve(512, 10) == 0 && Halve(512, 9) == 1;
    if k < 10 { HalveLess(512, k, 9); } else { HalveLess(512, 10, k); }
  }

  /** In between it does: era 31 pays nothing, and era 32 pays the full subsidy again. */
  lemma RewardComesBack(interval: nat)
    requires interval > 0
    ensures GetReward(31 * interval, interval) == 0 && GetReward(32 * interval, interval) == BASE_REWARD
  {
    hide Halve;
    EraStart(31, interval);
    EraStart(32, interval);
    NothingLeft();
  }

  lemma EraStart(era: nat, interval: nat)
    requires interval > 0
    ensures era * interval >= 0 && Halvings(era * interval, interval) == era
  {
    Arithmetic.QuotientOfProduct(era, interval);
  }

  lemma NothingLeft()
    ensures Halve(512, 31) == 0 && Halve(512, 0) == 512
  {
    assert Halve(512, 10) == 0;
    HalveLess(512, 10, 31);
  }

  // ----- what is paid, outright

  lemma {:induction false} HalveIs(x: nat, k: nat)
    ensures Halve(x, k) == x / Arithmetic.Pow2(k)
  {
    if k > 0 {
      HalveIs(x / 2, k - 1);
      Arithmetic.QuotientTwice(x, Arithmetic.Pow2(k - 1));
    }
  }

  /** Era by era the 512 coins are divided by a power of two, rounded down to whole coins, with the era
      taken modulo 32; from era 100 on nothing is paid. */
  lemma SubsidyIs(height: nat, interval: nat)
    ensures var era := height / (if interval == 0 then 50000000 else interval);
      GetReward(height, interval) == if era >= 100 then 0 else 100000000000 * (512 / Arithmetic.Pow2(era % 32))
  {
    hide Halve, GetReward;
    RewardOf(height, interval);
    HalveIs(512, Halvings(height, interval) % 32);
  }
}
