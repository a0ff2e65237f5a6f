/** Selecting coins and paying the fee (src/primitives/mtx.js). */
module Funding {
  import opened Primitives
  import opened Picks
  import Arithmetic

  const MIN_FEE: nat := 10000
  const MAX_FEE: nat := COIN / 10

  /** An output to pay; below `dust` it would not be relayed. */
  datatype Payment = Payment(value: int, dust: nat, unspendable: bool)

  datatype Source = Source(value: nat, spendable: bool)

  /** An unset `hardFee` or `maxFee` is -1. `estimate` gives the fee for the coins chosen so far. */
  datatype Options = Options(subtractFee: bool, subtractIndex: Option<set<nat>>, all: bool, hardFee: int, maxFee: int,
                             changeDust: nat, estimate: seq<Source> -> nat)

  function Sum(outs: seq<Payment>): int {
    if outs == [] then 0 else Sum(outs[..|outs| - 1]) + outs[|outs| - 1].value
  }

  function Worth(coins: seq<Source>): nat {
    if coins == [] then 0 else Worth(coins[..|coins| - 1]) + coins[|coins| - 1].value
  }

  function Least(a: nat, b: nat): nat {
    if a < b then a else b
  }

  // ----- taking the fee out of the outputs

  /** Output `i` takes part in paying the fee. */
  predicate Pays(outs: seq<Payment>, only: Option<set<nat>>, i: nat)
    requires i < |outs|
  {
    (only.Some? ==> i in only.value) && !outs[i].unspendable
  }

  function Payers(outs: seq<Payment>, only: Option<set<nat>>, n: nat): nat
    requires n <= |outs|
  {
    if n == 0 then 0 else Payers(outs, only, n - 1) + if Pays(outs, only, n - 1) then 1 else 0
  }

  /** Every payer can give `share`, and one of them `left` on top, without becoming dust. */
  predicate CanGive(outs: seq<Payment>, share: nat, left: nat, only: Option<set<nat>>) {
    && (forall i :: 0 <= i < |outs| && Pays(outs, only, i) ==> outs[i].value >= share + outs[i].dust)
    && exists i :: 0 <= i < |outs| && Pays(outs, only, i) && outs[i].value - share >= left + outs[i].dust
  }

  /** Someone pays, and the fee can be split evenly with the remainder on one of them. */
  predicate Affordable(outs: seq<Payment>, fee: nat, only: Option<set<nat>>) {
    var n := Payers(outs, only, |outs|);
    n > 0 && CanGive(outs, fee / n, fee % n, only)
  }

  /** The outputs with `share` taken from each payer among the first `k`. */
  function Shared(outs: seq<Payment>, only: Option<set<nat>>, share: nat, k: nat): (r: seq<Payment>)
    requires k <= |outs|
    ensures |r| == |outs|
    ensures forall i :: 0 <= i < |outs| ==>
      r[i] == if i < k && Pays(outs, only, i) then outs[i].(value := outs[i].value - share) else outs[i]
  {
    seq(|outs|, i requires 0 <= i < |outs| =>
      if i < k && Pays(outs, only, i) then outs[i].(value := outs[i].value - share) else outs[i])
  }

  /** The first payer that can give the remainder. */
  function Unlucky(outs: seq<Payment>, only: Option<set<nat>>, left: nat, k: nat): (r: nat)
    requires k <= |outs|
    ensures k <= r <= |outs|
    ensures r < |outs| ==> Pays(outs, only, r) && outs[r].value >= left + outs[r].dust
    ensures forall i :: k <= i < r ==> !(Pays(outs, only, i) && outs[i].value >= left + outs[i].dust)
    decreases |outs| - k
  {
    if k == |outs| then k
    else if Pays(outs, only, k) && outs[k].value >= left + outs[k].dust then k
    else Unlucky(outs, only, left, k + 1)
  }

  /** The outputs once every payer has given `share` and one of them `left` on top. */
  function Given(outs: seq<Payment>, share: nat, left: nat, only: Option<set<nat>>): (r: seq<Payment>)
    ensures |r| == |outs|
  {
    var shared := Shared(outs, only, share, |outs|);
    var u := Unlucky(shared, only, left, 0);
    if u < |outs| then shared[u := shared[u].(value := shared[u].value - left)] else shared
  }

  /** The outputs after a successful subtraction. */
  function Reduced(outs: seq<Payment>, fee: nat, only: Option<set<nat>>): (r: seq<Payment>)
    ensures |r| == |outs|
  {
    var n := Payers(outs, only, |outs|);
    if n == 0 then outs else Given(outs, fee / n, fee % n, only)
  }

  /** `share` as often as there are payers among the first `n` outputs. */
  function Shares(outs: seq<Payment>, only: Option<set<nat>>, share: nat, n: nat): int
    requires n <= |outs|
  {
    if n == 0 then 0 else Shares(outs, only, share, n - 1) + if Pays(outs, only, n - 1) then share else 0
  }

  lemma {:induction false} SharesProduct(outs: seq<Payment>, only: Option<set<nat>>, share: nat, n: nat)
    requires n <= |outs|
    ensures Shares(outs, only, share, n) == share * Payers(outs, only, n)
  {
    if n > 0 {
      SharesProduct(outs, only, share, n - 1);
      OneMore(share, Payers(outs, only, n - 1));
    }
  }

  lemma OneMore(a: nat, b: nat)
    ensures a * (b + 1) == a * b + a
  {}

  lemma {:induction false} SharedSum(outs: seq<Payment>, only: Option<set<nat>>, share: nat, n: nat)
    requires n <= |outs|
    ensures Sum(Shared(outs, only, share, |outs|)[..n]) == Sum(outs[..n]) - Shares(outs, only, share, n)
  {
    if n > 0 {
      SharedSum(outs, only, share, n - 1);
      var r := Shared(outs, only, share, |outs|);
      assert r[..n][..n - 1] == r[..n - 1] && outs[..n][..n - 1] == outs[..n - 1];
    }
  }

  lemma {:induction false} SumLess(outs: seq<Payment>, u: nat, left: nat)
    requires u < |outs|
    ensures Sum(outs[u := outs[u].(value := outs[u].value - left)]) == Sum(outs) - left
  {
    var r := outs[u := outs[u].(value := outs[u].value - left)];
    if u < |outs| - 1 {
      SumLess(outs[..|outs| - 1], u, left);
      assert r[..|outs| - 1] == outs[..|outs| - 1][u := r[u]];
    } else {
      assert r[..u] == outs[..u];
    }
  }

  /** The outputs give up exactly the fee, none of those that pay becomes dust, and the others are
      left alone. */
  lemma SubtractsExactly(outs: seq<Payment>, fee: nat, only: Option<set<nat>>)
    requires Affordable(outs, fee, only)
    ensures var r := Reduced(outs, fee, only);
      && Sum(r) == Sum(outs) - fee
      && forall i :: 0 <= i < |outs| ==> if Pays(outs, only, i) then r[i].value >= r[i].dust else r[i] == outs[i]
  {
    hide Given, CanGive, Pays;
    var n := Payers(outs, only, |outs|);
    GivesExactly(outs, fee / n, fee % n, only);
    SharesProduct(outs, only, fee / n, |outs|);
    SplitFee(fee, n);
  }

  lemma SplitFee(fee: nat, n: nat)
    requires n > 0
    ensures fee / n * n + fee % n == fee && (fee - fee % n) / n == fee / n && fee - fee % n >= 0
  {
    Arithmetic.QuotientOfProduct(fee / n, n);
  }

  lemma GivesExactly(outs: seq<Payment>, share: nat, left: nat, only: Option<set<nat>>)
    requires CanGive(outs, share, left, only)
    ensures var r := Given(outs, share, left, only);
      && Sum(r) == Sum(outs) - Shares(outs, only, share, |outs|) - left
      && forall i :: 0 <= i < |outs| ==> if Pays(outs, only, i) then r[i].value >= r[i].dust else r[i] == outs[i]
  {
    hide Shared, Sum, Shares;
    var shared := Shared(outs, only, share, |outs|);
    SharedSum(outs, only, share, |outs|);
    assert outs[..|outs|] == outs && shared[..|outs|] == shared;
    SomeoneUnlucky(outs, share, left, only);
    SumLess(shared, Unlucky(shared, only, left, 0), left);
  }

  lemma SomeoneUnlucky(outs: seq<Payment>, share: nat, left: nat, only: Option<set<nat>>)
    requires CanGive(outs, share, left, only)
    ensures Unlucky(Shared(outs, only, share, |outs|), only, left, 0) < |outs|
  {
    var shared := Shared(outs, only, share, |outs|);
    var i :| 0 <= i < |outs| && Pays(outs, only, i) && outs[i].value - share >= left + outs[i].dust;
    assert Pays(shared, only, i) && shared[i].value >= left + shared[i].dust;
  }

  predicate AllGive(outs: seq<Payment>, share: nat, only: Option<set<nat>>, n: nat)
    requires n <= |outs|
  {
    forall j :: 0 <= j < n && Pays(outs, only, j) ==> outs[j].value >= share + outs[j].dust
  }

  lemma SharedNone(outs: seq<Payment>, only: Option<set<nat>>, share: nat)
    ensures Shared(outs, only, share, 0) == outs
  {}

  lemma SharedStep(outs: seq<Payment>, only: Option<set<nat>>, share: nat, i: nat)
    requires i < |outs|
    ensures var r := Shared(outs, only, share, i);
      && r[i] == outs[i] && (Pays(r, only, i) <==> Pays(outs, only, i))
      && Shared(outs, only, share, i + 1) == if Pays(outs, only, i) then r[i := outs[i].(value := outs[i].value - share)] else r
  {}

  lemma CannotGive(outs: seq<Payment>, share: nat, left: nat, only: Option<set<nat>>, i: nat)
    requires i < |outs| && Pays(outs, only, i) && outs[i].value < share + outs[i].dust
    ensures !CanGive(outs, share, left, only)
  {}

  /** With all shares given, it takes one payer for the remainder, and the first one gives it. */
  lemma GiveRest(outs: seq<Payment>, share: nat, left: nat, only: Option<set<nat>>)
    requires AllGive(outs, share, only, |outs|)
    ensures var shared := Shared(outs, only, share, |outs|);
      var u := Unlucky(shared, only, left, 0);
      && (CanGive(outs, share, left, only) <==> u < |outs|)
      && (u < |outs| ==> Given(outs, share, left, only) == shared[u := shared[u].(value := shared[u].value - left)])
  {
    if CanGive(outs, share, left, only) { SomeoneUnlucky(outs, share, left, only); }
  }

  // ----- selecting coins

  /** The coins that may be spent, in the order they came. */
  function Usable(coins: seq<Source>): seq<Source> {
    if coins == [] then []
    else Usable(coins[..|coins| - 1]) + if coins[|coins| - 1].spendable then [coins[|coins| - 1]] else []
  }

  lemma {:induction false} WorthBoth(a: seq<Source>, b: seq<Source>)
    ensures Worth(a + b) == Worth(a) + Worth(b)
  {
    if b == [] {
      assert a + b == a;
    } else {
      assert (a + b)[..|a + b| - 1] == a + b[..|b| - 1];
      WorthBoth(a, b[..|b| - 1]);
    }
  }

  lemma {:induction false} UsableWorth(coins: seq<Source>, k: nat)
    requires k <= |coins|
    ensures Worth(Usable(coins[..k])) <= Worth(Usable(coins))
    decreases |coins| - k
  {
    if k < |coins| {
      UsableNext(coins, k);
      WorthBoth(Usable(coins[..k]), if coins[k].spendable then [coins[k]] else []);
      UsableWorth(coins, k + 1);
    } else {
      assert coins[..k] == coins;
    }
  }

  lemma UsableNext(coins: seq<Source>, k: nat)
    requires k < |coins|
    ensures Usable(coins[..k + 1]) == Usable(coins[..k]) + if coins[k].spendable then [coins[k]] else []
  {
    assert coins[..k + 1][..k] == coins[..k];
  }

  /** Where taking coins from `from` on stops: right after the first one that makes them worth `need`, or
      at the end. */
  function Reach(coins: seq<Source>, from: nat, need: int, all: bool): (r: nat)
    requires from <= |coins|
    ensures from <= r <= |coins|
    decreases |coins| - from
  {
    if from == |coins| then from
    else if !all && coins[from].spendable && Worth(Usable(coins[..from + 1])) >= need then from + 1
    else Reach(coins, from + 1, need, all)
  }

  datatype Selection = Selected | FeeTooHigh | NotEnough

  class CoinSelector {
    const coins: seq<Source>
    const outputValue: int
    const options: Options
    var index: nat
    var chosen: seq<Source>
    var fee: nat
    var change: int

    constructor (coins: seq<Source>, outputValue: int, options: Options)
      ensures this.coins == coins && this.outputValue == outputValue && this.options == options && index == 0 && Valid()
    {
      this.coins := coins;
      this.outputValue := outputValue;
      this.options := options;
      index, chosen, fee, change := 0, [], MIN_FEE, 0;
    }

    /** The coins looked at so far have been taken, all that may be spent. */
    ghost predicate Valid()
      reads this
    {
      index <= |coins| && chosen == Usable(coins[..index])
    }

    /** What the coins must be worth with this fee. */
    function Need(fee: nat): int {
      if options.subtractFee then outputValue else outputValue + fee
    }

    function Total(): int
      reads this
    {
      Need(fee)
    }

    predicate IsFull()
      reads this
    {
      Worth(chosen) >= Total()
    }

    /** Take coins until there is enough, and not beyond, or all of them when asked to. */
    method Fund()
      requires Valid()
      modifies this`index, this`chosen
      ensures Valid() && old(index) <= index
      ensures index == |coins| || (IsFull() && old(index) < index)
      ensures index == Reach(coins, old(index), Total(), options.all)
    {
      hide Usable, Worth;
      while index < |coins|
        invariant Valid() && old(index) <= index
        invariant Reach(coins, index, Total(), options.all) == Reach(coins, old(index), Total(), options.all)
        decreases |coins| - index
      {
        var coin := coins[index];
        UsableNext(coins, index);
        index := index + 1;
        if !coin.spendable {
          continue;
        }
        chosen := chosen + [coin];
        if options.all {
          continue;
        }
        if IsFull() {
          break;
        }
      }
    }

    method SelectHard()
      requires Valid() && options.hardFee >= 0
      modifies this`index, this`chosen, this`fee
      ensures Valid() && fee == Least(options.hardFee, MAX_FEE) && (index == |coins| || IsFull())
      ensures index == Reach(coins, old(index), Total(), options.all)
    {
      fee := Least(options.hardFee, MAX_FEE);
      Fund();
    }

    /** Where taking coins from `from` on stops with the least fee, for which the fee is estimated. */
    ghost function FirstStop(from: nat): nat
      requires from <= |coins|
    {
      Reach(coins, from, Need(MIN_FEE), options.all)
    }

    /** The fee estimated for the coins taken up to there. */
    ghost function EstimateAt(from: nat): nat
      requires from <= |coins|
    {
      Least(options.estimate(Usable(coins[..FirstStop(from)])), MAX_FEE)
    }

    /** Where selection stops once the fee is `fee`: there, if the coins are worth it or the fee is too
        high, and otherwise where taking more coins does. */
    ghost function LastStop(from: nat, fee: nat): nat
      requires from <= |coins|
    {
      var k := FirstStop(from);
      if (options.maxFee > 0 && fee > options.maxFee) || Worth(Usable(coins[..k])) >= Need(fee) then k
      else Reach(coins, k, Need(fee), options.all)
    }

    /** Estimate the fee for the coins chosen and, if they fall short, take more. Taking coins stops only
        with enough or with none left, so one round always is the last: the fee is the one for the coins
        taken with the least fee, and is not estimated again for those taken after. */
    method SelectEstimate() returns (ok: bool)
      requires Valid()
      modifies this`index, this`chosen, this`fee
      ensures Valid() && fee == EstimateAt(old(index)) && index == LastStop(old(index), fee)
      ensures ok ==> index == |coins| || IsFull()
      ensures ok <==> !(options.maxFee > 0 && fee > options.maxFee)
    {
      hide Usable, Worth;
      ghost var from := index;
      fee := MIN_FEE;
      Fund();
      var again := true;
      while again
        invariant Valid() && (again ==> index == FirstStop(from))
        invariant !again ==> fee == EstimateAt(from) && index == LastStop(from, fee)
        invariant !again ==> (index == |coins| || IsFull()) && !(options.maxFee > 0 && fee > options.maxFee)
        decreases again
      {
        fee := Least(options.estimate(chosen), MAX_FEE);
        if options.maxFee > 0 && fee > options.maxFee {
          return false;
        }
        if !IsFull() {
          Fund();
        }
        again := !IsFull() && index < |coins|;
      }
      return true;
    }

    /** Selection fails for lack of funds only when all the coins there are do not suffice. */
    method Select() returns (r: Selection)
      requires Valid() && options.hardFee >= -1
      modifies this
      ensures Valid() && fee <= MAX_FEE
      ensures r.Selected? ==> change == Worth(chosen) - Total() >= 0
      ensures r.NotEnough? ==> Worth(Usable(coins)) < Total()
      ensures options.hardFee >= 0 ==> fee == Least(options.hardFee, MAX_FEE) && (r.Selected? <==> Worth(Usable(coins)) >= Total())
      ensures options.hardFee >= 0 ==> index == Reach(coins, old(index), Total(), options.all)
      ensures options.hardFee == -1 ==> fee == EstimateAt(old(index)) && index == LastStop(old(index), fee)
      ensures r.FeeTooHigh? <==> options.hardFee == -1 && options.maxFee > 0 && fee > options.maxFee
    {
      if options.hardFee != -1 {
        SelectHard();
      } else {
        var ok := SelectEstimate();
        if !ok {
          return FeeTooHigh;
        }
      }
      UsableWorth(coins, index);
      assert index == |coins| ==> coins[..index] == coins;
      if !IsFull() {
        return NotEnough;
      }
      change := Worth(chosen) - Total();
      return Selected;
    }
  }

  /** With two coins of 20000 to pay out 10000 and 15000 a coin as the fee, the first coin covers the
      least fee, its own fee then takes the second coin, and two coins would have cost 30000. */
  lemma FeeNotEstimatedAgain()
    ensures var coins := [Source(20000, true), Source(20000, true)];
      && Reach(coins, 0, 10000 + MIN_FEE, false) == 1
      && Reach(coins, 1, 10000 + 15000, false) == 2
      && |Usable(coins[..1])| == 1 && |Usable(coins[..2])| == 2 && Worth(Usable(coins[..1])) == 20000 && Worth(Usable(coins)) == 40000
  {
    var coin := Source(20000, true);
    var coins := [coin, coin];
    assert coins[..1] == [coin] && coins[..2] == coins && coins[..1][..0] == [] && coins[..2][..1] == [coin];
    assert Usable([]) == [] && Usable([coin]) == [coin] && Usable(coins) == [coin, coin];
    assert Worth([]) == 0 && Worth([coin]) == 20000;
    assert Worth([coin, coin]) == 40000 by { assert [coin, coin][..1] == [coin]; }
  }

  /** On these coins the selection ends with a fee below the estimate for the coins it chose. */
  method FeeFallsShort() returns (selector: CoinSelector, r: Selection)
    ensures r == Selected && |selector.chosen| == 2
    ensures selector.fee == 15000 < selector.options.estimate(selector.chosen)
  {
    var coins := [Source(20000, true), Source(20000, true)];
    FeeNotEstimatedAgain();
    selector := new CoinSelector(coins, 10000, Options(false, None, false, -1, -1, 0, chosen => 15000 * |chosen|));
    assert selector.FirstStop(0) == 1 && selector.LastStop(0, 15000) == 2;
    r := selector.Select();
    assert coins[..2] == coins;
  }

  lemma {:induction false} SumMore(outs: seq<Payment>, o: Payment)
    ensures Sum(outs + [o]) == Sum(outs) + o.value
  {
    assert (outs + [o])[..|outs|] == outs;
  }

  lemma NothingWorth(coins: seq<Source>)
    ensures [] + coins == coins
  {}

  class Mtx {
    var inputs: seq<Source>
    var outputs: seq<Payment>
    var changeIndex: int

    constructor (outputs: seq<Payment>)
      ensures this.outputs == outputs && inputs == [] && changeIndex == -1
    {
      this.outputs := outputs;
      inputs := [];
      changeIndex := -1;
    }

    /** Take the fee out of the outputs evenly; one of them bears the remainder. */
    method SubtractFee(fee: nat, only: Option<set<nat>>) returns (ok: bool)
      modifies this`outputs
      ensures ok <==> Affordable(old(outputs), fee, only)
      ensures ok ==> outputs == Reduced(old(outputs), fee, only)
    {
      ghost var first := outputs;
      var n := 0;
      for i := 0 to |outputs|
        invariant n == Payers(first, only, i)
      {
        if Pays(outputs, only, i) {
          n := n + 1;
        }
      }
      if n == 0 {
        return false;
      }
      var left := fee % n;
      SplitFee(fee, n);
      var share := (fee - left) / n;
      ok := Give(share, left, only);
    }

    method Give(share: nat, left: nat, only: Option<set<nat>>) returns (ok: bool)
      modifies this`outputs
      ensures ok <==> CanGive(old(outputs), share, left, only)
      ensures ok ==> outputs == Given(old(outputs), share, left, only)
    {
      hide Shared, CanGive, Given, Pays;
      ghost var first := outputs;
      SharedNone(first, only, share);
      for i := 0 to |outputs|
        invariant outputs == Shared(first, only, share, i)
        invariant AllGive(first, share, only, i)
      {
        SharedStep(first, only, share, i);
        if Pays(outputs, only, i) {
          if outputs[i].value < share + outputs[i].dust {
            CannotGive(first, share, left, only, i);
            return false;
          }
          outputs := outputs[i := outputs[i].(value := outputs[i].value - share)];
        }
      }
      ghost var shared := outputs;
      GiveRest(first, share, left, only);
      for i := 0 to |outputs|
        invariant outputs == shared && Unlucky(shared, only, left, 0) == Unlucky(shared, only, left, i)
      {
        if Pays(outputs, only, i) && outputs[i].value >= left + outputs[i].dust {
          outputs := outputs[i := outputs[i].(value := outputs[i].value - left)];
          return true;
        }
      }
      return false;
    }

    /** Fill the inputs, take the fee out of the outputs if asked to, and add a change output unless it
        would be dust. What goes in is what goes out, plus the fee, plus change too small to return. */
    method Fund(coins: seq<Source>, options: Options) returns (r: Selection, selector: CoinSelector, ok: bool)
      requires inputs == [] && options.hardFee >= -1
      modifies this
      ensures fresh(selector) && selector.fee <= MAX_FEE
      ensures !r.Selected? ==> !ok && inputs == [] && outputs == old(outputs)
      ensures ok ==> selector.change >= 0 && Worth(inputs) - Sum(outputs) == selector.fee + if changeIndex == -1 then selector.change else 0
      ensures ok ==> (changeIndex == -1 <==> selector.change < options.changeDust)
      ensures ok ==> var kept := if options.subtractFee then Reduced(old(outputs), selector.fee, options.subtractIndex) else old(outputs);
        outputs == kept + if changeIndex == -1 then [] else [Payment(selector.change, options.changeDust, false)]
      ensures r.Selected? ==> (ok <==> options.subtractFee ==> Affordable(old(outputs), selector.fee, options.subtractIndex))
    {
      ghost var first := outputs;
      selector := new CoinSelector(coins, OutputValue(), options);
      r := selector.Select();
      if !r.Selected? {
        return r, selector, false;
      }
      inputs := inputs + selector.chosen;
      NothingWorth(selector.chosen);
      if options.subtractFee {
        ok := SubtractFee(selector.fee, options.subtractIndex);
        if !ok {
          return r, selector, false;
        }
        SubtractsExactly(first, selector.fee, options.subtractIndex);
      }
      var output := Payment(selector.change, options.changeDust, false);
      if output.value < output.dust {
        changeIndex := -1;
      } else {
        SumMore(outputs, output);
        outputs := outputs + [output];
        changeIndex := |outputs| - 1;
      }
      return r, selector, true;
    }

    function OutputValue(): int
      reads this
    {
      Sum(outputs)
    }
  }

  /** The usable coins are the spendable ones, each once and in the order they came. */
  lemma {:induction false} UsablePicks(coins: seq<Source>) returns (at: seq<nat>)
    ensures Picked(coins, seq(|coins|, i requires 0 <= i < |coins| => coins[i].spendable), Usable(coins), at)
    decreases |coins|
  {
    if coins == [] {
      at := [];
    } else {
      var n := |coins| - 1;
      var keep := seq(|coins|, i requires 0 <= i < |coins| => coins[i].spendable);
      at := UsablePicks(coins[..n]);
      assert keep[..n] == seq(n, i requires 0 <= i < n => coins[..n][i].spendable);
      PickedLast(coins[..n], keep[..n], Usable(coins[..n]), at, coins[n], coins[n].spendable);
      assert coins[..n] + [coins[n]] == coins && keep[..n] + [keep[n]] == keep;
      at := at + if coins[n].spendable then [n] else [];
    }
  }

  /** Taking the coin at `k` makes them worth `need`. */
  predicate Stops(coins: seq<Source>, k: nat, need: int) {
    k < |coins| && coins[k].spendable && Worth(Usable(coins[..k + 1])) >= need
  }

  /** Taking coins stops right after the first that makes them worth enough, and only there, or with none
      left. */
  lemma {:induction false} ReachExactly(coins: seq<Source>, from: nat, need: int, all: bool)
    requires from <= |coins|
    ensures var r := Reach(coins, from, need, all);
      && (r == |coins| || (!all && r > from && Stops(coins, r - 1, need)))
      && (!all ==> forall k :: from <= k < r - 1 ==> !Stops(coins, k, need))
    decreases |coins| - from
  {
    if from < |coins| { ReachExactly(coins, from + 1, need, all); }
  }

  function PayersOf(outs: seq<Payment>, only: Option<set<nat>>, n: nat): set<nat>
    requires n <= |outs|
  {
    set i | 0 <= i < n && Pays(outs, only, i)
  }

  lemma PayersStep(outs: seq<Payment>, only: Option<set<nat>>, n: nat)
    requires n < |outs|
    ensures PayersOf(outs, only, 0) == {} && n !in PayersOf(outs, only, n)
    ensures PayersOf(outs, only, n + 1) == PayersOf(outs, only, n) + if Pays(outs, only, n) then {n} else {}
  {
    hide Pays;
  }

  /** The payers are counted once each. */
  lemma {:induction false} PayersAre(outs: seq<Payment>, only: Option<set<nat>>, n: nat)
    requires n <= |outs|
    ensures Payers(outs, only, n) == |PayersOf(outs, only, n)|
  {
    hide Pays;
    if n > 0 {
      hide PayersOf;
      PayersAre(outs, only, n - 1);
      PayersStep(outs, only, n - 1);
    } else {
      assert PayersOf(outs, only, 0) == {};
    }
  }
}
