/** Signing m-of-n multisignature inputs slot by slot (src/primitives/mtx.js). */
module Multisig {
  import opened Picks

  /** A stack item is a byte string; an empty one marks the dummy and every free slot. */
  type Item = seq<bv8>

  /** The script asks for `m` signatures by the holders of `keys`. */
  datatype Script = Script(m: nat, keys: seq<Item>)

  predicate Standard(s: Script) {
    1 <= s.m <= |s.keys|
  }

  predicate DistinctKeys(s: Script) {
    forall i, j :: 0 <= i < j < |s.keys| ==> s.keys[i] != s.keys[j]
  }

  datatype Outcome = Signed | NotOurs | NotTemplated

  // ----- stacks

  class Stack {
    var items: seq<Item>

    constructor ()
      ensures items == []
    {
      items := [];
    }

    method Push(item: Item)
      modifies this
      ensures items == old(items) + [item]
    {
      items := items + [item];
    }

    method Set(index: nat, item: Item)
      requires index < |items|
      modifies this
      ensures items == old(items)[index := item]
    {
      items := items[index := item];
    }

    method Remove(index: nat)
      requires index < |items|
      modifies this
      ensures items == old(items)[..index] + old(items)[index + 1..]
    {
      items := items[..index] + items[index + 1..];
    }

    method Pop()
      requires items != []
      modifies this
      ensures items == old(items)[..|old(items)| - 1]
    {
      items := items[..|items| - 1];
    }
  }

  // ----- what one signing does to the slots

  function Total(slots: seq<Item>): (n: nat)
    ensures n <= |slots|
  {
    if slots == [] then 0 else (if slots[0] != [] then 1 else 0) + Total(slots[1..])
  }

  function Filled(slots: seq<Item>): (r: seq<Item>)
    ensures |r| == Total(slots) && forall i :: 0 <= i < |r| ==> r[i] != []
  {
    if slots == [] then [] else (if slots[0] != [] then [slots[0]] else []) + Filled(slots[1..])
  }

  function Padded(slots: seq<Item>, n: nat): (r: seq<Item>)
    requires |slots| <= n
    ensures |r| == n
  {
    slots + seq(n - |slots|, _ => [])
  }

  /** Position of the first key equal to `key`; the number of keys when there is none. */
  function IndexOf(keys: seq<Item>, key: Item): (i: nat)
    ensures i <= |keys| && (i < |keys| ==> keys[i] == key) && (i == |keys| ==> key !in keys)
  {
    if keys == [] then 0 else if keys[0] == key then 0 else 1 + IndexOf(keys[1..], key)
  }

  /** The slots once the signature has been put in place, unless it is taken or no longer needed. */
  function Placed(s: Script, slots: seq<Item>, sig: Item, at: nat): (r: seq<Item>)
    requires at < |slots|
    ensures |r| == |slots|
  {
    if Total(slots) < s.m && slots[at] == [] then slots[at := sig] else slots
  }

  /** With enough signatures the free slots go, and any signature beyond those required. */
  function Finalized(s: Script, slots: seq<Item>): seq<Item> {
    if Total(slots) >= s.m then Filled(slots)[..s.m] else slots
  }

  predicate Templated(s: Script, items: seq<Item>) {
    |items| >= 2 && items[0] == [] && |items| - 1 <= |s.keys|
  }

  predicate Final(s: Script, items: seq<Item>)
    requires items != []
  {
    Total(items[1..]) == s.m && |items| - 1 == s.m
  }

  function SignedItems(s: Script, items: seq<Item>, sig: Item, key: Item): seq<Item>
    requires Templated(s, items)
  {
    if Final(s, items) then items
    else
      var slots := Padded(items[1..], |s.keys|);
      var at := IndexOf(s.keys, key);
      if at == |s.keys| then [[]] + slots else [[]] + Finalized(s, Placed(s, slots, sig, at))
  }

  // ----- the code

  /** An input of an m-of-n script starts with the dummy and `n` free slots. */
  method ScriptVector(s: Script, key: Item) returns (ok: bool, stack: Stack)
    ensures fresh(stack) && (ok <==> key in s.keys)
    ensures ok ==> stack.items == Template(|s.keys|)
  {
    stack := new Stack();
    if key !in s.keys {
      return false, stack;
    }
    stack.Push([]);
    for i := 0 to |s.keys|
      invariant stack.items == Template(i)
    {
      stack.Push([]);
    }
    return true, stack;
  }

  function Template(n: nat): seq<Item> {
    [[]] + seq(n, _ => [])
  }

  method SignVector(s: Script, vector: Stack, sig: Item, key: Item) returns (r: Outcome)
    requires Standard(s) && sig != []
    modifies vector
    ensures r.NotTemplated? <==> !Templated(s, old(vector.items))
    ensures r.NotTemplated? ==> vector.items == old(vector.items)
    ensures !r.NotTemplated? ==> vector.items == SignedItems(s, old(vector.items), sig, key)
    ensures !r.NotTemplated? ==> (r.Signed? <==> Final(s, old(vector.items)) || key in s.keys)
  {
    hide Total, Filled, IndexOf, Padded;
    if |vector.items| < 2 {
      return NotTemplated;
    }
    if vector.items[0] != [] {
      return NotTemplated;
    }
    if |vector.items| - 1 > |s.keys| {
      return NotTemplated;
    }
    var total := CountSignatures(vector.items);
    if total == s.m && |vector.items| - 1 == s.m {
      return Signed;
    }
    PadSlots(vector, |s.keys|);
    ghost var slots := vector.items[1..];
    KeepsTotal(old(vector.items)[1..], |s.keys|);
    var at := FindKey(s.keys, key);
    if at == |s.keys| {
      return NotOurs;
    }
    at := at + 1;
    if total < s.m {
      if vector.items[at] == [] {
        vector.Set(at, sig);
        TotalSet(slots, at - 1, sig);
        total := total + 1;
      }
    }
    assert vector.items[1..] == Placed(s, slots, sig, at - 1);
    if total >= s.m {
      FinalizeSlots(s, vector, total);
    }
    return Signed;
  }

  method CountSignatures(items: seq<Item>) returns (total: nat)
    requires items != []
    ensures total == Total(items[1..])
  {
    total := 0;
    for i := 1 to |items|
      invariant total + Total(items[i..]) == Total(items[1..])
    {
      assert items[i..][1..] == items[i + 1..];
      if items[i] != [] {
        total := total + 1;
      }
    }
  }

  method PadSlots(vector: Stack, n: nat)
    requires vector.items != [] && |vector.items| - 1 <= n
    modifies vector
    ensures vector.items == [old(vector.items)[0]] + Padded(old(vector.items)[1..], n)
  {
    ghost var first := vector.items;
    while |vector.items| - 1 < n
      invariant |first| <= |vector.items| <= n + 1
      invariant vector.items == first + seq(|vector.items| - |first|, _ => [])
      decreases n - |vector.items|
    {
      vector.Push([]);
    }
    assert first == [first[0]] + first[1..];
  }

  method FindKey(keys: seq<Item>, key: Item) returns (at: nat)
    ensures at == IndexOf(keys, key)
  {
    at := 0;
    while at < |keys|
      invariant at <= |keys| && IndexOf(keys, key) == at + IndexOf(keys[at..], key)
    {
      if keys[at] == key {
        return;
      }
      assert keys[at..][1..] == keys[at + 1..];
      at := at + 1;
    }
  }

  /** Take out the free slots from the end down, then whatever is left over. The count always comes
      out at `m`. */
  method FinalizeSlots(s: Script, vector: Stack, count: nat)
    requires vector.items != [] && count == Total(vector.items[1..]) && count >= s.m
    modifies vector
    ensures vector.items == [old(vector.items)[0]] + Filled(old(vector.items)[1..])[..s.m]
    ensures |vector.items| - 1 == s.m
  {
    hide Filled, Total;
    ghost var first := vector.items;
    var i := |vector.items| - 1;
    FilledNone();
    while i >= 1
      invariant 0 <= i < |first| && vector.items == first[..i + 1] + Filled(first[i + 1..])
      decreases i
    {
      FilledStep(first, i);
      if vector.items[i] == [] {
        vector.Remove(i);
      }
      i := i - 1;
    }
    assert vector.items == [first[0]] + Filled(first[1..]);
    var total := count;
    while total > s.m
      invariant s.m <= total <= count && vector.items == [first[0]] + Filled(first[1..])[..total]
    {
      vector.Pop();
      total := total - 1;
    }
  }

  lemma FilledNone()
    ensures Filled([]) == []
  {}

  lemma FilledStep(items: seq<Item>, i: nat)
    requires i < |items|
    ensures Filled(items[i..]) == (if items[i] == [] then [] else [items[i]]) + Filled(items[i + 1..])
  {
    assert items[i..][1..] == items[i + 1..];
  }

  lemma {:induction false} KeepsTotal(slots: seq<Item>, n: nat)
    requires |slots| <= n
    ensures Total(Padded(slots, n)) == Total(slots)
  {
    if slots == [] {
      assert Padded(slots, n) == seq(n, _ => []);
      NothingFilled(n);
    } else {
      assert Padded(slots, n)[1..] == Padded(slots[1..], n - 1);
      KeepsTotal(slots[1..], n - 1);
    }
  }

  lemma {:induction false} NothingFilled(n: nat)
    ensures Total(seq(n, _ => [])) == 0
  {
    if n > 0 {
      NothingFilled(n - 1);
      assert seq(n, _ => [])[1..] == seq<Item>(n - 1, _ => []);
    }
  }

  lemma {:induction false} TotalSet(slots: seq<Item>, at: nat, sig: Item)
    requires at < |slots| && slots[at] == [] && sig != []
    ensures Total(slots[at := sig]) == Total(slots) + 1
  {
    if at > 0 {
      assert slots[at := sig][1..] == slots[1..][at - 1 := sig];
      TotalSet(slots[1..], at - 1, sig);
    }
  }

  // ----- any m of the keys, in any order

  /** The slots when the holders of the chosen keys have signed; `sigs` has a signature for each key. */
  function Slots(chosen: seq<bool>, sigs: seq<Item>): (r: seq<Item>)
    requires |chosen| == |sigs|
    ensures |r| == |chosen|
  {
    seq(|chosen|, i requires 0 <= i < |chosen| => if chosen[i] then sigs[i] else [])
  }

  function Count(chosen: seq<bool>): (n: nat)
    ensures n <= |chosen|
  {
    if chosen == [] then 0 else (if chosen[0] then 1 else 0) + Count(chosen[1..])
  }

  /** The chosen signatures in the order of the keys. */
  function InKeyOrder(chosen: seq<bool>, sigs: seq<Item>): (r: seq<Item>)
    requires |chosen| == |sigs|
    ensures |r| == Count(chosen)
  {
    if chosen == [] then [] else (if chosen[0] then [sigs[0]] else []) + InKeyOrder(chosen[1..], sigs[1..])
  }

  predicate AllSign(s: Script, sigs: seq<Item>) {
    |sigs| == |s.keys| && forall i :: 0 <= i < |sigs| ==> sigs[i] != []
  }

  /** The input when the holders of the chosen keys, `m` of them at most, have signed. */
  function Progress(s: Script, chosen: seq<bool>, sigs: seq<Item>): seq<Item>
    requires |chosen| == |sigs|
  {
    [[]] + if Count(chosen) == s.m then InKeyOrder(chosen, sigs) else Slots(chosen, sigs)
  }

  lemma {:induction false} SlotsCount(chosen: seq<bool>, sigs: seq<Item>)
    requires |chosen| == |sigs| && forall i :: 0 <= i < |sigs| ==> sigs[i] != []
    ensures Total(Slots(chosen, sigs)) == Count(chosen) && Filled(Slots(chosen, sigs)) == InKeyOrder(chosen, sigs)
    ensures Total(InKeyOrder(chosen, sigs)) == Count(chosen)
  {
    if chosen != [] {
      assert Slots(chosen, sigs)[1..] == Slots(chosen[1..], sigs[1..]);
      SlotsCount(chosen[1..], sigs[1..]);
    }
    TotalFull(Filled(Slots(chosen, sigs)));
  }

  lemma {:induction false} TotalFull(items: seq<Item>)
    requires forall i :: 0 <= i < |items| ==> items[i] != []
    ensures Total(items) == |items|
  {
    if items != [] { TotalFull(items[1..]); }
  }

  lemma {:induction false} CountSet(chosen: seq<bool>, k: nat)
    requires k < |chosen| && !chosen[k]
    ensures Count(chosen[k := true]) == Count(chosen) + 1
  {
    if k > 0 {
      assert chosen[k := true][1..] == chosen[1..][k - 1 := true];
      CountSet(chosen[1..], k - 1);
    }
  }

  lemma {:induction false} IndexOfKey(keys: seq<Item>, k: nat)
    requires k < |keys| && forall i, j :: 0 <= i < j < |keys| ==> keys[i] != keys[j]
    ensures IndexOf(keys, keys[k]) == k
  {
    if k > 0 { IndexOfKey(keys[1..], k - 1); }
  }

  /** One more key signs. */
  lemma SignStep(s: Script, chosen: seq<bool>, sigs: seq<Item>, k: nat)
    requires Standard(s) && DistinctKeys(s) && AllSign(s, sigs) && |chosen| == |sigs|
    requires Count(chosen) < s.m && k < |chosen| && !chosen[k]
    ensures Templated(s, Progress(s, chosen, sigs))
    ensures SignedItems(s, Progress(s, chosen, sigs), sigs[k], s.keys[k]) == Progress(s, chosen[k := true], sigs)
  {
    hide Total, Filled, IndexOf, Count, InKeyOrder;
    var items := Progress(s, chosen, sigs);
    var slots := Slots(chosen, sigs);
    assert items[1..] == slots && Padded(slots, |s.keys|) == slots;
    SlotsCount(chosen, sigs);
    SlotsCount(chosen[k := true], sigs);
    CountSet(chosen, k);
    IndexOfKey(s.keys, k);
    var placed := Placed(s, slots, sigs[k], k);
    assert placed == Slots(chosen[k := true], sigs);
    assert Count(chosen[k := true]) == s.m ==> Filled(placed)[..s.m] == Filled(placed);
  }

  /** A key that has signed already changes nothing. */
  lemma SignTwice(s: Script, chosen: seq<bool>, sigs: seq<Item>, k: nat)
    requires Standard(s) && DistinctKeys(s) && AllSign(s, sigs) && |chosen| == |sigs|
    requires Count(chosen) < s.m && k < |chosen| && chosen[k]
    ensures Templated(s, Progress(s, chosen, sigs))
    ensures SignedItems(s, Progress(s, chosen, sigs), sigs[k], s.keys[k]) == Progress(s, chosen, sigs)
  {
    hide Total, Filled, IndexOf, Count, InKeyOrder;
    var slots := Slots(chosen, sigs);
    assert Progress(s, chosen, sigs)[1..] == slots && Padded(slots, |s.keys|) == slots;
    SlotsCount(chosen, sigs);
    IndexOfKey(s.keys, k);
  }

  /** With `m` signatures in place no further signing changes anything, whoever signs. */
  lemma SignFinal(s: Script, chosen: seq<bool>, sigs: seq<Item>, sig: Item, key: Item)
    requires Standard(s) && AllSign(s, sigs) && |chosen| == |sigs| && Count(chosen) == s.m
    ensures Templated(s, Progress(s, chosen, sigs))
    ensures SignedItems(s, Progress(s, chosen, sigs), sig, key) == Progress(s, chosen, sigs)
  {
    hide Total, Filled, IndexOf, Count, InKeyOrder;
    SlotsCount(chosen, sigs);
    assert Progress(s, chosen, sigs)[1..] == InKeyOrder(chosen, sigs);
  }

  predicate Within(order: seq<nat>, n: nat) {
    forall i :: 0 <= i < |order| ==> order[i] < n
  }

  /** The holders of the keys listed in `order` sign one after the other. */
  function Run(s: Script, items: seq<Item>, sigs: seq<Item>, order: seq<nat>): seq<Item>
    requires |sigs| == |s.keys| && Within(order, |s.keys|)
    decreases |order|
  {
    if order == [] || !Templated(s, items) then items
    else Run(s, SignedItems(s, items, sigs[order[0]], s.keys[order[0]]), sigs, order[1..])
  }

  function Mark(chosen: seq<bool>, order: seq<nat>): (r: seq<bool>)
    requires Within(order, |chosen|)
    ensures |r| == |chosen| && forall i :: 0 <= i < |chosen| ==> (r[i] <==> chosen[i] || i in order)
    decreases |order|
  {
    if order == [] then chosen
    else
      assert order == [order[0]] + order[1..];
      Mark(chosen[order[0] := true], order[1..])
  }

  predicate DistinctOrder(order: seq<nat>) {
    forall i, j :: 0 <= i < j < |order| ==> order[i] != order[j]
  }

  lemma {:induction false} RunFills(s: Script, chosen: seq<bool>, sigs: seq<Item>, order: seq<nat>)
    requires Standard(s) && DistinctKeys(s) && AllSign(s, sigs) && |chosen| == |sigs|
    requires DistinctOrder(order) && Within(order, |chosen|) && forall i :: 0 <= i < |order| ==> !chosen[order[i]]
    requires Count(chosen) + |order| <= s.m
    ensures Run(s, Progress(s, chosen, sigs), sigs, order) == Progress(s, Mark(chosen, order), sigs)
    ensures Count(Mark(chosen, order)) == Count(chosen) + |order|
    decreases |order|
  {
    hide Count, Progress, SignedItems, Templated;
    if order != [] {
      var k := order[0];
      SignStep(s, chosen, sigs, k);
      CountSet(chosen, k);
      RunFills(s, chosen[k := true], sigs, order[1..]);
    }
  }

  lemma {:induction false} RunFinal(s: Script, chosen: seq<bool>, sigs: seq<Item>, order: seq<nat>)
    requires Standard(s) && AllSign(s, sigs) && |chosen| == |sigs| && Count(chosen) == s.m
    requires Within(order, |s.keys|)
    ensures Run(s, Progress(s, chosen, sigs), sigs, order) == Progress(s, chosen, sigs)
    decreases |order|
  {
    hide Count, Progress, SignedItems, Templated;
    if order != [] {
      SignFinal(s, chosen, sigs, sigs[order[0]], s.keys[order[0]]);
      RunFinal(s, chosen, sigs, order[1..]);
    }
  }

  lemma {:induction false} RunBoth(s: Script, items: seq<Item>, sigs: seq<Item>, one: seq<nat>, two: seq<nat>)
    requires |sigs| == |s.keys| && Within(one, |s.keys|) && Within(two, |s.keys|)
    requires Templated(s, Run(s, items, sigs, one))
    ensures Within(one + two, |s.keys|)
    ensures Run(s, items, sigs, one + two) == Run(s, Run(s, items, sigs, one), sigs, two)
    decreases |one|
  {
    hide SignedItems, Templated;
    if one == [] {
      assert one + two == two;
    } else if Templated(s, items) {
      assert (one + two)[1..] == one[1..] + two;
      RunBoth(s, SignedItems(s, items, sigs[one[0]], s.keys[one[0]]), sigs, one[1..], two);
    }
  }

  /** Any `m` of the keys, in whatever order their holders sign, end in the same input: the dummy and
      the signatures in the order of the keys. Signing on changes nothing any more. */
  lemma AnyOrderSigns(s: Script, sigs: seq<Item>, order: seq<nat>, more: seq<nat>)
    requires Standard(s) && DistinctKeys(s) && AllSign(s, sigs)
    requires DistinctOrder(order) && |order| == s.m && Within(order, |s.keys|) && Within(more, |s.keys|)
    ensures Within(order + more, |s.keys|)
    ensures Run(s, Template(|s.keys|), sigs, order + more)
         == [[]] + InKeyOrder(seq(|s.keys|, i => i in order), sigs)
  {
    hide Count, SignedItems, InKeyOrder, Run, DistinctKeys;
    var none := seq(|s.keys|, _ => false);
    NoneCount(|s.keys|);
    assert Template(|s.keys|) == Progress(s, none, sigs);
    RunFills(s, none, sigs, order);
    var chosen := Mark(none, order);
    assert chosen == seq(|s.keys|, i => i in order);
    SignFinal(s, chosen, sigs, sigs[0], s.keys[0]);
    RunBoth(s, Template(|s.keys|), sigs, order, more);
    RunFinal(s, chosen, sigs, more);
  }

  lemma {:induction false} NoneCount(n: nat)
    ensures Count(seq(n, _ => false)) == 0
  {
    if n > 0 {
      NoneCount(n - 1);
      assert seq(n, _ => false)[1..] == seq(n - 1, _ => false);
    }
  }

  lemma {:induction false} InKeyOrderPicks(chosen: seq<bool>, sigs: seq<Item>) returns (at: seq<nat>)
    requires |chosen| == |sigs|
    ensures Picked(sigs, chosen, InKeyOrder(chosen, sigs), at)
    decreases |chosen|
  {
    if chosen == [] {
      at := [];
    } else {
      var n := |chosen| - 1;
      at := InKeyOrderPicks(chosen[..n], sigs[..n]);
      PickedLast(sigs[..n], chosen[..n], InKeyOrder(chosen[..n], sigs[..n]), at, sigs[n], chosen[n]);
      LastInOrder(chosen, sigs);
      assert chosen[..n] + [chosen[n]] == chosen && sigs[..n] + [sigs[n]] == sigs;
      at := at + if chosen[n] then [n] else [];
    }
  }

  lemma {:induction false} LastInOrder(chosen: seq<bool>, sigs: seq<Item>)
    requires |chosen| == |sigs| > 0
    ensures var n := |chosen| - 1;
      InKeyOrder(chosen, sigs) == InKeyOrder(chosen[..n], sigs[..n]) + if chosen[n] then [sigs[n]] else []
  {
    var n := |chosen| - 1;
    if n > 0 {
      LastInOrder(chosen[1..], sigs[1..]);
      assert chosen[1..][..n - 1] == chosen[..n][1..] && sigs[1..][..n - 1] == sigs[..n][1..];
    }
  }
}
