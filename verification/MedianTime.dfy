/** Median time past (src/blockchain/chain.js). */
module MedianTime {
  import opened Primitives

  const MEDIAN_TIMESPAN: nat := 11

  // ----- sorting and medians

  predicate Ordered(s: seq<nat>) {
    forall i, j :: 0 <= i < j < |s| ==> s[i] <= s[j]
  }

  function Insert(x: nat, s: seq<nat>): seq<nat> {
    if s == [] || x <= s[0] then [x] + s else [s[0]] + Insert(x, s[1..])
  }

  function Sort(s: seq<nat>): seq<nat> {
    if s == [] then [] else Insert(s[0], Sort(s[1..]))
  }

  /** How many elements are no larger than `x`. */
  function AtMost(s: seq<nat>, x: nat): (n: nat)
    ensures n <= |s|
  {
    if s == [] then 0 else (if s[0] <= x then 1 else 0) + AtMost(s[1..], x)
  }

  lemma {:induction false} InsertSorts(x: nat, s: seq<nat>)
    requires Ordered(s)
    ensures Ordered(Insert(x, s)) && |Insert(x, s)| == |s| + 1
    ensures forall y :: AtMost(Insert(x, s), y) == AtMost([x] + s, y)
    ensures s != [] ==> Insert(x, s)[0] == if x <= s[0] then x else s[0]
  {
    if s != [] && x > s[0] {
      InsertSorts(x, s[1..]);
      var t := Insert(x, s[1..]);
      assert s[1..] != [] ==> s[1] == s[1..][0];
      if s[1..] == [] { assert t == [x]; }
      assert forall i :: 0 <= i < |t| ==> s[0] <= t[0] <= t[i];
      forall y ensures AtMost([s[0]] + t, y) == AtMost([x] + s, y) {
        assert ([s[0]] + t)[1..] == t && ([x] + s)[1..] == s && ([x] + s[1..])[1..] == s[1..];
      }
    }
  }

  /** Sorting orders the list and keeps how many elements lie below any bound. */
  lemma {:induction false} SortSorts(s: seq<nat>)
    ensures Ordered(Sort(s)) && |Sort(s)| == |s|
    ensures forall y :: AtMost(Sort(s), y) == AtMost(s, y)
  {
    if s != [] {
      SortSorts(s[1..]);
      InsertSorts(s[0], Sort(s[1..]));
      forall y ensures AtMost(Insert(s[0], Sort(s[1..])), y) == AtMost(s, y) {
        assert ([s[0]] + Sort(s[1..]))[1..] == Sort(s[1..]);
      }
    }
  }

  /** The element the list has in the middle once it is sorted; the upper one of two. */
  function Median(s: seq<nat>): nat
    requires s != []
  {
    SortSorts(s);
    Sort(s)[|s| / 2]
  }

  lemma {:induction false} OrderedCount(s: seq<nat>, k: nat, x: nat)
    requires Ordered(s) && k < |s|
    ensures s[k] <= x <==> AtMost(s, x) > k
  {
    if k > 0 {
      OrderedCount(s[1..], k - 1, x);
    } else if s[0] > x {
      NoneAtMost(s, x);
    }
  }

  lemma {:induction false} NoneAtMost(s: seq<nat>, x: nat)
    requires forall i :: 0 <= i < |s| ==> s[i] > x
    ensures AtMost(s, x) == 0
  {
    if s != [] { NoneAtMost(s[1..], x); }
  }

  /** What a median is: it is at most `x` exactly when more than half the list is. */
  lemma MedianAtMost(s: seq<nat>, x: nat)
    requires s != []
    ensures Median(s) <= x <==> AtMost(s, x) > |s| / 2
  {
    SortSorts(s);
    OrderedCount(Sort(s), |s| / 2, x);
  }

  // ----- the median time of a chain

  /** The times of `b` and the blocks below it, `k` at most, newest first. */
  function LastTimes(b: Option<Block>, k: nat): (r: seq<nat>)
    ensures |r| <= k && (r == [] <==> b.None? || k == 0)
    decreases k
  {
    if b.None? || k == 0 then [] else [b.value.time] + LastTimes(b.value.prev, k - 1)
  }

  /** Median time past of `b`. */
  function Mtp(b: Block): nat {
    Median(LastTimes(Some(b), MEDIAN_TIMESPAN))
  }

  /** The times looked at; with `time`, the block to come counts and one block less is looked at. */
  function Window(prev: Block, time: Option<nat>): (r: seq<nat>)
    ensures r != []
  {
    if time.Some? then [time.value] + LastTimes(Some(prev), MEDIAN_TIMESPAN - 1) else LastTimes(Some(prev), MEDIAN_TIMESPAN)
  }

  method GetMedianTime(prev: Block, time: Option<nat>) returns (r: nat)
    ensures r == Median(Window(prev, time))
    ensures time.None? ==> r == Mtp(prev)
  {
    hide Sort, AtMost, Ordered, LastTimes;
    var timespan := MEDIAN_TIMESPAN;
    var median: seq<nat> := [];
    if time.Some? {
      median := median + [time.value];
      timespan := timespan - 1;
    }
    var entry := Some(prev);
    var i := 0;
    assert median + LastTimes(entry, timespan - i) == Window(prev, time);
    while i < timespan && entry.Some?
      invariant 0 <= i <= timespan
      invariant median + LastTimes(entry, timespan - i) == Window(prev, time)
    {
      NextTime(median, entry.value, timespan - i);
      median := median + [entry.value.time];
      entry := entry.value.prev;
      i := i + 1;
    }
    assert median + [] == median;
    SortSorts(median);
    r := Sort(median)[|median| / 2];
  }

  lemma NextTime(s: seq<nat>, b: Block, k: nat)
    requires k > 0
    ensures s + LastTimes(Some(b), k) == (s + [b.time]) + LastTimes(b.prev, k - 1)
  {}

  /** Every block above genesis is later than the median time past of its parent. */
  predicate TimesOk(b: Block) {
    b.prev.Some? ==> b.time > Mtp(b.prev.value) && TimesOk(b.prev.value)
  }

  /** Adding a later time to a window, and dropping the oldest one at most, does not lower the median. */
  lemma MedianRises(window: seq<nat>, time: nat, kept: nat)
    requires window != [] && time >= Median(window) && |window| - 1 <= kept <= |window|
    ensures Median([time] + window[..kept]) >= Median(window)
  {
    var next := [time] + window[..kept];
    var m := Median(next);
    if m < Median(window) {
      MedianAtMost(next, m);
      MedianAtMost(window, m);
      assert next[1..] == window[..kept];
      AtMostPrefix(window, kept, m);
    }
  }

  lemma {:induction false} AtMostPrefix(s: seq<nat>, k: nat, x: nat)
    requires k <= |s|
    ensures AtMost(s[..k], x) <= AtMost(s, x)
  {
    if k > 0 {
      assert s[..k][1..] == s[1..][..k - 1];
      AtMostPrefix(s[1..], k - 1, x);
    }
  }

  lemma {:induction false} ShorterWindow(b: Option<Block>, k: nat)
    ensures var s := LastTimes(b, k + 1); LastTimes(b, k) == s[..if |s| <= k then |s| else k]
  {
    if b.Some? && k > 0 {
      ShorterWindow(b.value.prev, k - 1);
    }
  }

  /** The median time past never decreases from a block to the next, the first ten included. */
  lemma MtpRises(b: Block)
    requires b.prev.Some? && b.time >= Mtp(b.prev.value)
    ensures Mtp(b) >= Mtp(b.prev.value)
  {
    var window := LastTimes(b.prev, MEDIAN_TIMESPAN);
    ShorterWindow(b.prev, MEDIAN_TIMESPAN - 1);
    MedianRises(window, b.time, if |window| <= 10 then |window| else 10);
  }

  /** So it never decreases along a chain. */
  lemma {:induction false} MtpNeverFalls(a: Block, b: Block)
    requires IsAncestor(a, b) && TimesOk(b)
    ensures Mtp(a) <= Mtp(b) && TimesOk(a)
  {
    if a != b {
      MtpRises(b);
      MtpNeverFalls(a, b.prev.value);
    }
  }

  /** The times looked at are those of the block and of its nearest ancestors, `k` at most. */
  lemma {:induction false} LastTimesAre(b: Block, k: nat)
    ensures var s := LastTimes(Some(b), k);
      && |s| == (if k <= Height(b) then k else Height(b) + 1)
      && forall i :: 0 <= i < |s| ==> s[i] == Ancestor(b, Height(b) - i).time
    decreases k
  {
    if k > 0 && b.prev.Some? {
      var p := b.prev.value;
      LastTimesAre(p, k - 1);
      forall i | 0 <= i <= Height(p) ensures Ancestor(p, i) == Ancestor(b, i) {
        BelowTop(b, i);
      }
    }
  }

  lemma BelowTop(b: Block, i: nat)
    requires b.prev.Some? && i < Height(b)
    ensures Ancestor(b, i) == Ancestor(b.prev.value, i)
  {}
}
