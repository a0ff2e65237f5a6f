/** Version-bits deployments (src/blockchain/chain.js, src/blockchain/chaindb.js; BIP9, "State
    transitions"). */
module Deployments {
  import opened Primitives
  import opened MedianTime
  import opened Arithmetic

  datatype State = DEFINED | STARTED | LOCKED_IN | ACTIVE | FAILED

  datatype Network = Network(minerWindow: nat, activationThreshold: nat)

  /** A threshold or window of -1 stands for that of the network. */
  datatype Deployment = Deployment(bit: nat, startTime: int, timeout: int, threshold: int, window: int)

  /** A deployment with its window and threshold settled. */
  datatype Rule = Rule(bit: nat, startTime: int, timeout: int, threshold: int, window: nat)

  predicate Sensible(net: Network, d: Deployment) {
    net.minerWindow > 0 && (d.window == -1 || d.window > 0) && d.bit < 32
  }

  function RuleOf(net: Network, d: Deployment): Rule
    requires Sensible(net, d)
  {
    Rule(d.bit, d.startTime, d.timeout,
      if d.threshold != -1 then d.threshold else net.activationThreshold,
      if d.window != -1 then d.window else net.minerWindow)
  }

  /** The top three bits must read 001. */
  predicate HasBit(version: Word, bit: nat) {
    version / 0x2000_0000 == 1 && version / Pow2(bit) % 2 == 1
  }

  // ----- what BIP9 says, window by window

  /** `b` is the last block of its window. */
  predicate OnBoundary(b: Block, window: nat)
    requires window > 0
  {
    (Height(b) + 1) % window == 0
  }

  /** The block one window below, if the chain is that long. */
  function Back(b: Block, window: nat): Option<Block> {
    if Height(b) >= window then Some(Ancestor(b, Height(b) - window)) else None
  }

  /** How many of `b` and the `k` - 1 blocks below it signal. */
  function Signals(b: Block, bit: nat, k: nat): (n: nat)
    ensures n <= k
  {
    if k == 0 then 0
    else (if HasBit(b.version, bit) then 1 else 0) + if b.prev.Some? then Signals(b.prev.value, bit, k - 1) else 0
  }

  /** The state after the window that ends in `b`, from the state before it. */
  function Next(before: State, b: Block, r: Rule): State {
    match before
    case DEFINED => if Mtp(b) >= r.timeout then FAILED else if Mtp(b) >= r.startTime then STARTED else DEFINED
    case STARTED => if Mtp(b) >= r.timeout then FAILED else if Signals(b, r.bit, r.window) >= r.threshold then LOCKED_IN else STARTED
    case LOCKED_IN => ACTIVE
    case ACTIVE => ACTIVE
    case FAILED => FAILED
  }

  /** The state of the blocks that follow the window ending in `b`; `None` is before the first one. */
  function After(b: Option<Block>, r: Rule): State
    requires r.window > 0
    decreases if b.Some? then Height(b.value) + 1 else 0
  {
    if b.None? then DEFINED else Next(After(Back(b.value, r.window), r), b.value, r)
  }

  /** The end of the last complete window at or below `b`. */
  function LastBoundary(b: Block, window: nat): (e: Option<Block>)
    requires window > 0
    ensures e.Some? ==> OnBoundary(e.value, window) && IsAncestor(e.value, b)
  {
    var past := (Height(b) + 1) % window;
    if past == 0 then Some(b)
    else if Height(b) < past then None
    else
      BoundaryBelow(Height(b) + 1, window);
      Some(Ancestor(b, Height(b) - past))
  }

  /** Going up one block moves one step through the window. */
  lemma ModStep(n: nat, w: nat)
    requires w > 0
    ensures (n + 1) % w == if n % w + 1 == w then 0 else n % w + 1
  {
    var q, r := n / w, n % w;
    if r + 1 == w {
      assert n + 1 == (q + 1) * w + 0;
      RemainderUnique(n + 1, w, q + 1, 0);
    } else {
      RemainderUnique(n + 1, w, q, r + 1);
    }
  }

  lemma BoundaryBelow(n: nat, w: nat)
    requires w > 0
    ensures 0 <= n - n % w && (n - n % w) % w == 0
  {
    RemainderUnique(n - n % w, w, n / w, 0);
  }

  /** The state that applies to the block after `b`. */
  function StateAfter(b: Block, r: Rule): State
    requires r.window > 0
  {
    After(LastBoundary(b, r.window), r)
  }

  /** One block up, the state stays unless a window ends there, and then moves on once. */
  lemma StateStep(b: Block, r: Rule)
    requires r.window > 0 && b.prev.Some?
    ensures StateAfter(b, r)
         == if OnBoundary(b, r.window) then Next(StateAfter(b.prev.value, r), b, r) else StateAfter(b.prev.value, r)
  {
    var p := b.prev.value;
    ModStep(Height(b), r.window);
    assert LastBoundary(p, r.window) == if OnBoundary(b, r.window) then Back(b, r.window) else LastBoundary(b, r.window);
  }

  // ----- what follows from it

  predicate Final(s: State) {
    s == ACTIVE || s == FAILED
  }

  /** Once active or failed, a deployment stays so for every descendant. */
  lemma {:induction false} FinalIsForever(a: Block, b: Block, r: Rule)
    requires r.window > 0 && IsAncestor(a, b) && Final(StateAfter(a, r))
    ensures StateAfter(b, r) == StateAfter(a, r)
  {
    if a != b {
      StateStep(b, r);
      FinalIsForever(a, b.prev.value, r);
    }
  }

  function Rank(s: State): nat {
    match s
    case DEFINED => 0
    case STARTED => 1
    case LOCKED_IN => 2
    case ACTIVE => 3
    case FAILED => 3
  }

  /** States only move forward, and being locked in is never followed by failure. */
  lemma {:induction false} StatesMoveForward(a: Block, b: Block, r: Rule)
    requires r.window > 0 && IsAncestor(a, b)
    ensures Rank(StateAfter(a, r)) <= Rank(StateAfter(b, r))
    ensures StateAfter(a, r) == LOCKED_IN ==> StateAfter(b, r) != FAILED
  {
    if a != b {
      StateStep(b, r);
      StatesMoveForward(a, b.prev.value, r);
    }
  }

  /** Being locked in lasts one window: at its end the deployment is active. */
  lemma LockedInActivates(b: Block, r: Rule)
    requires r.window > 0 && b.prev.Some? && OnBoundary(b, r.window) && StateAfter(b.prev.value, r) == LOCKED_IN
    ensures StateAfter(b, r) == ACTIVE
  {
    StateStep(b, r);
  }

  // ----- what a window decides, counted over its blocks

  /** Bit `k` of a number, counted from the lowest. */
  predicate BitOf(v: nat, k: nat) {
    if k == 0 then v % 2 == 1 else BitOf(v / 2, k - 1)
  }

  /** The version signals on `bit`: its top three bits read 001, and that bit is set. */
  predicate Signalled(version: Word, bit: nat) {
    !BitOf(version, 31) && !BitOf(version, 30) && BitOf(version, 29) && BitOf(version, bit)
  }

  lemma {:induction false} BitIs(v: nat, k: nat)
    ensures BitOf(v, k) <==> v / Pow2(k) % 2 == 1
  {
    if k > 0 {
      BitIs(v / 2, k - 1);
      QuotientTwice(v, Pow2(k - 1));
    }
  }

  lemma HasBitIs(version: Word, bit: nat)
    ensures HasBit(version, bit) <==> Signalled(version, bit)
  {
    BitIs(version, 29);
    BitIs(version, 30);
    BitIs(version, 31);
    BitIs(version, bit);
    TopBits();
    hide BitOf, Pow2;
  }

  lemma TopBits()
    ensures Pow2(29) == 0x2000_0000 && Pow2(30) == 0x4000_0000 && Pow2(31) == 0x8000_0000
  {
    NoDoubling();
    EightDoublings(0);
    EightDoublings(8);
    EightDoublings(16);
    assert Pow2(26) == 2 * Pow2(25) == 4 * Pow2(24);
    assert Pow2(28) == 2 * Pow2(27) == 4 * Pow2(26);
    assert Pow2(30) == 2 * Pow2(29) == 4 * Pow2(28);
  }

  /** The heights of the `k` blocks up to `b` whose versions signal on `bit`. */
  ghost function Signalling(b: Block, bit: nat, k: nat): set<nat> {
    set i | 0 <= i <= Height(b) && Height(b) < i + k && Signalled(Ancestor(b, i).version, bit)
  }

  lemma SignallingStep(b: Block, bit: nat, k: nat)
    requires k > 0 && b.prev.Some?
    ensures var below := Signalling(b.prev.value, bit, k - 1);
      Height(b) !in below && Signalling(b, bit, k) == below + if Signalled(b.version, bit) then {Height(b)} else {}
  {
    hide Signalled;
    var p := b.prev.value;
    forall i: nat | i <= Height(p) ensures Ancestor(b, i) == Ancestor(p, i) {
      AncestorBelow(b, i);
    }
    assert Ancestor(b, Height(b)) == b;
  }

  lemma AncestorBelow(b: Block, i: nat)
    requires b.prev.Some? && i < Height(b)
    ensures Ancestor(b, i) == Ancestor(b.prev.value, i)
  {}

  lemma {:induction false} SignalsCount(b: Block, bit: nat, k: nat)
    ensures Signals(b, bit, k) == |Signalling(b, bit, k)|
  {
    hide HasBit, Signalled;
    HasBitIs(b.version, bit);
    if k == 0 {
      assert Signalling(b, bit, k) == {};
    } else if b.prev.None? {
      assert Signalling(b, bit, k) == if Signalled(b.version, bit) then {0} else {};
    } else {
      hide Signalling;
      SignalsCount(b.prev.value, bit, k - 1);
      SignallingStep(b, bit, k);
    }
  }

  /** How the window that ends in `b` may move a deployment on from the state `before` it. */
  ghost predicate Moves(before: State, b: Block, r: Rule, after: State) {
    var mtp, support := Mtp(b), |Signalling(b, r.bit, r.window)|;
    match before
    case DEFINED =>
      && (after == FAILED <==> mtp >= r.timeout)
      && (after == STARTED <==> r.startTime <= mtp < r.timeout)
      && (after == DEFINED <==> mtp < r.startTime && mtp < r.timeout)
    case STARTED =>
      && (after == FAILED <==> mtp >= r.timeout)
      && (after == LOCKED_IN <==> mtp < r.timeout && support >= r.threshold)
      && (after == STARTED <==> mtp < r.timeout && support < r.threshold)
    case LOCKED_IN => after == ACTIVE
    case ACTIVE => after == ACTIVE
    case FAILED => after == FAILED
  }

  lemma NextMoves(before: State, b: Block, r: Rule)
    ensures Moves(before, b, r, Next(before, b, r))
  {
    hide Mtp, Signals, Signalling;
    SignalsCount(b, r.bit, r.window);
  }

  /** From one block to the next the state stays, unless a window ends there and decides. */
  lemma WindowDecides(b: Block, r: Rule)
    requires r.window > 0 && b.prev.Some?
    ensures OnBoundary(b, r.window) ==> Moves(StateAfter(b.prev.value, r), b, r, StateAfter(b, r))
    ensures !OnBoundary(b, r.window) ==> StateAfter(b, r) == StateAfter(b.prev.value, r)
  {
    hide Moves, Next;
    StateStep(b, r);
    NextMoves(StateAfter(b.prev.value, r), b, r);
  }

  /** `e` ends a window that locks the deployment in: it had started, its time was not up, and enough
      blocks of the window signalled. */
  ghost predicate LocksIn(e: Block, r: Rule)
    requires r.window > 0
  {
    && e.prev.Some? && OnBoundary(e, r.window) && StateAfter(e.prev.value, r) == STARTED
    && Mtp(e) < r.timeout && |Signalling(e, r.bit, r.window)| >= r.threshold
  }

  /** A deployment is locked in or active exactly when some window at or below has locked it in. */
  lemma {:induction false} ActiveExactly(b: Block, r: Rule)
    requires r.window > 0
    ensures StateAfter(b, r) == LOCKED_IN || StateAfter(b, r) == ACTIVE <==> exists e :: IsAncestor(e, b) && LocksIn(e, r)
  {
    hide Mtp, Signalling, OnBoundary, StateAfter;
    if b.prev.Some? {
      var p := b.prev.value;
      ActiveExactly(p, r);
      WindowDecides(b, r);
      if e :| IsAncestor(e, p) && LocksIn(e, r) { assert IsAncestor(e, b); }
      if LocksIn(b, r) { assert IsAncestor(b, b); }
    } else {
      FirstState(b, r);
    }
  }

  lemma FirstState(b: Block, r: Rule)
    requires r.window > 0 && b.prev.None?
    ensures StateAfter(b, r) != LOCKED_IN && StateAfter(b, r) != ACTIVE
  {
    hide Mtp;
    assert After(None, r) == DEFINED;
  }

  // ----- the walk

  /** What the walk comes to with nothing cached: it goes down a window at a time, stops at the first
      entry before the start time and calls it defined, and works back up from there. */
  function Walked(b: Option<Block>, r: Rule): State
    requires r.window > 0
    decreases if b.Some? then Height(b.value) + 1 else 0
  {
    if b.None? || Mtp(b.value) < r.startTime then DEFINED else Next(Walked(Back(b.value, r.window), r), b.value, r)
  }

  /** Between the timeout and the start time, BIP9 has failed a deployment the walk still calls defined. */
  predicate Disputed(b: Block, r: Rule) {
    r.timeout <= Mtp(b) < r.startTime
  }

  /** The walk gives the state of the window-by-window recursion exactly outside that time, so always
      when the start time is not after the timeout. */
  lemma WalkedIsAfter(b: Block, r: Rule)
    requires r.window > 0 && TimesOk(b)
    ensures Walked(Some(b), r) == After(Some(b), r) <==> !Disputed(b, r)
  {
    hide Mtp, After, Walked;
    if r.startTime <= r.timeout {
      WalkedInOrder(b, r);
    } else {
      WalkedReversed(b, r);
      AfterReversed(b, r);
    }
  }

  lemma {:induction false} WalkedInOrder(b: Block, r: Rule)
    requires r.window > 0 && TimesOk(b) && r.startTime <= r.timeout
    ensures Walked(Some(b), r) == After(Some(b), r)
    decreases Height(b)
  {
    hide Mtp;
    if Mtp(b) < r.startTime {
      EarlyIsDefined(b, r);
    } else {
      var p := Back(b, r.window);
      if p.Some? {
        MtpNeverFalls(p.value, b);
        WalkedInOrder(p.value, r);
      }
    }
  }

  /** Before a start time in order, whatever lies below, the deployment is merely defined. */
  lemma {:induction false} EarlyIsDefined(b: Block, r: Rule)
    requires r.window > 0 && r.startTime <= r.timeout && TimesOk(b) && Mtp(b) < r.startTime
    ensures After(Some(b), r) == DEFINED
    decreases Height(b)
  {
    hide Mtp;
    var p := Back(b, r.window);
    if p.Some? {
      MtpNeverFalls(p.value, b);
      EarlyIsDefined(p.value, r);
    }
  }

  lemma {:induction false} WalkedReversed(b: Block, r: Rule)
    requires r.window > 0 && r.timeout < r.startTime
    ensures Walked(Some(b), r) == if Mtp(b) >= r.startTime then FAILED else DEFINED
    decreases Height(b)
  {
    hide Mtp;
    var p := Back(b, r.window);
    if p.Some? { WalkedReversed(p.value, r); }
  }

  lemma {:induction false} AfterReversed(b: Block, r: Rule)
    requires r.window > 0 && r.timeout < r.startTime && TimesOk(b)
    ensures After(Some(b), r) == if Mtp(b) >= r.timeout then FAILED else DEFINED
    decreases Height(b)
  {
    hide Mtp;
    var p := Back(b, r.window);
    if p.Some? {
      MtpNeverFalls(p.value, b);
      AfterReversed(p.value, r);
    }
  }

  /** A chain of one block, in windows of one, on which the two part. */
  lemma WalkStopsEarly()
    ensures var g := Block(None, 7, 0, 1, 0, []);
      var r := Rule(0, 10, 5, 1, 1);
      LastBoundary(g, 1) == Some(g) && TimesOk(g) && Walked(Some(g), r) == DEFINED && After(Some(g), r) == FAILED
  {
    var g := Block(None, 7, 0, 1, 0, []);
    assert LastTimes(g.prev, MEDIAN_TIMESPAN - 1) == [];
    assert LastTimes(Some(g), MEDIAN_TIMESPAN) == [7];
    OneTime(7);
    assert Mtp(g) == 7;
    hide Mtp;
    assert Back(g, 1) == None;
  }

  lemma OneTime(t: nat)
    ensures Median([t]) == t
  {
    assert Sort([]) == [] && Insert(t, []) == [t];
  }

  // ----- the cached computation

  datatype CacheUpdate = CacheUpdate(bit: nat, hash: Block, state: State)

  /** Every cached state is the one the walk comes to with nothing cached. */
  ghost predicate Correct(bits: map<nat, map<Block, State>>, rules: map<nat, Rule>) {
    forall bit, b {:trigger bits[bit][b]} :: bit in bits && b in bits[bit] ==>
      bit in rules && rules[bit].window > 0 && bits[bit][b] == Walked(Some(b), rules[bit])
  }

  /** `now` holds everything `before` held. */
  ghost predicate Keeps(before: map<nat, map<Block, State>>, now: map<nat, map<Block, State>>) {
    && now.Keys == before.Keys
    && forall bit, b {:trigger b in before[bit]} :: bit in before && b in before[bit] ==> b in now[bit] && now[bit][b] == before[bit][b]
  }

  lemma CacheMore(bits: map<nat, map<Block, State>>, rules: map<nat, Rule>, bit: nat, b: Block, state: State)
    requires Correct(bits, rules) && bit in bits && bit in rules && rules[bit].window > 0
    requires state == Walked(Some(b), rules[bit])
    ensures Correct(bits[bit := bits[bit][b := state]], rules) && Keeps(bits, bits[bit := bits[bit][b := state]])
  {}

  lemma KeepsTrans(a: map<nat, map<Block, State>>, b: map<nat, map<Block, State>>, c: map<nat, map<Block, State>>)
    requires Keeps(a, b) && Keeps(b, c)
    ensures Keeps(a, c)
  {}

  class StateCache {
    var bits: map<nat, map<Block, State>>
    var updates: seq<CacheUpdate>

    constructor (deploys: set<nat>)
      ensures bits.Keys == deploys && (forall bit :: bit in bits ==> bits[bit] == map[]) && updates == []
    {
      bits := map bit | bit in deploys :: map[];
      updates := [];
    }

    method Set(bit: nat, entry: Block, state: State)
      requires bit in bits
      modifies this
      ensures bits == old(bits)[bit := old(bits[bit])[entry := state]]
      ensures updates == if entry in old(bits[bit]) && old(bits[bit])[entry] == state then old(updates)
        else old(updates) + [CacheUpdate(bit, entry, state)]
    {
      var cache := bits[bit];
      if entry !in cache || cache[entry] != state {
        bits := bits[bit := cache[entry := state]];
        updates := updates + [CacheUpdate(bit, entry, state)];
      } else {
        assert cache[entry := state] == cache;
        assert bits[bit := cache] == bits;
      }
    }

    method Get(bit: nat, entry: Block) returns (state: Option<State>)
      requires bit in bits
      ensures state == if entry in bits[bit] then Some(bits[bit][entry]) else None
    {
      state := if entry in bits[bit] then Some(bits[bit][entry]) else None;
    }

    method Commit()
      modifies this
      ensures bits == old(bits) && updates == []
    {
      updates := [];
    }

    /** Forget what has been set since the last commit. What stays cached was cached before. */
    method Drop()
      requires forall k :: 0 <= k < |updates| ==> updates[k].bit in bits
      modifies this
      ensures updates == [] && Keeps(bits, old(bits))
      ensures forall k :: 0 <= k < |old(updates)| ==> old(updates)[k].hash !in bits[old(updates)[k].bit]
    {
      ghost var before := bits;
      for k := 0 to |updates|
        invariant updates == old(updates) && Keeps(bits, before)
        invariant forall i :: 0 <= i < k ==> updates[i].hash !in bits[updates[i].bit]
      {
        var u := updates[k];
        bits := bits[u.bit := bits[u.bit] - {u.hash}];
      }
      updates := [];
    }
  }

  /** A cache left with fewer entries is still correct. */
  lemma DropKeepsCorrect(before: map<nat, map<Block, State>>, now: map<nat, map<Block, State>>, rules: map<nat, Rule>)
    requires Correct(before, rules) && Keeps(now, before)
    ensures Correct(now, rules)
  {
    forall bit, b | bit in now && b in now[bit]
      ensures bit in rules && rules[bit].window > 0 && now[bit][b] == Walked(Some(b), rules[bit])
    {
      assert b in before[bit] && before[bit][b] == now[bit][b];
    }
  }

  /** Entries a window apart, from `first` down, none of them before the start time; `next` is a window
      below the last of them. */
  ghost predicate Stacked(compute: seq<Block>, r: Rule, first: Block, next: Option<Block>) {
    && (forall k :: 0 <= k < |compute| ==> Mtp(compute[k]) >= r.startTime)
    && (forall k :: 0 <= k < |compute| - 1 ==> Back(compute[k], r.window) == Some(compute[k + 1]))
    && if compute == [] then next == Some(first) else compute[0] == first && Back(compute[|compute| - 1], r.window) == next
  }

  lemma StackPush(compute: seq<Block>, r: Rule, first: Block, b: Block)
    requires Stacked(compute, r, first, Some(b)) && Mtp(b) >= r.startTime
    ensures Stacked(compute + [b], r, first, Back(b, r.window))
  {
    hide Mtp;
  }

  lemma StackPop(compute: seq<Block>, r: Rule, first: Block, next: Option<Block>)
    requires Stacked(compute, r, first, next) && compute != []
    ensures Back(compute[|compute| - 1], r.window) == next && Mtp(compute[|compute| - 1]) >= r.startTime
    ensures Stacked(compute[..|compute| - 1], r, first, Some(compute[|compute| - 1]))
  {
    hide Mtp;
  }

  lemma StackBegin(r: Rule, first: Block)
    ensures Stacked([], r, first, Some(first))
  {}

  lemma StackEmpty(r: Rule, first: Block, next: Option<Block>)
    requires Stacked([], r, first, next)
    ensures next == Some(first)
  {}

  lemma WalkStep(r: Rule, b: Block)
    requires r.window > 0
    ensures Walked(None, r) == After(None, r) == DEFINED
    ensures Walked(Some(b), r) == if Mtp(b) < r.startTime then DEFINED else Next(Walked(Back(b, r.window), r), b, r)
    ensures Back(b, r.window) == if Height(b) - r.window >= 0 then Some(Ancestor(b, Height(b) - r.window)) else None
    ensures Back(b, r.window).Some? ==> Height(Back(b, r.window).value) < Height(b)
  {
    hide Mtp;
  }

  lemma CachedIsWalked(bits: map<nat, map<Block, State>>, rules: map<nat, Rule>, bit: nat, b: Block)
    requires Correct(bits, rules) && bit in bits && bit in rules && b in bits[bit]
    ensures rules[bit].window > 0 && bits[bit][b] == Walked(Some(b), rules[bit])
  {}

  lemma KeepsAll(bits: map<nat, map<Block, State>>)
    ensures Keeps(bits, bits)
  {}

  /** The state after the window that ends in `entry`. A window is counted only when a whole one lies
      below the entry's own, so the walk never leaves the chain. */
  method Transition(state: State, entry: Block, r: Rule) returns (next: State)
    requires r.window > 0 && (state == STARTED ==> Height(entry) >= r.window)
    ensures next == Next(state, entry, r) && Moves(state, entry, r, next)
  {
    hide Mtp, HasBit, Moves;
    NextMoves(state, entry, r);
    next := state;
    match state {
      case DEFINED =>
        var time := GetMedianTime(entry, None);
        if time >= r.timeout {
          return FAILED;
        }
        if time >= r.startTime {
          return STARTED;
        }
      case STARTED =>
        var time := GetMedianTime(entry, None);
        if time >= r.timeout {
          return FAILED;
        }
        var block := entry;
        var count := 0;
        for i := 0 to r.window
          invariant Height(block) + i == Height(entry)
          invariant count + Signals(block, r.bit, r.window - i) == Signals(entry, r.bit, r.window)
          invariant i > 0 ==> count < r.threshold
        {
          if HasBit(block.version, r.bit) {
            count := count + 1;
          }
          if count >= r.threshold {
            return LOCKED_IN;
          }
          block := block.prev.value;
        }
      case LOCKED_IN =>
        return ACTIVE;
      case ACTIVE =>
      case FAILED =>
    }
  }

  /** Walk down a window at a time from `first` to an entry whose state is known; the entries passed
      on the way are left to compute. */
  method FindKnown(first: Block, rule: Rule, cache: StateCache, ghost rules: map<nat, Rule>)
    returns (state: State, entry: Option<Block>, compute: seq<Block>)
    requires rule.window > 0 && rule.bit in cache.bits && rule.bit in rules && rules[rule.bit] == rule
    requires Correct(cache.bits, rules)
    modifies cache
    ensures Correct(cache.bits, rules) && Keeps(old(cache.bits), cache.bits) && rule.bit in cache.bits
    ensures Stacked(compute, rule, first, entry) && state == Walked(entry, rule)
    ensures compute == [] ==> first in cache.bits[rule.bit]
  {
    hide Correct, Keeps, Ancestor, TimesOk, Mtp, After, Walked, Signals, Stacked, Back, Next, IsAncestor, Height;
    hide HasBit, Median, LastTimes;
    ghost var before := cache.bits;
    var bit := rule.bit;
    var window := rule.window;
    KeepsAll(cache.bits);
    WalkStep(rule, first);
    state := DEFINED;
    entry := Some(first);
    compute := [];
    StackBegin(rule, first);
    while entry.Some?
      invariant state == DEFINED && Correct(cache.bits, rules) && Keeps(before, cache.bits)
      invariant bit in cache.bits
      invariant Stacked(compute, rule, first, entry) && (compute == [] ==> entry == Some(first))
      decreases if entry.Some? then Height(entry.value) + 1 else 0
    {
      var cached := cache.Get(bit, entry.value);
      if cached.Some? {
        CachedIsWalked(cache.bits, rules, bit, entry.value);
        state := cached.value;
        break;
      }
      var time := GetMedianTime(entry.value, None);
      if time < rule.startTime {
        WalkStep(rule, entry.value);
        Remember(cache, bit, entry.value, DEFINED, rules, before);
        break;
      }
      WalkStep(rule, entry.value);
      StackPush(compute, rule, first, entry.value);
      compute := compute + [entry.value];
      var height := Height(entry.value) - window;
      entry := if height >= 0 then Some(Ancestor(entry.value, height)) else None;
    }
  }

  lemma WalkedMeans(prev: Block, e: Block, r: Rule)
    requires r.window > 0 && IsAncestor(e, prev) && TimesOk(prev)
    ensures Walked(Some(e), r) == After(Some(e), r) <==> !Disputed(e, r)
  {
    MtpNeverFalls(e, prev);
    WalkedIsAfter(e, r);
  }

  /** Walk down a window at a time to an entry whose state is known, then work back up. Whatever
      correct states are cached, the outcome is that of the walk with nothing cached, and with that the
      state BIP9 gives, outside the one disputed time. */
  method GetState(prev: Block, net: Network, deployment: Deployment, cache: StateCache, ghost rules: map<nat, Rule>)
    returns (state: State)
    requires Sensible(net, deployment)
    requires deployment.bit in cache.bits && deployment.bit in rules && rules[deployment.bit] == RuleOf(net, deployment)
    requires Correct(cache.bits, rules)
    modifies cache
    ensures var r := RuleOf(net, deployment);
      var e := LastBoundary(prev, r.window);
      && state == Walked(e, r)
      && (TimesOk(prev) ==> (state == StateAfter(prev, r) <==> e.None? || !Disputed(e.value, r)))
    ensures Correct(cache.bits, rules) && Keeps(old(cache.bits), cache.bits)
    ensures var e := LastBoundary(prev, RuleOf(net, deployment).window);
      deployment.bit in cache.bits && (e.Some? ==> e.value in cache.bits[deployment.bit])
  {
    hide Correct, Keeps, Ancestor, TimesOk, Mtp, After, Walked, Signals, Stacked, Back, Next, IsAncestor, Height;
    hide HasBit;
    ghost var before := cache.bits;
    var bit := deployment.bit;
    var window := net.minerWindow;
    var threshold: int := net.activationThreshold;
    if deployment.threshold != -1 {
      threshold := deployment.threshold;
    }
    if deployment.window != -1 {
      window := deployment.window;
    }
    var rule := Rule(bit, deployment.startTime, deployment.timeout, threshold, window);
    assert rule == RuleOf(net, deployment);
    WalkStep(rule, prev);
    KeepsAll(cache.bits);
    var first := prev;
    if (Height(prev) + 1) % window != 0 {
      var height := Height(prev) - (Height(prev) + 1) % window;
      if height < 0 {
        return DEFINED;
      }
      first := Ancestor(prev, height);
    }
    if TimesOk(prev) { WalkedMeans(prev, first, rule); }

    var entry, compute;
    state, entry, compute := FindKnown(first, rule, cache, rules);
    while compute != []
      invariant Correct(cache.bits, rules) && Keeps(before, cache.bits) && bit in cache.bits
      invariant Stacked(compute, rule, first, entry) && state == Walked(entry, rule)
      invariant compute == [] ==> first in cache.bits[bit]
      decreases |compute|
    {
      StackPop(compute, rule, first, entry);
      var last := compute[|compute| - 1];
      compute := compute[..|compute| - 1];
      WalkStep(rule, last);
      state := Transition(state, last, rule);
      Remember(cache, bit, last, state, rules, before);
      entry := Some(last);
      if compute == [] { StackEmpty(rule, first, entry); }
    }
    StackEmpty(rule, first, entry);
  }

  /** Cache a state that is known to be right. */
  method Remember(cache: StateCache, bit: nat, b: Block, state: State, ghost rules: map<nat, Rule>,
      ghost before: map<nat, map<Block, State>>)
    requires Correct(cache.bits, rules) && bit in cache.bits && bit in rules && rules[bit].window > 0
    requires state == Walked(Some(b), rules[bit])
    requires Keeps(before, cache.bits)
    modifies cache
    ensures Correct(cache.bits, rules) && Keeps(before, cache.bits) && bit in cache.bits && b in cache.bits[bit]
  {
    CacheMore(cache.bits, rules, bit, b, state);
    KeepsTrans(before, cache.bits, cache.bits[bit := cache.bits[bit][b := state]]);
    cache.Set(bit, b, state);
  }
}
