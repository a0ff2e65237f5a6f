/** Relative lock times (src/blockchain/chain.js; BIP68, "Specification"). */
module SequenceLocks {
  import opened Primitives
  import opened MedianTime

  const SEQUENCE_DISABLE_FLAG: nat := 0x8000_0000
  const SEQUENCE_TYPE_FLAG: nat := 0x40_0000
  const SEQUENCE_MASK: nat := 0xffff

  /** Seconds in one unit of a time lock: the masked bits are shifted left by nine. */
  const TIME_UNIT: nat := 512

  /** The single-bit flag `bit` is set in `sequence`. */
  predicate HasFlag(sequence: nat, bit: nat)
    requires bit > 0
  {
    sequence / bit % 2 == 1
  }

  function Masked(sequence: nat): nat {
    sequence % (SEQUENCE_MASK + 1)
  }

  /** Height of the coin an input spends; -1 when the view has no such coin or the coin is unconfirmed. */
  type Heights = map<Outpoint, int>

  function CoinHeight(heights: Heights, input: Input, tipHeight: nat): int {
    if input.prevout in heights && heights[input.prevout] != -1 then heights[input.prevout] else tipHeight + 1
  }

  /** Coins come from blocks no higher than the one being built on `prev`. */
  predicate Known(prev: Block, tx: Tx, heights: Heights, tipHeight: nat) {
    forall i :: 0 <= i < |tx.inputs| ==> 0 <= CoinHeight(heights, tx.inputs[i], tipHeight) <= Height(prev) + 1
  }

  // ----- what BIP68 asks of one input

  /** The time a lock counts from: the median time past of the block before the coin's. */
  function LockStart(prev: Block, coinHeight: int): nat
    requires coinHeight <= Height(prev) + 1
  {
    Mtp(Ancestor(prev, if coinHeight > 0 then coinHeight - 1 else 0))
  }

  /** The lock of an input is over for a transaction in the block after `prev`. */
  predicate Matured(prev: Block, input: Input, coinHeight: int)
    requires coinHeight <= Height(prev) + 1
  {
    if HasFlag(input.sequence, SEQUENCE_DISABLE_FLAG) then true
    else if HasFlag(input.sequence, SEQUENCE_TYPE_FLAG) then
      LockStart(prev, coinHeight) + Masked(input.sequence) * TIME_UNIT <= Mtp(prev)
    else coinHeight + Masked(input.sequence) <= Height(prev) + 1
  }

  predicate Applies(tx: Tx, verifySequence: bool) {
    verifySequence && !tx.IsCoinbase() && tx.version >= 2
  }

  /** Every input of the transaction has matured, as far as locks apply to it. */
  predicate LocksPass(prev: Block, tx: Tx, heights: Heights, tipHeight: nat, verifySequence: bool)
    requires Known(prev, tx, heights, tipHeight)
  {
    Applies(tx, verifySequence) ==>
      forall i :: 0 <= i < |tx.inputs| ==> Matured(prev, tx.inputs[i], CoinHeight(heights, tx.inputs[i], tipHeight))
  }

  // ----- the code

  /** The height and the time an input's lock asks for; -1 when it asks for none. */
  function HeightLock(input: Input, coinHeight: int): int {
    if HasFlag(input.sequence, SEQUENCE_DISABLE_FLAG) || HasFlag(input.sequence, SEQUENCE_TYPE_FLAG) then -1
    else coinHeight + Masked(input.sequence) - 1
  }

  function TimeLock(prev: Block, input: Input, coinHeight: int): int
    requires coinHeight <= Height(prev) + 1
  {
    if HasFlag(input.sequence, SEQUENCE_DISABLE_FLAG) || !HasFlag(input.sequence, SEQUENCE_TYPE_FLAG) then -1
    else LockStart(prev, coinHeight) + Masked(input.sequence) * TIME_UNIT - 1
  }

  lemma LocksAre(prev: Block, input: Input, coinHeight: int)
    requires coinHeight <= Height(prev) + 1
    ensures HasFlag(input.sequence, SEQUENCE_DISABLE_FLAG) ==>
      HeightLock(input, coinHeight) == -1 == TimeLock(prev, input, coinHeight)
    ensures !HasFlag(input.sequence, SEQUENCE_DISABLE_FLAG) && !HasFlag(input.sequence, SEQUENCE_TYPE_FLAG) ==>
      HeightLock(input, coinHeight) == coinHeight + Masked(input.sequence) - 1
      && TimeLock(prev, input, coinHeight) == -1
    ensures !HasFlag(input.sequence, SEQUENCE_DISABLE_FLAG) && HasFlag(input.sequence, SEQUENCE_TYPE_FLAG) ==>
      HeightLock(input, coinHeight) == -1
      && TimeLock(prev, input, coinHeight)
         == Mtp(Ancestor(prev, if coinHeight > 0 then coinHeight - 1 else 0)) + Masked(input.sequence) * TIME_UNIT - 1
  {
    hide HasFlag, Mtp, Ancestor, Masked;
  }

  method GetLocks(prev: Block, tx: Tx, heights: Heights, tipHeight: nat, verifySequence: bool)
    returns (minHeight: int, minTime: int)
    requires Known(prev, tx, heights, tipHeight)
    ensures !Applies(tx, verifySequence) ==> minHeight == -1 && minTime == -1
    ensures minHeight >= -1 && minTime >= -1
    ensures Applies(tx, verifySequence) ==> forall i :: 0 <= i < |tx.inputs| ==>
      var h := CoinHeight(heights, tx.inputs[i], tipHeight);
      HeightLock(tx.inputs[i], h) <= minHeight && TimeLock(prev, tx.inputs[i], h) <= minTime
    ensures minHeight == -1 || exists i ::
      0 <= i < |tx.inputs| && minHeight == HeightLock(tx.inputs[i], CoinHeight(heights, tx.inputs[i], tipHeight))
    ensures minTime == -1 || exists i ::
      0 <= i < |tx.inputs| && minTime == TimeLock(prev, tx.inputs[i], CoinHeight(heights, tx.inputs[i], tipHeight))
  {
    hide HasFlag, Mtp, Ancestor, Height, Masked, HeightLock, TimeLock, LockStart, Asked;
    if !verifySequence {
      return -1, -1;
    }
    if tx.IsCoinbase() || tx.version < 2 {
      return -1, -1;
    }
    minHeight, minTime := -1, -1;
    AskedNone(prev, tx, heights, tipHeight);
    for k := 0 to |tx.inputs|
      invariant Asked(prev, tx, heights, tipHeight, k, minHeight, minTime)
    {
      var sequence := tx.inputs[k].sequence;
      LocksAre(prev, tx.inputs[k], CoinHeight(heights, tx.inputs[k], tipHeight));
      AskedStep(prev, tx, heights, tipHeight, k, minHeight, minTime);
      if HasFlag(sequence, SEQUENCE_DISABLE_FLAG) {
        continue;
      }
      var height := if tx.inputs[k].prevout in heights then heights[tx.inputs[k].prevout] else -1;
      if height == -1 {
        height := tipHeight + 1;
      }
      if !HasFlag(sequence, SEQUENCE_TYPE_FLAG) {
        height := height + Masked(sequence) - 1;
        minHeight := if height > minHeight then height else minHeight;
        continue;
      }
      height := if height - 1 > 0 then height - 1 else 0;
      var time := GetMedianTime(Ancestor(prev, height), None);
      var until := time + Masked(sequence) * TIME_UNIT - 1;
      minTime := if until > minTime then until else minTime;
    }
    AskedAll(prev, tx, heights, tipHeight, minHeight, minTime);
  }

  /** Of the first `k` inputs none asks for more, and some for as much. */
  ghost predicate Asked(prev: Block, tx: Tx, heights: Heights, tipHeight: nat, k: nat, minHeight: int, minTime: int)
    requires Known(prev, tx, heights, tipHeight) && k <= |tx.inputs|
  {
    && minHeight >= -1 && minTime >= -1
    && (forall i :: 0 <= i < k ==>
      var h := CoinHeight(heights, tx.inputs[i], tipHeight);
      HeightLock(tx.inputs[i], h) <= minHeight && TimeLock(prev, tx.inputs[i], h) <= minTime)
    && (minHeight == -1 || exists i ::
      0 <= i < k && minHeight == HeightLock(tx.inputs[i], CoinHeight(heights, tx.inputs[i], tipHeight)))
    && (minTime == -1 || exists i ::
      0 <= i < k && minTime == TimeLock(prev, tx.inputs[i], CoinHeight(heights, tx.inputs[i], tipHeight)))
  }

  lemma AskedNone(prev: Block, tx: Tx, heights: Heights, tipHeight: nat)
    requires Known(prev, tx, heights, tipHeight)
    ensures Asked(prev, tx, heights, tipHeight, 0, -1, -1)
  {}

  lemma AskedStep(prev: Block, tx: Tx, heights: Heights, tipHeight: nat, k: nat, minHeight: int, minTime: int)
    requires Known(prev, tx, heights, tipHeight) && k < |tx.inputs|
    requires Asked(prev, tx, heights, tipHeight, k, minHeight, minTime)
    ensures var h := CoinHeight(heights, tx.inputs[k], tipHeight);
      var height, time := HeightLock(tx.inputs[k], h), TimeLock(prev, tx.inputs[k], h);
      && minHeight >= -1 && minTime >= -1
      && Asked(prev, tx, heights, tipHeight, k + 1,
        if height > minHeight then height else minHeight, if time > minTime then time else minTime)
  {
    hide HeightLock, TimeLock, CoinHeight;
  }

  lemma AskedAll(prev: Block, tx: Tx, heights: Heights, tipHeight: nat, minHeight: int, minTime: int)
    requires Known(prev, tx, heights, tipHeight)
    requires Asked(prev, tx, heights, tipHeight, |tx.inputs|, minHeight, minTime)
    ensures minHeight >= -1 && minTime >= -1
    ensures forall i :: 0 <= i < |tx.inputs| ==>
      var h := CoinHeight(heights, tx.inputs[i], tipHeight);
      HeightLock(tx.inputs[i], h) <= minHeight && TimeLock(prev, tx.inputs[i], h) <= minTime
    ensures minHeight == -1 || exists i ::
      0 <= i < |tx.inputs| && minHeight == HeightLock(tx.inputs[i], CoinHeight(heights, tx.inputs[i], tipHeight))
    ensures minTime == -1 || exists i ::
      0 <= i < |tx.inputs| && minTime == TimeLock(prev, tx.inputs[i], CoinHeight(heights, tx.inputs[i], tipHeight))
  {
    hide HeightLock, TimeLock, CoinHeight;
  }

  /** The locks of a transaction pass exactly when each of its inputs has matured as BIP68 asks. */
  method VerifyLocks(prev: Block, tx: Tx, heights: Heights, tipHeight: nat, verifySequence: bool) returns (ok: bool)
    requires Known(prev, tx, heights, tipHeight)
    ensures ok <==> LocksPass(prev, tx, heights, tipHeight, verifySequence)
  {
    hide HasFlag, Mtp, Ancestor;
    var height, time := GetLocks(prev, tx, heights, tipHeight, verifySequence);
    var mtp := GetMedianTime(prev, None);
    if height != -1 && height >= Height(prev) + 1 {
      return false;
    }
    if time != -1 && time >= mtp {
      return false;
    }
    return true;
  }

  /** A lock that has passed at one block has passed at every block above it. */
  lemma MaturedStays(a: Block, b: Block, input: Input, coinHeight: int)
    requires IsAncestor(a, b) && TimesOk(b) && 0 <= coinHeight <= Height(a) + 1 && Matured(a, input, coinHeight)
    ensures Height(a) <= Height(b) && Matured(b, input, coinHeight)
  {
    hide HasFlag, Mtp;
    AncestorHeight(a, b);
    MtpNeverFalls(a, b);
    SameAncestor(a, b, if coinHeight > 0 then coinHeight - 1 else 0);
  }

  /** Every input spends a coin of known height. */
  predicate AllConfirmed(tx: Tx, heights: Heights) {
    forall i :: 0 <= i < |tx.inputs| ==> tx.inputs[i].prevout in heights && heights[tx.inputs[i].prevout] != -1
  }

  /** So a transaction whose locks pass at one block passes at every block above it: wherever the tip
      is when all it spends is confirmed, and otherwise when each block is the tip at its time, as an
      unconfirmed coin counts as one of the next block. */
  lemma LocksStay(a: Block, b: Block, tx: Tx, heights: Heights, tipThen: nat, tipNow: nat, verifySequence: bool)
    requires IsAncestor(a, b) && TimesOk(b) && Known(a, tx, heights, tipThen)
    requires AllConfirmed(tx, heights) || (tipThen == Height(a) && tipNow == Height(b))
    requires LocksPass(a, tx, heights, tipThen, verifySequence)
    ensures Known(b, tx, heights, tipNow) && LocksPass(b, tx, heights, tipNow, verifySequence)
  {
    hide Matured, TimesOk, IsAncestor;
    AncestorHeight(a, b);
    if Applies(tx, verifySequence) {
      forall i | 0 <= i < |tx.inputs| ensures Matured(b, tx.inputs[i], CoinHeight(heights, tx.inputs[i], tipNow)) {
        var before, now := CoinHeight(heights, tx.inputs[i], tipThen), CoinHeight(heights, tx.inputs[i], tipNow);
        if before == now { MaturedStays(a, b, tx.inputs[i], before); } else { NextBlocksCoin(a, b, tx.inputs[i]); }
      }
    }
  }

  /** A lock on a coin of the block to come passes only when it asks for nothing. */
  lemma NextBlocksCoin(a: Block, b: Block, input: Input)
    requires Matured(a, input, Height(a) + 1)
    ensures Matured(b, input, Height(b) + 1)
  {
    hide HasFlag, Mtp;
    assert Ancestor(a, Height(a)) == a && Ancestor(b, Height(b)) == b;
  }

  // ----- the forms a sequence number takes

  /** With bit 31 set there is no lock; with bit 22 clear the low 16 bits count blocks; with bit 22 set they
      count units of 512 seconds, from the median time past before the coin's block. */
  lemma LockForms(prev: Block, op: Outpoint, v: nat, coinHeight: nat)
    requires v < 0x1_0000 && coinHeight <= Height(prev) + 1
    ensures Matured(prev, Input(op, 0x8000_0000 + v), coinHeight)
    ensures Matured(prev, Input(op, v), coinHeight) <==> coinHeight + v <= Height(prev) + 1
    ensures Matured(prev, Input(op, 0x40_0000 + v), coinHeight) <==>
      Mtp(Ancestor(prev, if coinHeight > 0 then coinHeight - 1 else 0)) + 512 * v <= Mtp(prev)
  {
    hide Mtp, Ancestor;
  }
}
