/** The compact target encoding and the proof of a block (src/protocol/consensus.js,
    src/blockchain/chainentry.js). */
module Compact {
  import opened Primitives
  import opened Arithmetic

  /** `n` shifted left by `k` bytes. */
  function ShiftLeft(n: nat, k: nat): nat {
    if k == 0 then n else 256 * ShiftLeft(n, k - 1)
  }

  /** `n` shifted right by `k` bytes. */
  function ShiftRight(n: nat, k: nat): nat {
    if k == 0 then n else ShiftRight(n / 256, k - 1)
  }

  lemma SmallShifts(n: nat)
    ensures ShiftLeft(n, 0) == n && ShiftLeft(n, 1) == 0x100 * n && ShiftLeft(n, 2) == 0x10000 * n
    ensures ShiftRight(n, 0) == n && ShiftRight(n, 1) == n / 0x100 && ShiftRight(n, 2) == n / 0x10000
  {
    assert ShiftLeft(n, 2) == 0x100 * ShiftLeft(n, 1);
    assert ShiftRight(n, 2) == ShiftRight(n / 0x100, 1);
  }

  lemma {:induction false} ShiftLeftGrows(n: nat, a: nat, b: nat)
    requires a <= b
    ensures ShiftLeft(n, a) <= ShiftLeft(n, b)
    ensures a < b ==> 256 * ShiftLeft(n, a) <= ShiftLeft(n, b)
  {
    if a < b { ShiftLeftGrows(n, a, b - 1); }
  }

  /** Number of bytes `n` takes; zero takes none. */
  function ByteLength(n: nat): nat {
    if n == 0 then 0 else 1 + ByteLength(n / 256)
  }

  /** A left shift of a 32-bit word drops what leaves it. */
  function ExponentField(exponent: nat): nat {
    exponent * 0x1000000 % 0x1_0000_0000
  }

  lemma FieldFits(exponent: nat)
    ensures ExponentField(exponent) <= 0xff00_0000
  {
    RemainderUnique(exponent * 0x1000000, 0x1_0000_0000, exponent / 0x100, exponent % 0x100 * 0x1000000);
  }

  function FromCompact(compact: Word): int {
    if compact == 0 then 0
    else
      var exponent := compact / 0x1000000;
      var negative := compact / 0x800000 % 2 == 1;
      var mantissa := compact % 0x800000;
      var num := if exponent <= 3 then ShiftRight(mantissa, 3 - exponent) else ShiftLeft(mantissa, exponent - 3);
      if negative then -num else num
  }

  /** The number to encode has its top three bytes kept. Bit 23 is the sign, so a mantissa that
      would set it gives up a byte; what is left never reaches the exponent's bits. */
  function ToCompact(num: nat): Word {
    if num == 0 then 0
    else
      TopBytesFit(num);
      var exponent := ByteLength(num);
      var mantissa := TopBytes(num);
      FieldFits(exponent);
      FieldFits(exponent + 1);
      if mantissa / 0x800000 % 2 == 1 then ExponentField(exponent + 1) + mantissa / 256
      else ExponentField(exponent) + mantissa
  }

  function TopBytes(num: nat): nat {
    var exponent := ByteLength(num);
    if exponent <= 3 then ShiftLeft(num, 3 - exponent) else ShiftRight(num, exponent - 3)
  }

  lemma SmallLengths(n: nat)
    ensures ByteLength(n) <= 3 <==> n < 0x1000000
    ensures ByteLength(n) <= 2 <==> n < 0x10000
    ensures ByteLength(n) <= 1 <==> n < 0x100
    ensures ByteLength(n) <= 0 <==> n == 0
  {
    var a := n / 256;
    var b := a / 256;
    var c := b / 256;
    assert ByteLength(n) == if n == 0 then 0 else 1 + ByteLength(a);
    assert ByteLength(a) == if a == 0 then 0 else 1 + ByteLength(b);
    assert ByteLength(b) == if b == 0 then 0 else 1 + ByteLength(c);
  }

  lemma OneByte(n: nat, k: nat)
    requires n > 0 && k > 0
    ensures ByteLength(n) == 1 + ByteLength(n / 256) && ShiftRight(n, k) == ShiftRight(n / 256, k - 1)
  {}

  lemma TopBytesStep(n: nat)
    requires n >= 0x1000000
    ensures ByteLength(n) == ByteLength(n / 256) + 1 && TopBytes(n) == TopBytes(n / 256)
  {
    hide ByteLength, ShiftLeft, ShiftRight;
    var q := n / 256;
    SmallLengths(q);
    SmallShifts(q);
    OneByte(n, ByteLength(q) - 2);
  }

  lemma {:induction false} TopBytesFit(n: nat)
    requires n > 0
    ensures 0x10000 <= TopBytes(n) < 0x1000000
  {
    SmallLengths(n);
    SmallShifts(n);
    if n >= 0x1000000 { TopBytesFit(n / 256); TopBytesStep(n); }
  }

  /** The proof of a block with these bits: 2^256 over the target plus one. */
  function GetProof(bits: Word): nat {
    var target := FromCompact(bits);
    if target <= 0 then 0 else Quotient(ShiftLeft(1, 32), target + 1)
  }

  // ----- the number the encoding stands for

  /** `n` with all but the bytes the encoding keeps set to zero. */
  function Rounded(n: nat): nat {
    if n < 0x800000 then n else 256 * Rounded(n / 256)
  }

  /** The weight of the lowest bit the encoding of `n` keeps. */
  function Unit(n: nat): nat {
    if n < 0x800000 then 1 else 256 * Unit(n / 256)
  }

  /** The exponent that leaves the sign bit clear. */
  function Exponent(n: nat): nat {
    if n == 0 then 0
    else if n < 0x80 then 1
    else if n < 0x8000 then 2
    else if n < 0x800000 then 3
    else 1 + Exponent(n / 256)
  }

  /** The mantissa that goes with it. */
  function Mantissa(n: nat): nat {
    if n < 0x80 then 0x10000 * n
    else if n < 0x8000 then 0x100 * n
    else if n < 0x800000 then n
    else Mantissa(n / 256)
  }

  lemma {:induction false} MantissaBounds(n: nat)
    ensures Mantissa(n) < 0x800000
    ensures n > 0 ==> 0x8000 <= Mantissa(n)
  {
    if n >= 0x800000 { MantissaBounds(n / 256); }
  }

  lemma {:induction false} ToCompactShape(n: nat)
    ensures ToCompact(n) == ExponentField(Exponent(n)) + Mantissa(n)
  {
    SmallLengths(n);
    if n > 0 {
      TopBytesFit(n);
      LengthAndTop(n);
    }
  }

  lemma {:induction false} LengthAndTop(n: nat)
    requires n > 0
    ensures if TopBytes(n) < 0x800000 then Exponent(n) == ByteLength(n) && Mantissa(n) == TopBytes(n)
            else Exponent(n) == ByteLength(n) + 1 && Mantissa(n) == TopBytes(n) / 256
  {
    SmallLengths(n);
    SmallShifts(n);
    if n >= 0x1000000 {
      TopBytesStep(n);
      LengthAndTop(n / 256);
    } else if n >= 0x800000 {
      assert Exponent(n / 256) == 3 && Mantissa(n / 256) == n / 256;
    }
  }

  lemma {:induction false} RoundedIsShifted(n: nat)
    requires n >= 0x8000
    ensures Exponent(n) >= 3 && Rounded(n) == ShiftLeft(Mantissa(n), Exponent(n) - 3)
  {
    if n >= 0x800000 { RoundedIsShifted(n / 256); }
  }

  lemma FromParts(e: nat, m: nat)
    requires e < 256 && m < 0x800000
    ensures var num := if e <= 3 then ShiftRight(m, 3 - e) else ShiftLeft(m, e - 3);
      FromCompact(e * 0x1000000 + m) == if e == 0 && m == 0 then 0 else num
  {}

  /** What decodes from an encoding whose exponent fits its byte. */
  lemma DecodedFits(n: nat)
    requires Exponent(n) < 256
    ensures FromCompact(ToCompact(n)) == Rounded(n)
  {
    hide FromCompact, ToCompact;
    ToCompactShape(n);
    MantissaBounds(n);
    var m, e := Mantissa(n), Exponent(n);
    FromParts(e, m);
    SmallShifts(m);
    if n >= 0x8000 { RoundedIsShifted(n); }
  }

  lemma {:induction false} ExponentLimit(n: nat, k: nat)
    ensures Exponent(n) <= 3 + k <==> n < ShiftLeft(0x800000, k)
  {
    ShiftLeftGrows(0x800000, 0, k);
    if n >= 0x800000 {
      if k > 0 { ExponentLimit(n / 256, k - 1); } else { RoundedIsShifted(n / 256); }
    }
  }

  lemma {:induction false} RoundedBounds(n: nat)
    ensures Rounded(n) <= n < Rounded(n) + Unit(n)
    ensures n >= 0x8000 ==> Rounded(n) >= 0x8000 * Unit(n)
    ensures n >= 0x800000 ==> Unit(n) >= 256
  {
    if n >= 0x800000 { RoundedBounds(n / 256); }
  }

  /** 2^2039: from here on the exponent takes nine bits, and the word keeps eight. */
  const OVERFLOW: nat := ShiftLeft(0x800000, 252)

  /** The overflowed exponent `f` is at least 256 bytes short. */
  lemma ShortByBytes(m: nat, e: nat, f: nat)
    requires e >= 256 && f + 256 <= e
    ensures var r := if f <= 3 then ShiftRight(m, 3 - f) else ShiftLeft(m, f - 3); 256 * r <= ShiftLeft(m, e - 3)
  {
    hide ShiftLeft, ShiftRight;
    if f <= 3 {
      ShiftRightShrinks(m, 3 - f);
      ShiftLeftGrows(m, 0, e - 3);
      SmallShifts(m);
    } else {
      ShiftLeftGrows(m, f - 3, e - 3);
    }
  }

  /** An encoding that overflows stands for at most a 256th of the number. */
  lemma DecodedOverflow(n: nat)
    requires Exponent(n) >= 256
    ensures 0 <= 256 * FromCompact(ToCompact(n)) <= n
  {
    hide FromCompact, ToCompact, ShiftLeft, ShiftRight, Exponent, Mantissa, Rounded;
    var m, e, f := Mantissa(n), Exponent(n), Exponent(n) % 256;
    ToCompactShape(n);
    MantissaBounds(n);
    FromParts(f, m);
    LongNumber(n);
    RoundedIsShifted(n);
    RoundedBounds(n);
    ShortByBytes(m, e, f);
  }

  lemma LongNumber(n: nat)
    requires Exponent(n) >= 256
    ensures n >= 0x8000
  {}

  lemma {:induction false} ShiftRightShrinks(n: nat, k: nat)
    ensures ShiftRight(n, k) <= n
  {
    if k > 0 { ShiftRightShrinks(n / 256, k - 1); }
  }

  /** Decoding what was encoded never gives more than the number, and it is within 2^-15 of the
      number, or exact below 2^23, exactly when the number is below 2^2039. */
  lemma Accuracy(n: nat)
    requires n > 0
    ensures 0 <= FromCompact(ToCompact(n)) <= n
    ensures n < 0x800000 ==> FromCompact(ToCompact(n)) == n
    ensures (n - FromCompact(ToCompact(n))) * 0x8000 < n <==> n < OVERFLOW
  {
    hide FromCompact, ToCompact;
    ExponentLimit(n, 252);
    if n < OVERFLOW {
      DecodedFits(n);
      RoundedBounds(n);
    } else {
      DecodedOverflow(n);
      ExponentLimit(n, 1);
    }
  }

  /** A mantissa moved up by whole bytes keeps its exponent and itself. */
  lemma {:induction false} ShiftedParts(m: nat, k: nat)
    requires 0x8000 <= m < 0x800000
    ensures Exponent(ShiftLeft(m, k)) == k + 3 && Mantissa(ShiftLeft(m, k)) == m && ShiftLeft(m, k) >= m
  {
    if k > 0 { ShiftedParts(m, k - 1); }
  }

  /** The bytes below the point that decoding drops when the exponent is less than three are zero. */
  predicate NothingDropped(exponent: nat, mantissa: nat) {
    exponent >= 3 || (exponent == 2 && mantissa % 0x100 == 0) || (exponent == 1 && mantissa % 0x10000 == 0)
  }

  /** Encoding a decoded target again changes nothing exactly when the exponent that is left of it, in
      its byte, drops nothing of the mantissa. */
  lemma Idempotent(n: nat)
    ensures FromCompact(ToCompact(n)) >= 0
    ensures ToCompact(FromCompact(ToCompact(n))) == ToCompact(n) <==> n == 0 || NothingDropped(Exponent(n) % 256, Mantissa(n))
  {
    hide FromCompact, ToCompact, Exponent, Mantissa, ShiftLeft, ShiftRight, NothingDropped;
    if n == 0 {
      ZeroStaysZero();
    } else {
      var m, e := Mantissa(n), Exponent(n) % 256;
      ToCompactShape(n);
      MantissaBounds(n);
      FromParts(e, m);
      Reencoded(e, m);
    }
  }

  /** What encoding makes of a decoded exponent and mantissa. */
  lemma Reencoded(e: nat, m: nat)
    requires e < 256 && 0x8000 <= m < 0x800000
    ensures var r := if e <= 3 then ShiftRight(m, 3 - e) else ShiftLeft(m, e - 3);
      ToCompact(r) == e * 0x1000000 + m <==> NothingDropped(e, m)
  {
    hide ToCompact, Exponent, Mantissa, ShiftLeft, ShiftRight;
    var r := if e <= 3 then ShiftRight(m, 3 - e) else ShiftLeft(m, e - 3);
    ToCompactShape(r);
    SmallShifts(m);
    if e >= 3 {
      ShiftedParts(m, e - 3);
    } else {
      if e == 0 { LastByte(m); }
      assert r < 0x8000;
      SmallParts(r);
    }
  }

  lemma SmallParts(n: nat)
    requires n < 0x8000
    ensures Exponent(n) == (if n == 0 then 0 else if n < 0x80 then 1 else 2)
    ensures Mantissa(n) == if n < 0x80 then 0x10000 * n else 0x100 * n
  {}

  /** Larger numbers decode to larger or equal targets below 2^2039. */
  lemma Monotone(a: nat, b: nat)
    requires a <= b < OVERFLOW
    ensures FromCompact(ToCompact(a)) <= FromCompact(ToCompact(b))
  {
    hide FromCompact, ToCompact;
    ExponentLimit(a, 252);
    ExponentLimit(b, 252);
    DecodedFits(a);
    DecodedFits(b);
    RoundedMonotone(a, b);
  }

  /** Decoding keeps the order of all numbers below `bound`. */
  ghost predicate KeepsOrder(bound: nat) {
    forall a: nat, b: nat :: a <= b < bound ==> FromCompact(ToCompact(a)) <= FromCompact(ToCompact(b))
  }

  /** That is as far as the order is kept. */
  lemma MonotoneExactly(bound: nat)
    ensures KeepsOrder(bound) <==> bound <= OVERFLOW
  {
    hide FromCompact, ToCompact, ShiftLeft;
    if bound <= OVERFLOW {
      forall a: nat, b: nat | a <= b < bound ensures FromCompact(ToCompact(a)) <= FromCompact(ToCompact(b)) {
        Monotone(a, b);
      }
    } else {
      OrderLostOnOverflow();
    }
  }

  lemma {:induction false} RoundedMonotone(a: nat, b: nat)
    requires a <= b
    ensures Rounded(a) <= Rounded(b)
  {
    RoundedBounds(b);
    if a >= 0x800000 { RoundedMonotone(a / 256, b / 256); }
  }

  /** From 2^2039 the order is lost: that number decodes to zero, while 1 decodes to 1. Encoding the
      zero again does not give its bits either. */
  lemma OrderLostOnOverflow()
    ensures FromCompact(ToCompact(OVERFLOW)) == 0 < FromCompact(ToCompact(1)) && 1 < OVERFLOW
    ensures ToCompact(FromCompact(ToCompact(OVERFLOW))) == 0 != ToCompact(OVERFLOW)
  {
    hide FromCompact, ToCompact, ShiftLeft, ShiftRight, Exponent, Mantissa;
    ZeroStaysZero();
    OverflowParts(252);
    ToCompactShape(OVERFLOW);
    FromParts(0, 0x8000);
    LastByte(0x8000);
    ShiftLeftGrows(0x800000, 0, 252);
    Accuracy(1);
  }

  lemma ZeroStaysZero()
    ensures ToCompact(0) == 0 && FromCompact(0) == 0
  {}

  lemma LastByte(n: nat)
    ensures ShiftRight(n, 3) == ShiftRight(n / 256, 2) == n / 256 / 0x10000
  {
    SmallShifts(n / 256);
  }

  lemma {:induction false} OverflowParts(k: nat)
    ensures Exponent(ShiftLeft(0x800000, k)) == k + 4 && Mantissa(ShiftLeft(0x800000, k)) == 0x8000
  {
    ShiftLeftGrows(0x800000, 0, k);
    if k > 0 {
      OverflowParts(k - 1);
    } else {
      assert Exponent(0x8000) == 3 && Mantissa(0x8000) == 0x8000;
    }
  }

  /** A target that can be met at all proves some work. */
  lemma ProofPositive(bits: Word)
    ensures GetProof(bits) > 0 <==> 0 < FromCompact(bits) < ShiftLeft(1, 32)
  {
    var t := FromCompact(bits);
    if 0 < t {
      var d := t + 1;
      assert ShiftLeft(1, 32) / d > 0 <==> ShiftLeft(1, 32) >= d by { Positive(ShiftLeft(1, 32), d); }
    }
  }

  lemma Positive(n: nat, d: nat)
    requires d > 0
    ensures n / d > 0 <==> n >= d
  {}

  // ----- what bits and proofs stand for

  /** A shift by whole bytes is a multiplication by a power of two. */
  lemma {:induction false} ShiftIsProduct(n: nat, k: nat)
    ensures ShiftLeft(n, k) == n * Pow2(8 * k)
  {
    if k > 0 {
      ShiftIsProduct(n, k - 1);
      EightDoublings(8 * (k - 1));
      assert 256 * (n * Pow2(8 * (k - 1))) == n * (256 * Pow2(8 * (k - 1)));
    }
  }

  lemma {:induction false} ShiftedIsRounded(m: nat, k: nat)
    requires m < 0x800000
    ensures Rounded(ShiftLeft(m, k)) == ShiftLeft(m, k) && Exponent(ShiftLeft(m, k)) <= 3 + k
  {
    if k > 0 {
      ShiftedIsRounded(m, k - 1);
      assert ShiftLeft(m, k) / 256 == ShiftLeft(m, k - 1);
    }
  }

  /** Below its leading mantissa, a number loses everything. */
  lemma {:induction false} TopRounded(m: nat, low: nat, k: nat)
    requires 0x8000 <= m < 0x800000 && low < ShiftLeft(1, k)
    ensures Rounded(ShiftLeft(m, k) + low) == ShiftLeft(m, k) && Exponent(ShiftLeft(m, k) + low) == 3 + k
  {
    if k > 0 {
      assert (ShiftLeft(m, k) + low) / 256 == ShiftLeft(m, k - 1) + low / 256;
      ShiftLeftGrows(m, 0, k - 1);
      TopRounded(m, low / 256, k - 1);
    }
  }

  /** What was decoded is encoded and decoded again without loss. */
  lemma DecodedAgain(bits: Word)
    requires FromCompact(bits) >= 0
    ensures FromCompact(ToCompact(FromCompact(bits))) == FromCompact(bits)
  {
    hide ToCompact, Rounded;
    var e, m, n := bits / 0x1000000, bits % 0x800000, FromCompact(bits);
    if n == 0 {
      ZeroStaysZero();
    } else if e <= 3 {
      ShiftRightShrinks(m, 3 - e);
      Accuracy(n);
    } else {
      ShiftedIsRounded(m, e - 3);
      DecodedFits(n);
    }
  }

  /** A proof is how many times the target and one go into 2^256: the number of hashes it takes. */
  lemma ProofIsQuotient(bits: Word)
    requires FromCompact(bits) > 0
    ensures var t := FromCompact(bits);
      GetProof(bits) * (t + 1) <= Pow2(256) < (GetProof(bits) + 1) * (t + 1)
  {
    hide FromCompact, ShiftLeft, Pow2;
    ShiftIsProduct(1, 32);
    assert GetProof(bits) == ShiftLeft(1, 32) / (FromCompact(bits) + 1);
    QuotientBounds(ShiftLeft(1, 32), FromCompact(bits) + 1);
  }

  /** A harder target never proves less. */
  lemma HarderProvesMore(a: Word, b: Word)
    requires 0 < FromCompact(a) <= FromCompact(b)
    ensures GetProof(a) >= GetProof(b)
  {
    hide FromCompact, GetProof, Pow2;
    ProofIsQuotient(a);
    ProofIsQuotient(b);
    var ta, tb := FromCompact(a) + 1, FromCompact(b) + 1;
    QuotientOrder(GetProof(b), ta, tb);
    LargerProduct(GetProof(b), GetProof(a), ta);
  }

  lemma QuotientOrder(q: nat, ta: nat, tb: nat)
    requires ta <= tb
    ensures q * ta <= q * tb
  {}

  /** The easiest target of the main network, and what a block that meets it proves. */
  lemma EasiestBits()
    ensures FromCompact(486604799) == 0xffff * Pow2(208) && GetProof(486604799) == 4295032833
  {
    hide Pow2;
    ShiftIsProduct(0xffff, 26);
    ShiftIsProduct(1, 32);
    assert 486604799 / 0x1000000 == 29 && 486604799 % 0x800000 == 0xffff && 486604799 / 0x800000 % 2 == 0;
    var t := 0xffff * Pow2(208);
    Pow208();
    QuotientBounds(Pow2(256), t + 1);
    LargerProduct(4295032833, Pow2(256) / (t + 1), t + 1);
    LargerProduct(Pow2(256) / (t + 1), 4295032833, t + 1);
  }

  /** Those are the bits of the largest number below 2^224. */
  lemma EasiestTarget()
    ensures FromCompact(ToCompact(Pow2(224) - 1)) == FromCompact(486604799) && Pow2(224) - 1 < OVERFLOW
  {
    EasiestBits();
    hide FromCompact, ToCompact, Pow2, Rounded, Exponent, ShiftLeft;
    ShiftIsProduct(0xffff, 26);
    ShiftIsProduct(1, 26);
    Sixteen(208);
    var n := ShiftLeft(0xffff, 26) + (ShiftLeft(1, 26) - 1);
    assert n == Pow2(224) - 1;
    TopRounded(0xffff, ShiftLeft(1, 26) - 1, 26);
    DecodedFits(n);
    ExponentLimit(n, 252);
  }

  lemma Pow208()
    ensures Pow2(208) == 0x1_0000_0000_0000_0000_0000_0000_0000_0000_0000_0000_0000_0000_0000
    ensures Pow2(256) == 0x1_0000_0000_0000_0000_0000_0000_0000_0000_0000_0000_0000_0000_0000_0000_0000_0000
  {
    NoDoubling();
    hide Pow2;
    Sixteen(0); Sixteen(16); Sixteen(32); Sixteen(48); Sixteen(64); Sixteen(80); Sixteen(96); Sixteen(112);
    Sixteen(128); Sixteen(144); Sixteen(160); Sixteen(176); Sixteen(192); Sixteen(208); Sixteen(224); Sixteen(240);
  }

  /** What bits stand for: an exponent that counts bytes, a sign bit, and 23 bits of mantissa. */
  lemma Decodes(e: nat, negative: bool, m: nat)
    requires e < 256 && m < 0x800000
    ensures var bits := e * 0x1000000 + (if negative then 0x800000 else 0) + m;
      var size := if e >= 3 then m * Pow2(8 * (e - 3)) else m / Pow2(8 * (3 - e));
      bits < 0x1_0000_0000 && FromCompact(bits) == if negative then -size else size
  {
    hide Pow2, FromCompact, ShiftLeft, ShiftRight;
    SmallPowers();
    SmallShifts(m);
    LastByte(m);
    if e >= 3 { ShiftIsProduct(m, e - 3); }
    PartsOf(e, negative, m);
  }

  lemma PartsOf(e: nat, negative: bool, m: nat)
    requires e < 256 && m < 0x800000
    ensures var bits := e * 0x1000000 + (if negative then 0x800000 else 0) + m;
      var num := if e <= 3 then ShiftRight(m, 3 - e) else ShiftLeft(m, e - 3);
      bits < 0x1_0000_0000 && FromCompact(bits) == if negative then -num else num
  {
    hide ShiftLeft;
    BitsApart(e, negative, m);
  }

  lemma BitsApart(e: nat, negative: bool, m: nat)
    requires e < 256 && m < 0x800000
    ensures var bits := e * 0x1000000 + (if negative then 0x800000 else 0) + m;
      bits / 0x1000000 == e && (bits / 0x800000 % 2 == 1 <==> negative) && bits % 0x800000 == m
  {
    var half := 2 * e + if negative then 1 else 0;
    assert e * 0x1000000 + (if negative then 0x800000 else 0) + m == half * 0x800000 + m;
  }

  lemma SmallPowers()
    ensures Pow2(8) == 0x100 && Pow2(16) == 0x10000 && Pow2(24) == 0x1000000
  {
    NoDoubling();
    EightDoublings(0);
    EightDoublings(8);
    EightDoublings(16);
  }
}
