/** The amount codec (src/coins/compress.js): amounts lose their trailing zeros. */
module Compress {

  function TimesTen(n: nat, k: nat): nat {
    if k == 0 then n else 10 * TimesTen(n, k - 1)
  }

  /** The code of `value` when `exp` zeros have been taken off already. */
  function Pack(value: nat, exp: nat): nat
    requires value > 0 && exp <= 9
    decreases 9 - exp
  {
    if value % 10 == 0 && exp < 9 then Pack(value / 10, exp + 1)
    else if exp < 9 then 1 + 10 * (9 * (value / 10) + value % 10 - 1) + exp
    else 10 + 10 * (value - 1)
  }

  function Compressed(value: nat): nat {
    if value == 0 then 0 else Pack(value, 0)
  }

  /** The digits a code stands for, without the zeros taken off. */
  function Digits(code: nat): nat
    requires code > 0
  {
    var exp := (code - 1) % 10;
    var rest := (code - 1) / 10;
    if exp < 9 then rest / 9 * 10 + rest % 9 + 1 else rest + 1
  }

  function Decompressed(code: nat): nat {
    if code == 0 then 0 else TimesTen(Digits(code), (code - 1) % 10)
  }

  lemma PackStep(value: nat, exp: nat)
    requires value > 0 && exp <= 9
    ensures value % 10 == 0 && exp < 9 ==> value / 10 > 0 && Pack(value, exp) == Pack(value / 10, exp + 1)
    ensures value % 10 != 0 && exp < 9 ==> Pack(value, exp) == 1 + 10 * (9 * ((value - value % 10) / 10) + value % 10 - 1) + exp
    ensures exp == 9 ==> Pack(value, exp) == 10 + 10 * (value - 1)
  {}

  method CompressValue(amount: nat) returns (code: nat)
    ensures code == Compressed(amount)
  {
    hide Pack;
    if amount == 0 {
      return 0;
    }
    var value, exp := amount, 0;
    while value % 10 == 0 && exp < 9
      invariant value > 0 && exp <= 9 && Pack(value, exp) == Pack(amount, 0)
    {
      PackStep(value, exp);
      value := value / 10;
      exp := exp + 1;
    }
    PackStep(value, exp);
    if exp < 9 {
      var last := value % 10;
      value := (value - last) / 10;
      return 1 + 10 * (9 * value + last - 1) + exp;
    }
    return 10 + 10 * (value - 1);
  }

  method DecompressValue(code: nat) returns (n: nat)
    ensures n == Decompressed(code)
  {
    if code == 0 {
      return 0;
    }
    var value: nat := code - 1;
    var exp := value % 10;
    value := (value - exp) / 10;
    if exp < 9 {
      var last := value % 9;
      value := (value - last) / 9;
      n := value * 10 + last + 1;
    } else {
      n := value + 1;
    }
    while exp > 0
      invariant 0 <= exp && TimesTen(n, exp) == Decompressed(code)
    {
      TenFirst(n, exp);
      n := n * 10;
      exp := exp - 1;
    }
  }

  lemma {:induction false} TenFirst(n: nat, k: nat)
    requires k > 0
    ensures TimesTen(n, k) == TimesTen(10 * n, k - 1)
  {
    if k > 1 { TenFirst(n, k - 1); }
  }

  lemma {:induction false} PackDecodes(value: nat, exp: nat)
    requires value > 0 && exp <= 9
    ensures Pack(value, exp) > 0 && Decompressed(Pack(value, exp)) == TimesTen(value, exp)
    decreases 9 - exp
  {
    hide Pack, TimesTen, Digits;
    if value % 10 == 0 && exp < 9 {
      PackStep(value, exp);
      PackDecodes(value / 10, exp + 1);
      TenFirst(value / 10, exp + 1);
      assert 10 * (value / 10) == value;
    } else {
      PackLeaf(value, exp);
    }
  }

  lemma PackLeaf(value: nat, exp: nat)
    requires value > 0 && exp <= 9 && (value % 10 != 0 || exp == 9)
    ensures var code := Pack(value, exp); code > 0 && Digits(code) == value && (code - 1) % 10 == exp
  {
    if exp < 9 {
      var q, last := value / 10, value % 10;
      Tens(9 * q + (last - 1), exp);
      Nines(q, last - 1);
    } else {
      Tens(value - 1, 9);
    }
  }

  lemma Tens(q: nat, r: nat)
    requires r < 10
    ensures (10 * q + r) / 10 == q && (10 * q + r) % 10 == r
  {}

  lemma Nines(q: nat, r: nat)
    requires r < 9
    ensures (9 * q + r) / 9 == q && (9 * q + r) % 9 == r
  {}

  /** No amount is lost. */
  lemma DecompressUndoesCompress(value: nat)
    ensures Decompressed(Compressed(value)) == value
  {
    if value > 0 { PackDecodes(value, 0); }
  }

  lemma {:induction false} PackStrips(digits: nat, k: nat, exp: nat)
    requires digits > 0 && exp + k <= 9
    ensures TimesTen(digits, k) > 0 && Pack(TimesTen(digits, k), exp) == Pack(digits, exp + k)
    decreases k
  {
    hide Pack;
    if k > 0 {
      var n := TimesTen(digits, k - 1);
      PackStrips(digits, k - 1, exp + 1);
      PackStep(10 * n, exp);
      assert 10 * n / 10 == n;
    }
  }

  lemma PackDigits(code: nat)
    requires code > 0
    ensures Digits(code) > 0 && Pack(Digits(code), (code - 1) % 10) == code
  {}

  /** Every number is the code of an amount: the codec is a bijection on the naturals. */
  lemma CompressUndoesDecompress(code: nat)
    ensures Compressed(Decompressed(code)) == code
  {
    hide Pack, Digits, TimesTen;
    if code > 0 {
      PackDigits(code);
      PackStrips(Digits(code), (code - 1) % 10, 0);
    }
  }

  /** The code of an amount, by its leading digits `d` and the zeros that follow: nine zeros at most go
      into the last digit of the code, and with fewer the last of the leading digits has nine values. */
  lemma CodeIs(d: nat, exp: nat)
    requires d > 0 && exp <= 9
    ensures exp < 9 && d % 10 != 0 ==> Compressed(TimesTen(d, exp)) == 1 + 10 * (9 * (d / 10) + d % 10 - 1) + exp
    ensures exp == 9 ==> Compressed(TimesTen(d, exp)) == 10 * d
  {
    hide Pack;
    StripZeros(d, exp, exp);
    PackStep(d, exp);
  }

  lemma OneMoreZero(d: nat, k: nat)
    requires d > 0
    ensures k == 0 ==> TimesTen(d, k) == d
    ensures k > 0 ==> TimesTen(d, k) % 10 == 0 && TimesTen(d, k) / 10 == TimesTen(d, k - 1)
  {}

  lemma {:induction false} StripZeros(d: nat, k: nat, exp: nat)
    requires d > 0 && k <= exp <= 9
    ensures TimesTen(d, k) > 0 && Pack(TimesTen(d, k), exp - k) == Pack(d, exp)
  {
    hide Pack, TimesTen;
    OneMoreZero(d, k);
    if k > 0 {
      StripZeros(d, k - 1, exp);
      PackStep(TimesTen(d, k), exp - k);
    }
  }
}
