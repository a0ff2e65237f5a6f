/** The bytes of coins and undo logs (src/coins/coinentry.js, src/coins/undocoins.js,
    src/coins/compress.js), down to the variable-length integers of src/utils/encoding.js. */
module CoinRecords {
  import opened Arithmetic

  type Byte = n: nat | n < 256

  /** Reading consumes a prefix of the bytes, or throws. */
  datatype Read<+T> = Thrown | Got(value: T, rest: seq<Byte>)

  // ----- little-endian integers

  function Low(n: nat, k: nat): (r: seq<Byte>)
    ensures |r| == k
  {
    if k == 0 then [] else [n % 256] + Low(n / 256, k - 1)
  }

  function Value(s: seq<Byte>): nat {
    if s == [] then 0 else s[0] + 256 * Value(s[1..])
  }

  function Capacity(k: nat): nat {
    if k == 0 then 1 else 256 * Capacity(k - 1)
  }

  lemma {:induction false} LowValue(n: nat, k: nat)
    ensures Value(Low(n, k)) <= n && Value(Low(n, k)) < Capacity(k)
    ensures Value(Low(n, k)) == n <==> n < Capacity(k)
  {
    if k > 0 {
      LowValue(n / 256, k - 1);
      assert Low(n, k)[1..] == Low(n / 256, k - 1);
    }
  }

  lemma Capacities()
    ensures Capacity(2) == 0x1_0000 && Capacity(4) == 0x1_0000_0000
  {
    assert Capacity(2) == 256 * Capacity(1) && Capacity(3) == 256 * Capacity(2);
  }

  function Take(k: nat, s: seq<Byte>): Read<seq<Byte>> {
    if k <= |s| then Got(s[..k], s[k..]) else Thrown
  }

  lemma TakeBack(a: seq<Byte>, rest: seq<Byte>)
    ensures Take(|a|, a + rest) == Got(a, rest)
  {
    assert (a + rest)[..|a|] == a && (a + rest)[|a|..] == rest;
  }

  // ----- variable-length integers

  function PutVarint(n: nat): seq<Byte> {
    if n < 0xfd then [n]
    else if n <= 0xffff then [0xfd] + Low(n, 2)
    else if n <= 0xffff_ffff then [0xfe] + Low(n, 4)
    else [0xff] + Low(n, 8)
  }

  function VarintSize(n: nat): nat {
    if n < 0xfd then 1 else if n <= 0xffff then 3 else if n <= 0xffff_ffff then 5 else 9
  }

  const SAFE: nat := 0x20_0000_0000_0000

  /** Longer forms than needed are rejected, and so are numbers from 2^53. */
  function GetVarint(s: seq<Byte>): Read<nat> {
    if s == [] then Thrown
    else if s[0] < 0xfd then Got(s[0], s[1..])
    else
      var k := if s[0] == 0xfd then 2 else if s[0] == 0xfe then 4 else 8;
      match Take(k, s[1..])
      case Thrown => Thrown
      case Got(bytes, rest) =>
        var n := Value(bytes);
        if (k == 2 && n < 0xfd) || (k == 4 && n <= 0xffff) || (k == 8 && (n <= 0xffff_ffff || n >= SAFE)) then Thrown
        else Got(n, rest)
  }

  /** A number comes back exactly when it is below 2^53; no number from there on ever does. */
  lemma VarintRoundTrip(n: nat, rest: seq<Byte>)
    ensures n < SAFE ==> GetVarint(PutVarint(n) + rest) == Got(n, rest)
    ensures n >= SAFE ==> GetVarint(PutVarint(n) + rest).Thrown? || GetVarint(PutVarint(n) + rest).value != n
    ensures |PutVarint(n)| == VarintSize(n)
  {
    hide Low, Value, Capacity;
    Capacities();
    if n < 0xfd {
      assert (PutVarint(n) + rest)[1..] == rest;
    } else {
      var k := VarintSize(n) - 1;
      LowValue(n, k);
      TakeBack(Low(n, k), rest);
      assert (PutVarint(n) + rest)[1..] == Low(n, k) + rest;
      if k == 8 { EightBytes(); }
    }
  }

  lemma EightBytes()
    ensures SAFE <= Capacity(8)
  {
    Capacities();
    assert Capacity(8) == 256 * Capacity(7) && Capacity(7) == 256 * Capacity(6);
    assert Capacity(6) == 256 * Capacity(5) && Capacity(5) == 256 * Capacity(4);
  }

  // ----- scripts

  const COMPRESS_TYPES: nat := 6
  const MAX_SCRIPT_SIZE: nat := 10000

  /** A script of one of three templates is stored as its hash or compressed key, any other as it is. */
  datatype Script = KeyHash(hash: seq<Byte>) | ScriptHash(hash: seq<Byte>) | Key(data: seq<Byte>) | Raw(raw: seq<Byte>)

  /** What an oversized script is read back as. */
  const NULLDATA: Script := Raw([0x6a, 0x00])

  predicate Shaped(s: Script) {
    match s
    case KeyHash(h) => |h| == 20
    case ScriptHash(h) => |h| == 20
    case Key(d) => |d| == 33 && 2 <= d[0] <= 5
    case Raw(_) => true
  }

  function PutScript(s: Script): seq<Byte> {
    match s
    case KeyHash(h) => [0] + h
    case ScriptHash(h) => [1] + h
    case Key(d) => d
    case Raw(r) => PutVarint(|r| + COMPRESS_TYPES) + r
  }

  function ScriptSize(s: Script): nat {
    match s
    case KeyHash(_) => 21
    case ScriptHash(_) => 21
    case Key(_) => 33
    case Raw(r) => VarintSize(|r| + COMPRESS_TYPES) + |r|
  }

  function GetScript(s: seq<Byte>): Read<Script> {
    if s == [] then Thrown
    else if s[0] <= 1 then
      match Take(20, s[1..])
      case Thrown => Thrown
      case Got(h, rest) => Got(if s[0] == 0 then KeyHash(h) else ScriptHash(h), rest)
    else if s[0] <= 5 then
      match Take(33, s)
      case Thrown => Thrown
      case Got(d, rest) => Got(Key(d), rest)
    else
      match GetVarint(s)
      case Thrown => Thrown
      case Got(n, rest) =>
        if n < COMPRESS_TYPES then Thrown
        else
          match Take(n - COMPRESS_TYPES, rest)
          case Thrown => Thrown
          case Got(r, more) => Got(if n - COMPRESS_TYPES > MAX_SCRIPT_SIZE then NULLDATA else Raw(r), more)
  }

  predicate Kept(s: Script) {
    s.Raw? ==> |s.raw| <= MAX_SCRIPT_SIZE
  }

  /** A script comes back exactly when it is not oversized. */
  lemma ScriptRoundTrip(s: Script, rest: seq<Byte>)
    requires Shaped(s)
    ensures Kept(s) ==> GetScript(PutScript(s) + rest) == Got(s, rest)
    ensures !Kept(s) ==> GetScript(PutScript(s) + rest).Thrown? || GetScript(PutScript(s) + rest).value != s
    ensures |PutScript(s)| == ScriptSize(s)
  {
    hide GetVarint, PutVarint, VarintSize;
    match s
    case KeyHash(h) =>
      assert (PutScript(s) + rest)[1..] == h + rest;
      TakeBack(h, rest);
    case ScriptHash(h) =>
      assert (PutScript(s) + rest)[1..] == h + rest;
      TakeBack(h, rest);
    case Key(d) =>
      TakeBack(d, rest);
    case Raw(r) =>
      RawRoundTrip(r, rest);
  }

  lemma RawRoundTrip(r: seq<Byte>, rest: seq<Byte>)
    ensures var s := Raw(r);
      && (Kept(s) ==> GetScript(PutScript(s) + rest) == Got(s, rest))
      && (!Kept(s) ==> GetScript(PutScript(s) + rest).Thrown? || GetScript(PutScript(s) + rest).value != s)
      && |PutScript(s)| == ScriptSize(s)
  {
    var n := |r| + COMPRESS_TYPES;
    LeadByte(n);
    hide GetVarint, PutVarint, VarintSize;
    assert PutScript(Raw(r)) + rest == PutVarint(n) + (r + rest);
    VarintRoundTrip(n, r + rest);
    TakeBack(r, rest);
  }

  /** The length of a stored script never looks like one of the templates. */
  lemma LeadByte(n: nat)
    requires n >= COMPRESS_TYPES
    ensures PutVarint(n) != [] && PutVarint(n)[0] > 5
  {}

  // ----- coins

  /** Height -1 stands for an unconfirmed coin. */
  datatype CoinEntry = CoinEntry(version: nat, height: int, coinbase: bool, value: nat, script: Script)

  const MAX_HEIGHT: nat := 0x7fff_ffff

  predicate Formed(c: CoinEntry) {
    c.height >= -1 && Shaped(c.script)
  }

  /** Height and coinbase flag share one word; what does not fit 32 bits is lost when it is written. */
  function Field(c: CoinEntry): nat
    requires Formed(c)
  {
    var height := if c.height == -1 then MAX_HEIGHT else c.height;
    2 * height + if c.coinbase then 1 else 0
  }

  function PutCoin(c: CoinEntry): seq<Byte>
    requires Formed(c)
  {
    PutVarint(c.version) + Low(Field(c), 4) + PutVarint(c.value) + PutScript(c.script)
  }

  function CoinSize(c: CoinEntry): nat {
    VarintSize(c.version) + 4 + VarintSize(c.value) + ScriptSize(c.script)
  }

  function GetCoin(s: seq<Byte>): Read<CoinEntry> {
    match GetVarint(s)
    case Thrown => Thrown
    case Got(version, s1) =>
      match Take(4, s1)
      case Thrown => Thrown
      case Got(bytes, s2) =>
        var field := Value(bytes);
        var height := if field / 2 == MAX_HEIGHT then -1 else field / 2;
        match GetVarint(s2)
        case Thrown => Thrown
        case Got(value, s3) =>
          match GetScript(s3)
          case Thrown => Thrown
          case Got(script, rest) => Got(CoinEntry(version, height, field % 2 == 1, value, script), rest)
  }

  /** What a coin record can hold. */
  predicate Storable(c: CoinEntry) {
    c.version < SAFE && c.height < MAX_HEIGHT && c.value < SAFE && Kept(c.script)
  }

  lemma FieldRoundTrip(c: CoinEntry)
    requires Formed(c)
    ensures var field := Value(Low(Field(c), 4));
      var height := if field / 2 == MAX_HEIGHT then -1 else field / 2;
      height == c.height && (field % 2 == 1) == c.coinbase <==> c.height < MAX_HEIGHT
  {
    hide Low, Value;
    LowValue(Field(c), 4);
    Capacities();
  }

  /** A coin comes back from its bytes exactly when its record can hold it; no other coin ever does.
      The buffer is sized exactly. */
  lemma CoinRoundTrip(c: CoinEntry, rest: seq<Byte>)
    requires Formed(c)
    ensures Storable(c) ==> GetCoin(PutCoin(c) + rest) == Got(c, rest)
    ensures !Storable(c) ==> GetCoin(PutCoin(c) + rest).Thrown? || GetCoin(PutCoin(c) + rest).value != c
    ensures |PutCoin(c)| == CoinSize(c)
  {
    hide GetVarint, PutVarint, VarintSize, Low, Value, GetScript, PutScript, ScriptSize, Kept, Shaped;
    var s3 := PutScript(c.script) + rest;
    var s2 := PutVarint(c.value) + s3;
    var s1 := Low(Field(c), 4) + s2;
    assert PutCoin(c) + rest == PutVarint(c.version) + s1;
    VarintRoundTrip(c.version, s1);
    TakeBack(Low(Field(c), 4), s2);
    FieldRoundTrip(c);
    VarintRoundTrip(c.value, s3);
    ScriptRoundTrip(c.script, rest);
  }

  // ----- undo logs

  predicate AllFormed(items: seq<CoinEntry>) {
    forall i :: 0 <= i < |items| ==> Formed(items[i])
  }

  function PutCoins(items: seq<CoinEntry>): seq<Byte>
    requires AllFormed(items)
  {
    if items == [] then [] else PutCoin(items[0]) + PutCoins(items[1..])
  }

  function GetCoins(count: nat, s: seq<Byte>): Read<seq<CoinEntry>> {
    if count == 0 then Got([], s)
    else
      match GetCoin(s)
      case Thrown => Thrown
      case Got(c, s1) =>
        match GetCoins(count - 1, s1)
        case Thrown => Thrown
        case Got(items, rest) => Got([c] + items, rest)
  }

  function PutUndo(items: seq<CoinEntry>): seq<Byte>
    requires AllFormed(items)
  {
    Low(|items|, 4) + PutCoins(items)
  }

  /** Bytes after the last coin are not looked at. */
  function GetUndo(s: seq<Byte>): Read<seq<CoinEntry>> {
    match Take(4, s)
    case Thrown => Thrown
    case Got(bytes, rest) => GetCoins(Value(bytes), rest)
  }

  method ToRaw(items: seq<CoinEntry>) returns (raw: seq<Byte>)
    requires AllFormed(items)
    ensures raw == PutUndo(items)
  {
    hide PutCoin, Formed, Low;
    raw := Low(|items|, 4);
    for i := 0 to |items|
      invariant raw + PutCoins(items[i..]) == PutUndo(items)
    {
      assert items[i..][0] == items[i] && items[i..][1..] == items[i + 1..];
      assert raw + (PutCoin(items[i]) + PutCoins(items[i + 1..])) == raw + PutCoin(items[i]) + PutCoins(items[i + 1..]);
      raw := raw + PutCoin(items[i]);
    }
  }

  method FromRaw(raw: seq<Byte>) returns (r: Read<seq<CoinEntry>>)
    ensures r == GetUndo(raw)
  {
    hide GetCoin, Value;
    var head := Take(4, raw);
    if head.Thrown? {
      return Thrown;
    }
    var count, rest := Value(head.value), head.rest;
    var items: seq<CoinEntry> := [];
    PrependNone(GetCoins(count, rest));
    for i := 0 to count
      invariant Prepend(items, GetCoins(count - i, rest)) == GetUndo(raw)
    {
      var c := GetCoin(rest);
      PrependOne(items, count - i, rest);
      if c.Thrown? {
        return Thrown;
      }
      items := items + [c.value];
      rest := c.rest;
    }
    assert items + [] == items;
    return Got(items, rest);
  }

  function Prepend(items: seq<CoinEntry>, r: Read<seq<CoinEntry>>): Read<seq<CoinEntry>> {
    match r case Thrown => Thrown case Got(more, rest) => Got(items + more, rest)
  }

  lemma PrependNone(r: Read<seq<CoinEntry>>)
    ensures Prepend([], r) == r
  {
    if r.Got? { assert [] + r.value == r.value; }
  }

  lemma PrependOne(items: seq<CoinEntry>, count: nat, s: seq<Byte>)
    requires count > 0
    ensures Prepend(items, GetCoins(count, s)) == match GetCoin(s)
      case Thrown => Thrown
      case Got(c, rest) => Prepend(items + [c], GetCoins(count - 1, rest))
  {
    hide GetCoin;
    if GetCoin(s).Got? {
      var more := GetCoins(count - 1, GetCoin(s).rest);
      if more.Got? { assert items + ([GetCoin(s).value] + more.value) == items + [GetCoin(s).value] + more.value; }
    }
  }

  predicate AllStorable(items: seq<CoinEntry>) {
    forall i :: 0 <= i < |items| ==> Storable(items[i])
  }

  lemma {:induction false} CoinsRoundTrip(items: seq<CoinEntry>, rest: seq<Byte>)
    requires AllFormed(items)
    ensures AllStorable(items) ==> GetCoins(|items|, PutCoins(items) + rest) == Got(items, rest)
    ensures !AllStorable(items) ==>
      var r := GetCoins(|items|, PutCoins(items) + rest); r.Thrown? || r.value != items
    decreases |items|
  {
    hide GetCoin, PutCoin, Storable, Formed;
    if items == [] {
      assert PutCoins(items) + rest == rest;
    } else {
      var more := PutCoins(items[1..]) + rest;
      assert PutCoins(items) + rest == PutCoin(items[0]) + more;
      CoinRoundTrip(items[0], more);
      CoinsRoundTrip(items[1..], rest);
      assert items == [items[0]] + items[1..];
      if !AllStorable(items) && Storable(items[0]) { NotAllStorable(items); }
    }
  }

  lemma NotAllStorable(items: seq<CoinEntry>)
    requires items != [] && Storable(items[0]) && !AllStorable(items)
    ensures !AllStorable(items[1..])
  {
    hide Storable;
    var i :| 0 <= i < |items| && !Storable(items[i]);
    assert items[1..][i - 1] == items[i];
  }

  /** An undo log comes back from its bytes, in order, exactly when every coin in it can be stored and
      their number fits 32 bits. */
  lemma UndoRoundTrip(items: seq<CoinEntry>)
    requires AllFormed(items)
    ensures var r := GetUndo(PutUndo(items));
      r.Got? && r.value == items <==> AllStorable(items) && |items| < 0x1_0000_0000
  {
    hide GetCoin, PutCoin, Low, Value, AllStorable;
    TakeBack(Low(|items|, 4), PutCoins(items));
    LowValue(|items|, 4);
    Capacities();
    CoinsRoundTrip(items, []);
    assert PutCoins(items) + [] == PutCoins(items);
    GetCoinsCount(Value(Low(|items|, 4)), PutCoins(items));
  }

  lemma {:induction false} GetCoinsCount(count: nat, s: seq<Byte>)
    ensures GetCoins(count, s).Got? ==> |GetCoins(count, s).value| == count
  {
    hide GetCoin;
    if count > 0 && GetCoin(s).Got? { GetCoinsCount(count - 1, GetCoin(s).rest); }
  }

  // ----- the bytes themselves

  /** Fixed-width numbers are written lowest byte first. */
  lemma {:induction false} LowBytes(n: nat, k: nat, i: nat)
    requires i < k
    ensures Capacity(i) > 0 && Low(n, k)[i] == n / Capacity(i) % 256
  {
    if i > 0 {
      LowBytes(n / 256, k - 1, i - 1);
      ByteQuotient(n, Capacity(i - 1));
    }
  }

  lemma ByteQuotient(n: nat, p: nat)
    requires p > 0
    ensures n / 256 / p == n / (256 * p)
  {
    var q, m := QuotientParts(n, 256, p);
    RemainderUnique(n / 256, p, q, n / 256 - m);
  }

  /** The four forms of a variable-length number. */
  lemma VarintBytes(n: nat)
    ensures n < 253 ==> PutVarint(n) == [n]
    ensures 253 <= n < 0x1_0000 ==> PutVarint(n) == [253, n % 256, n / 256]
    ensures 0x1_0000 <= n < 0x1_0000_0000 ==>
      PutVarint(n) == [254, n % 256, n / 0x100 % 256, n / 0x1_0000 % 256, n / 0x100_0000]
    ensures n >= 0x1_0000_0000 ==> |PutVarint(n)| == 9 && PutVarint(n)[0] == 255 && PutVarint(n)[1..] == Low(n, 8)
  {
    hide Low;
    TwoBytes(n);
    FourBytes(n);
    Quotients(n);
    if n >= 0x1_0000_0000 { assert PutVarint(n) == [255] + Low(n, 8); }
  }

  lemma TwoBytes(n: nat)
    ensures Low(n, 2) == [n % 256, n / 256 % 256]
  {
    assert Low(n, 2) == [n % 256] + Low(n / 256, 1);
    assert Low(n / 256, 1) == [n / 256 % 256] + Low(n / 256 / 256, 0);
  }

  lemma FourBytes(n: nat)
    ensures Low(n, 4) == [n % 256, n / 256 % 256, n / 256 / 256 % 256, n / 256 / 256 / 256 % 256]
  {
    hide Low;
    var b := n / 256 / 256;
    TwoBytes(n);
    TwoBytes(b);
    FrontBytes(n);
  }

  lemma FrontBytes(n: nat)
    ensures Low(n, 4) == [n % 256, n / 256 % 256] + Low(n / 256 / 256, 2)
  {
    assert Low(n, 4) == [n % 256] + Low(n / 256, 3);
    assert Low(n / 256, 3) == [n / 256 % 256] + Low(n / 256 / 256, 2);
  }

  lemma Quotients(n: nat)
    ensures n < 0x1_0000 ==> n / 256 % 256 == n / 256
    ensures n / 256 / 256 == n / 0x1_0000 && n / 256 / 256 / 256 == n / 0x100_0000
    ensures n < 0x1_0000_0000 ==> n / 0x100_0000 % 256 == n / 0x100_0000
  {}

  /** A coin paying to a key hash, byte for byte: version, height with the coinbase bit lowest, value,
      then the kind of script and the hash. */
  lemma CoinBytes(hash: seq<Byte>)
    requires |hash| == 20
    ensures PutCoin(CoinEntry(1, 500, true, 1000, KeyHash(hash))) == [1, 233, 3, 0, 0, 253, 232, 3, 0] + hash
  {
    VarintBytes(1);
    VarintBytes(1000);
    FourBytes(1001);
    assert PutVarint(1) + Low(1001, 4) + PutVarint(1000) + ([0] + hash) == [1, 233, 3, 0, 0, 253, 232, 3, 0] + hash;
  }
}
