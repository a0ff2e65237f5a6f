/** The record of the running totals (src/blockchain/chaindb.js), and when it can be read back. */
module StateRecord {
  import opened Primitives
  import opened Totals
  import opened Replay
  import opened ChainRecords
  import opened CoinRecords
  import opened UndoRecords

  /** The 32 bytes of the tip's hash, then three 64-bit fields. */
  datatype StateEntry = StateEntry(hash: seq<Byte>, tx: nat, coin: nat, value: nat)

  function PutState(e: StateEntry): seq<Byte> {
    e.hash + Low(e.tx, 8) + Low(e.coin, 8) + Low(e.value, 8)
  }

  /** Numbers from 2^53 on are refused when they are read. */
  function GetU64(s: seq<Byte>): Read<nat> {
    match Take(8, s)
    case Thrown => Thrown
    case Got(bytes, rest) => if Value(bytes) >= SAFE then Thrown else Got(Value(bytes), rest)
  }

  function GetState(s: seq<Byte>): Read<StateEntry> {
    match Take(32, s)
    case Thrown => Thrown
    case Got(hash, s1) =>
      match GetU64(s1)
      case Thrown => Thrown
      case Got(tx, s2) =>
        match GetU64(s2)
        case Thrown => Thrown
        case Got(coin, s3) =>
          match GetU64(s3)
          case Thrown => Thrown
          case Got(value, rest) => Got(StateEntry(hash, tx, coin, value), rest)
  }

  lemma U64RoundTrip(n: nat, rest: seq<Byte>)
    ensures n < SAFE ==> GetU64(Low(n, 8) + rest) == Got(n, rest)
    ensures n >= SAFE ==> GetU64(Low(n, 8) + rest).Thrown? || GetU64(Low(n, 8) + rest).value != n
  {
    hide Low, Value, Capacity;
    EightBytes();
    LowValue(n, 8);
    TakeBack(Low(n, 8), rest);
  }

  /** The totals come back from their record exactly when each of them is below 2^53. */
  lemma StateRoundTrip(e: StateEntry)
    requires |e.hash| == 32
    ensures GetState(PutState(e)) == Got(e, []) <==> e.tx < SAFE && e.coin < SAFE && e.value < SAFE
    ensures |PutState(e)| == 56
  {
    hide GetU64, Low;
    var s3 := Low(e.value, 8) + [];
    var s2 := Low(e.coin, 8) + s3;
    var s1 := Low(e.tx, 8) + s2;
    assert PutState(e) == e.hash + s1;
    TakeBack(e.hash, s1);
    U64RoundTrip(e.tx, s2);
    U64RoundTrip(e.coin, s3);
    U64RoundTrip(e.value, []);
  }

  lemma {:induction false} SumNonNegative(coins: Coins, ops: set<Outpoint>)
    requires ops <= coins.Keys && forall op :: op in coins ==> coins[op].output.value >= 0
    ensures SumOver(coins, ops) >= 0
  {
    if ops != {} {
      var op :| op in ops && SumOver(coins, ops) == coins[op].output.value + SumOver(coins, ops - {op});
      SumNonNegative(coins, ops - {op});
    }
  }

  /** A database whose tip lies where the subsidies so far are below 2^53 can be opened again, as far as
      its counts are below that as well; in general, exactly when counts and value are. */
  lemma StateSurvives(db: Records, genesis: Block, interval: nat, hash: seq<Byte>)
    requires Consistent(db, genesis, interval) && |hash| == 32
    ensures var s := db.state.value;
      && s.tx >= 0 && s.coin >= 0 && s.value >= 0
      && (SubsidyUpTo(Height(s.tip.value), interval) < SAFE ==> s.value < SAFE)
      && var e := StateEntry(hash, s.tx, s.coin, s.value);
      GetState(PutState(e)) == Got(e, []) <==> s.tx < SAFE && s.coin < SAFE && TotalValue(db.coins) < SAFE
  {
    hide GetState, PutState;
    var s := db.state.value;
    StateCounts(db, genesis, interval);
    CoinsMade(s.tip.value, interval);
    SumNonNegative(db.coins, db.coins.Keys);
    StateRoundTrip(StateEntry(hash, s.tx, s.coin, s.value));
  }
}
