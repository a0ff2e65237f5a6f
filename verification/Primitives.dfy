/** Values shared by the coin, chain and script models: outputs, transactions, coins and blocks. */
module Primitives {

  datatype Option<+T> = None | Some(value: T)

  type Addr = nat
  type TxId = nat

  /** An unsigned 32-bit field. */
  type Word = n: nat | n < 0x1_0000_0000

  const MAX_MONEY: int := 9886117450 * COIN
  const COIN: int := 100000000000
  const BASE_REWARD: int := 512 * COIN
  const BASE_REWARD_INTERVAL: nat := 50000000
  const COINBASE_MATURITY: int := 500

  /** `NullOutpoint` is the all-zero hash with index 0xffffffff, which only a coinbase carries. */
  datatype Outpoint = NullOutpoint | Outpoint(hash: TxId, index: nat)

  /** An output is unspendable when its script is oversized or starts with OP_RETURN. Such a
      script matches none of the templates an address is read from, so it carries no address. */
  datatype Output =
    | Spendable(value: int, addr: Option<Addr>)
    | Unspendable(value: int)

  datatype Input = Input(prevout: Outpoint, sequence: nat)

  datatype Tx = Tx(txid: TxId, version: Word, inputs: seq<Input>, outputs: seq<Output>) {
    predicate IsCoinbase() {
      |inputs| == 1 && inputs[0].prevout == NullOutpoint
    }
  }

  /** A stored unspent output: the record written under `c[hash, index]`. */
  datatype Coin = Coin(version: Word, height: int, coinbase: bool, output: Output)

  type Coins = map<Outpoint, Coin>

  /** A block is identified with its hash: equal hashes mean equal headers, transactions and
      ancestors. `prev` is the previous block hash, `None` standing for the all-zero hash. */
  datatype Block = Block(prev: Option<Block>, time: Word, bits: Word, version: Word, nonce: Word, txs: seq<Tx>)

  function Height(b: Block): nat {
    if b.prev.None? then 0 else Height(b.prev.value) + 1
  }

  /** `a` is `b` or one of its ancestors. */
  predicate IsAncestor(a: Block, b: Block) {
    a == b || (b.prev.Some? && IsAncestor(a, b.prev.value))
  }

  /** The ancestor of `b` at height `i`. */
  function Ancestor(b: Block, i: nat): (a: Block)
    requires i <= Height(b)
    ensures Height(a) == i && IsAncestor(a, b)
  {
    if i == Height(b) then b else Ancestor(b.prev.value, i)
  }

  lemma {:induction false} AncestorHeight(a: Block, b: Block)
    requires IsAncestor(a, b)
    ensures Height(a) <= Height(b)
    ensures Height(a) == Height(b) ==> a == b
    ensures Ancestor(b, Height(a)) == a
  {
    if a != b {
      AncestorHeight(a, b.prev.value);
    }
  }

  /** Below `a`, the chains of `a` and of any descendant are the same. */
  lemma {:induction false} SameAncestor(a: Block, b: Block, i: nat)
    requires IsAncestor(a, b) && i <= Height(a)
    ensures Height(a) <= Height(b) && Ancestor(a, i) == Ancestor(b, i)
  {
    AncestorHeight(a, b);
    if a != b {
      SameAncestor(a, b.prev.value, i);
    }
  }

  lemma {:induction false} AncestorTrans(a: Block, b: Block, c: Block)
    requires IsAncestor(a, b) && IsAncestor(b, c)
    ensures IsAncestor(a, c)
  {
    if b != c {
      AncestorTrans(a, b, c.prev.value);
    }
  }

}
