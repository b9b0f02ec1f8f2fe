/** The values the ledger stores: transactions, blocks, the `previous_hash`
    argument with Python's truthiness, and the two foreign primitives
    (`json.dumps(..., sort_keys=True)` and SHA-256 `hexdigest`) that the
    ledger's hashing is built from. */
module Blocks {

  /** A transfer staged for the next block. Nothing in the ledger ever
      creates one (the staging method is a stub), but blocks carry a list
      of them. */
  datatype Transaction = Transaction(sender: string, recipient: string, amount: int)

  /** The value passed as `previous_hash`, and the value stored under that
      key: Python's `None`, the integer sentinel the genesis block uses, or
      a hash string. */
  datatype PrevHash = NoHash | IntHash(n: int) | StrHash(s: string)

  /** Python's truthiness of a `previous_hash` value: `None`, `0` and `""`
      are false, everything else is true. */
  predicate Truthy(h: PrevHash) {
    match h
    case NoHash => false
    case IntHash(n) => n != 0
    case StrHash(s) => s != ""
  }

  /** A block dictionary with its five keys. `timestamp` is the float that
      `time()` returned when the block was sealed. */
  datatype Block = Block(
    index: int,
    timestamp: real,
    transactions: seq<Transaction>,
    proof: int,
    previousHash: PrevHash)

  /** A character `hexdigest()` can produce: a digit or a lower-case a-f. */
  predicate IsHexChar(ch: char) {
    '0' <= ch <= '9' || 'a' <= ch <= 'f'
  }

  /** What `hexdigest()` of a SHA-256 hash looks like: 64 lower-case
      hexadecimal characters. */
  predicate IsHexDigest(s: string) {
    |s| == 64 && forall i :: 0 <= i < |s| ==> IsHexChar(s[i])
  }

  type HexDigest = s: string | IsHexDigest(s)
    witness seq(64, _ => '0')

  /** The two foreign primitives, taken as parameters so that every property
      of the model holds for any serialiser and any hash function:
      `dumps` is `json.dumps(block, sort_keys=True)` and `sha256Hex(s)` is
      `hashlib.sha256(s.encode()).hexdigest()`. The serialiser sees a block
      value, which has no key order, so the key-order independence that
      `sort_keys=True` provides is built into its type. */
  datatype Crypto = Crypto(dumps: Block -> string, sha256Hex: string -> HexDigest)
}
