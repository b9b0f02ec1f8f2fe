# Client-mining blockchain ledger, modelled in Dafny

This project models the ledger of a small proof-of-work blockchain node
(`client_mining_p/blockchain.py`). The model covers four things:

- The `Blockchain` object. It holds an append-only `chain` of block
  dictionaries and a `current_transactions` staging list.
- Its operations: the constructor that seals the genesis block,
  `new_transaction`, `new_block`, `last_block` and `hash`.
- The static predicate `valid_proof`.
- The decision the `/mine` endpoint takes: reject a request without `id` or
  `proof`, check the proof against the JSON dump of the last block, and seal
  a new block only when the check passes.

Files:

- `block.dfy` (module `Blocks`) holds the data model. It defines
  `Transaction`, `Block`, the `previous_hash` value `PrevHash` with Python's
  truthiness, and the 64-character lower-case `HexDigest`. It also defines
  `Crypto`, a record of the two foreign primitives: the key-sorted
  `json.dumps` serialiser and SHA-256 `hexdigest`.
- `proof_engine.dfy` (module `ProofEngine`) holds the pure part: the block
  hash, Python's `str` of an integer proof, and `valid_proof`. It proves
  that six leading hex zeros mean that the digest, read as a number, is
  below 16^58 = 2^232.
- `blockchain.dfy` (module `Ledger`) holds the class `Blockchain` and the
  `Mine` method.

`Blockchain.Valid()` is the object invariant. It says:

- the chain is non-empty and starts with the genesis block;
- block i carries index i + 1;
- the staging list is empty;
- every sealed block has an empty transaction list.

The last two facts follow from `new_transaction` having no body. `Linked`
says that every block after the genesis names the hash of its predecessor.
The constructor establishes it and `Mine` preserves it, for any serialiser
and any hash function. `LastBlockPinsChain` states what the links give: two
linked chains of the same length that end in the same block are equal
unless, at some position, they hold two different blocks with the same
hash.

The SHA-256 digest, `json.dumps` and `time()` are parameters. `Crypto` is
passed to the constructor. The timestamp is an argument of `NewBlock` and
`Mine`.

Where the code's own docstrings and the code disagree, the model follows
the code:

- `new_transaction` documents `:return: <int>` and a transaction "to go into
  the next mined block", but has no body. The model makes it a no-op that
  returns nothing.
- The `valid_proof` docstring asks for "3 leading zeroes", but the code
  compares the first six hex characters with `'000000'`. The model demands
  six leading hex zeros.

## Model

| member | source | states |
|---|---|---|
| `ProofEngine.BlockHash` | client_mining_p/blockchain.py:54-81 | the hash of a block is a SHA-256 hex digest of its key-sorted dump, a 64-character hex string denoting a number below 16^64 = 2^256 |
| `Ledger.LastBlockPinsChain` | client_mining_p/blockchain.py:46 | two hash-linked chains of equal length that end in the same block are equal, or hold two different blocks with the same hash at some position: an earlier block cannot be altered without a hash collision |
| `ProofEngine.NatToDecimal` | client_mining_p/blockchain.py:102 | `str` of a non-negative proof is a non-empty string of decimal digits with no leading '0', and zero is exactly "0" |
| `ProofEngine.DecimalRoundTrip` | client_mining_p/blockchain.py:102 | reading back the digits that `str` produced for n gives n |
| `ProofEngine.IntToDecimal` | client_mining_p/blockchain.py:102 | `str(proof)` starts with '-' exactly when the proof is negative, the digits after the sign denote its magnitude, and they carry no leading '0' (only zero is "0") |
| `ProofEngine.CanonicalDecimalUnique` | client_mining_p/blockchain.py:102 | two digit strings without leading zeros that denote the same number are the same string |
| `ProofEngine.PythonIntTextUnique` | client_mining_p/blockchain.py:102-105 | any string that is Python's text for an integer (sign rule, canonical digits, right value) is exactly `IntToDecimal` of it, so the guess hashed is exactly `block_string + str(proof)` |
| `ProofEngine.IntToDecimalInjective` | client_mining_p/blockchain.py:102 | different proofs give different strings, so each proof is checked against its own guess string |
| `ProofEngine.LeadingZerosMeanSmallValue` | client_mining_p/blockchain.py:105-107 | the first k hex digits of a digest are all '0' exactly when its value is below 16^(length - k) |
| `ProofEngine.DigestCheck` | client_mining_p/blockchain.py:107 | the comparison `hash_value[:6] == '000000'` holds exactly when the first six digest characters are '0', and exactly when the digest is below 16^58 |
| `ProofEngine.ValidProof` | client_mining_p/blockchain.py:87-107 | a proof is valid exactly when the SHA-256 hex digest of block string + `str(proof)` starts with six '0' characters, which is the same as that digest being below 2^232 |
| `Ledger.Blockchain.constructor` | client_mining_p/blockchain.py:9-14 | after construction the chain is exactly one block: index 1, proof 100, `previous_hash` the sentinel 1, no transactions; the staging list is empty; the invariant and the hash linkage hold |
| `Ledger.Blockchain.NewTransaction` | client_mining_p/blockchain.py:16-23 | the stub changes neither the chain nor the staging list and returns nothing |
| `Ledger.Blockchain.LastBlock` | client_mining_p/blockchain.py:83-85 | the last block is a block of the chain, defined only on a non-empty chain; on a well-indexed chain its index is the chain length, the largest index in the chain |
| `Ledger.Blockchain.NewBlock` | client_mining_p/blockchain.py:25-52 | appends exactly one block and leaves the earlier blocks unchanged; the new block has index old length + 1, the given proof and timestamp, and the staged transactions as they were at the call; the staging list is empty afterwards; `previous_hash` is the argument when it is truthy, else the hash of the old last block; the result is the new last block; indexing is preserved, and hash linkage is preserved when `previous_hash` is falsy |
| `Ledger.Mine` | client_mining_p/blockchain.py:129-159 | a request without `id` or `proof` is rejected with no state change; an invalid proof leaves the ledger unchanged; a valid proof appends exactly one block with the next index, the given proof, no transactions, and as `previous_hash` the digest of the very string the proof was checked against; the invariant and the hash linkage are preserved |

## Left out

- The Flask application is not modelled: routes, `jsonify`, `request.get_json`, the HTTP status codes, the `/`, `/chain` and `/last_block` handlers and `app.run` (lines 110-182). Only the decision inside `mine()` is kept. Its three responses become the three `MineResult` values.
- SHA-256 and `json.dumps(..., sort_keys=True)` are foreign library code. Both are parameters in `Crypto`. The only constraint placed on SHA-256 is its output shape, 64 lower-case hex characters; nothing is assumed of `dumps`. Key-order independence is built into the model, because a `Block` value has no key order.
- `time()` is a system clock. The timestamp is an unconstrained `real` argument, so the model says nothing about timestamps being non-decreasing.
- The `uuid4` node identifier and the process-wide `blockchain` instance are ambient global state. `Mine` takes the ledger as an argument instead.
- A `/mine` body that is not a JSON object (`get_json` returning `None`) is not modelled. The request is modelled as two optional fields.
- Proofs are integers. A JSON proof of another type (a string or a float) would be rendered by Python's `str` differently. This is not modelled.
- The sealed block and the staging list share one Python list object until `current_transactions` is rebound. The model uses sequence values, so aliasing is not modelled. Because the field is rebound rather than cleared in place, later staging could not reach a sealed block in the Python code either.
- "A changed block changes its hash" is not modelled. Collision resistance cannot be stated as a property of a function with only 16^64 possible outputs; `Ledger.LastBlockPinsChain` states instead what the links give up to a collision.
- The `IndexError` that `chain[-1]` raises on an empty chain (lines 46 and 85) is the precondition `chain != []` of `LastBlock`, and of `NewBlock` when `previous_hash` is falsy. No caller reaches it: the constructor passes the truthy sentinel 1, and every later call runs on a chain that holds the genesis block.
- Concurrency between requests is not modelled. The code has no locking, and the model is sequential.
