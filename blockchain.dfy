/** The ledger: an append-only chain of blocks plus a staging list of
    transactions, and the decision the `/mine` endpoint takes before it
    seals a block. */
module Ledger {
  import opened Blocks
  import opened ProofEngine

  /** Proof and `previous_hash` sentinel of the genesis block. */
  const GenesisProof := 100
  const GenesisPreviousHash := IntHash(1)

  /** Block i (0-based) carries index i + 1. */
  predicate WellIndexed(chain: seq<Block>) {
    forall i :: 0 <= i < |chain| ==> chain[i].index == i + 1
  }

  /** Every block after the first names the hash of its predecessor. */
  predicate Linked(c: Crypto, chain: seq<Block>) {
    forall i :: 0 < i < |chain| ==> chain[i].previousHash == StrHash(BlockHash(c, chain[i - 1]))
  }

  /** What the `previous_hash` links buy: two linked chains of the same
      length that end in the same block are the same chain, unless at some
      position they hold different blocks with the same hash. So altering an
      earlier block without altering the last one needs a hash collision. */
  lemma {:induction false} LastBlockPinsChain(c: Crypto, chain: seq<Block>, other: seq<Block>)
    requires |chain| == |other| > 0
    requires Linked(c, chain) && Linked(c, other)
    requires chain[|chain| - 1] == other[|other| - 1]
    ensures chain == other
            || exists i :: 0 <= i < |chain| && chain[i] != other[i]
                           && BlockHash(c, chain[i]) == BlockHash(c, other[i])
  {
    var n := |chain|;
    if n > 1 && chain[n - 2] != other[n - 2] {
      assert chain[n - 1].previousHash == other[n - 1].previousHash;
      assert BlockHash(c, chain[n - 2]) == BlockHash(c, other[n - 2]);
    } else if n > 1 {
      var p, q := chain[..n - 1], other[..n - 1];
      assert Linked(c, p) && Linked(c, q);
      LastBlockPinsChain(c, p, q);
      if p == q {
        assert chain == p + [chain[n - 1]] && other == q + [other[n - 1]];
      } else {
        var i :| 0 <= i < |p| && p[i] != q[i] && BlockHash(c, p[i]) == BlockHash(c, q[i]);
        assert chain[i] == p[i] && other[i] == q[i];
      }
    } else {
      assert chain == [chain[0]] && other == [other[0]];
    }
  }

  /** Every block was sealed with an empty transaction list. */
  predicate NoTransactionsRecorded(chain: seq<Block>) {
    forall i :: 0 <= i < |chain| ==> chain[i].transactions == []
  }

  /** The genesis block as the constructor seals it, up to its timestamp. */
  predicate IsGenesis(b: Block) {
    b.index == 1 && b.transactions == [] && b.proof == GenesisProof
    && b.previousHash == GenesisPreviousHash
  }

  class Blockchain {
    const crypto: Crypto
    var chain: seq<Block>
    var currentTransactions: seq<Transaction>

    /** The object invariant every public operation keeps. Since staging is
        a stub, nothing is ever staged and every block is sealed empty. */
    ghost predicate Valid()
      reads this
    {
      && chain != []
      && IsGenesis(chain[0])
      && WellIndexed(chain)
      && currentTransactions == []
      && NoTransactionsRecorded(chain)
    }

    /** `Blockchain.__init__`: start from an empty chain and staging list and
        seal the genesis block with proof 100 and the sentinel 1 as its
        `previous_hash`. `timestamp` is what `time()` returned. */
    constructor (crypto: Crypto, timestamp: real)
      ensures Valid() && Linked(crypto, chain)
      ensures this.crypto == crypto
      ensures chain == [Block(1, timestamp, [], GenesisProof, GenesisPreviousHash)]
      ensures currentTransactions == []
    {
      this.crypto := crypto;
      chain := [];
      currentTransactions := [];
      new;
      var _ := NewBlock(GenesisProof, GenesisPreviousHash, timestamp);
    }

    /** `Blockchain.new_transaction`: the source declares it with a docstring
        and no body, so it stages nothing and returns nothing. */
    method NewTransaction(sender: string, recipient: string, amount: int)
      ensures chain == old(chain) && currentTransactions == old(currentTransactions)
    {
    }

    /** `Blockchain.last_block`: the block appended last. Like `chain[-1]`,
        it is defined only on a non-empty chain. */
    function LastBlock(): (b: Block)
      reads this
      requires chain != []
      ensures b in chain
      ensures WellIndexed(chain) ==> b.index == |chain|
      ensures WellIndexed(chain) ==> forall i :: 0 <= i < |chain| ==> chain[i].index <= b.index
    {
      chain[|chain| - 1]
    }

    /** `Blockchain.new_block`: seal the staged transactions into a block
        with the next index, append it and rebind the staging list to a new
        empty one. `previous_hash` is used when it is truthy; otherwise the
        hash of the current last block is computed, which needs a non-empty
        chain. */
    method NewBlock(proof: int, previousHash: PrevHash, timestamp: real) returns (b: Block)
      requires Truthy(previousHash) || chain != []
      modifies this
      ensures chain == old(chain) + [b]
      ensures currentTransactions == []
      ensures b.index == |old(chain)| + 1
      ensures b.timestamp == timestamp && b.proof == proof
      ensures b.transactions == old(currentTransactions)
      ensures Truthy(previousHash) ==> b.previousHash == previousHash
      ensures !Truthy(previousHash) ==> b.previousHash == StrHash(BlockHash(crypto, old(LastBlock())))
      ensures b == LastBlock()
      ensures WellIndexed(old(chain)) ==> WellIndexed(chain)
      ensures !Truthy(previousHash) && Linked(crypto, old(chain)) ==> Linked(crypto, chain)
    {
      var prev := if Truthy(previousHash) then previousHash else StrHash(BlockHash(crypto, LastBlock()));
      b := Block(|chain| + 1, timestamp, currentTransactions, proof, prev);
      currentTransactions := [];
      chain := chain + [b];
    }
  }

  /** The part of a `/mine` request body the handler looks at. */
  datatype Option<T> = None | Some(value: T)
  datatype MineRequest = MineRequest(id: Option<string>, proof: Option<int>)

  /** The three answers of `/mine`: 400 "missing values", 200 "Proof is
      invalid", or 200 with the new block. */
  datatype MineResult = MissingValues | ProofRejected | Mined(block: Block)

  /** The decision in the `/mine` handler, without the HTTP layer: reject a
      request without `id` or `proof`; otherwise validate the proof against
      the JSON dump of the last block and, only if it passes, record the
      (stub) reward transaction and seal a block linked to that last block. */
  method Mine(ledger: Blockchain, request: MineRequest, timestamp: real) returns (r: MineResult)
    requires ledger.Valid()
    modifies ledger
    ensures ledger.Valid()
    ensures request.id.None? || request.proof.None? ==>
              r == MissingValues && unchanged(ledger)
    ensures request.id.Some? && request.proof.Some? ==>
              var last := old(ledger.LastBlock());
              var blockString := ledger.crypto.dumps(last);
              if ValidProof(ledger.crypto, blockString, request.proof.value) then
                && r.Mined?
                && ledger.chain == old(ledger.chain) + [r.block]
                && r.block == Block(|old(ledger.chain)| + 1, timestamp, [], request.proof.value,
                                    StrHash(ledger.crypto.sha256Hex(blockString)))
              else
                r == ProofRejected && unchanged(ledger)
    ensures Linked(ledger.crypto, old(ledger.chain)) ==> Linked(ledger.crypto, ledger.chain)
  {
    if request.id.None? || request.proof.None? {
      return MissingValues;
    }
    var proof := request.proof.value;
    var last := ledger.LastBlock();
    var blockString := ledger.crypto.dumps(last);
    if ValidProof(ledger.crypto, blockString, proof) {
      ledger.NewTransaction("0", request.id.value, 1);
      var b := ledger.NewBlock(proof, NoHash, timestamp);
      return Mined(b);
    }
    return ProofRejected;
  }
}
