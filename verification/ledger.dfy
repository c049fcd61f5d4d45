/** The `Blockchain` ledger: the chain of blocks, the pending pool, block hashing,
    the proof-of-work predicate and search, and the three state changes
    (construction, `append_block`, `add_transaction`). */
module Ledger {
  import opened Wrappers
  import opened Records
  import opened Primitives

  /** Hex prefix every proof-of-work digest must start with. */
  const DifficultyTarget: string := "0000"

  /** The string whose hash the genesis block records as its predecessor's hash. */
  const GenesisPlaceholder: string := "genesis_block"

  /** `hash_block`: SHA-256 of the sorted-key JSON text of its argument. */
  function HashBlock(c: Crypto, x: Hashable): string
  {
    c.sha256Hex(c.jsonDumps(x))
  }

  /** The genesis block's `previous_hash`: `hash_block` of the placeholder string. */
  function GenesisHash(c: Crypto): string
  {
    HashBlock(c, Text(GenesisPlaceholder))
  }

  /** The f-string `{index}{previous_hash}{transactions}{nonce}` that is hashed for a proof. */
  function Guess(c: Crypto, index: nat, previousHash: string, transactions: seq<Transaction>, nonce: nat): (g: string)
    ensures Decimal(index) <= g
    ensures |g| >= |Decimal(nonce)| && g[|g| - |Decimal(nonce)|..] == Decimal(nonce)
    ensures |g| == |Decimal(index)| + |previousHash| + |c.reprTransactions(transactions)| + |Decimal(nonce)|
  {
    Decimal(index) + previousHash + c.reprTransactions(transactions) + Decimal(nonce)
  }

  /** `valid_proof`: the digest of the guess, cut to the target's length, equals the target. */
  function ValidProof(c: Crypto, index: nat, previousHash: string, transactions: seq<Transaction>, nonce: nat): (ok: bool)
    ensures ok <==> DifficultyTarget <= c.sha256Hex(Guess(c, index, previousHash, transactions, nonce))
  {
    SlicePrefix(c.sha256Hex(Guess(c, index, previousHash, transactions, nonce)), |DifficultyTarget|) == DifficultyTarget
  }

  /** Different nonces give different guess strings, so the search never hashes the
      same text twice. */
  lemma GuessInjectiveInNonce(c: Crypto, index: nat, previousHash: string, transactions: seq<Transaction>, m: nat, n: nat)
    requires Guess(c, index, previousHash, transactions, m) == Guess(c, index, previousHash, transactions, n)
    ensures m == n
  {
    var p := Decimal(index) + previousHash + c.reprTransactions(transactions);
    assert (p + Decimal(m))[|p|..] == Decimal(m);
    assert (p + Decimal(n))[|p|..] == Decimal(n);
    DecimalInjective(m, n);
  }

  /** `n` is what a search counting up from 0 stops at: valid, and nothing below it is. */
  ghost predicate IsLeastValidNonce(c: Crypto, index: nat, previousHash: string, transactions: seq<Transaction>, n: nat)
  {
    ValidProof(c, index, previousHash, transactions, n) &&
    forall m: nat :: m < n ==> !ValidProof(c, index, previousHash, transactions, m)
  }

  /** Some nonce passes `valid_proof`: the condition under which the search ends. */
  ghost predicate Solvable(c: Crypto, index: nat, previousHash: string, transactions: seq<Transaction>)
  {
    exists n: nat :: ValidProof(c, index, previousHash, transactions, n)
  }

  /** `proof_of_work`: try nonces 0, 1, 2, ... until one is valid. The loop returns only
      when some valid nonce exists, which is what the precondition says. */
  method ProofOfWork(c: Crypto, index: nat, previousHash: string, transactions: seq<Transaction>) returns (nonce: nat)
    requires Solvable(c, index, previousHash, transactions)
    ensures ValidProof(c, index, previousHash, transactions, nonce)
    ensures forall m: nat :: m < nonce ==> !ValidProof(c, index, previousHash, transactions, m)
  {
    ghost var bound: nat :| ValidProof(c, index, previousHash, transactions, bound);
    nonce := 0;
    while !ValidProof(c, index, previousHash, transactions, nonce)
      invariant nonce <= bound
      invariant forall m: nat :: m < nonce ==> !ValidProof(c, index, previousHash, transactions, m)
      decreases bound - nonce
    {
      nonce := nonce + 1;
    }
  }

  /** Python truthiness of the optional `previous_hash` argument: given and non-empty. */
  predicate Truthy(previousHash: Option<string>)
  {
    previousHash.Some? && previousHash.value != ""
  }

  /** The block `append_block` builds, or None when it raises `IndexError` (no usable
      `previous_hash` and no last block to hash). */
  function NewBlock(c: Crypto, chain: seq<Block>, pending: seq<Transaction>, nonce: nat,
                    previousHash: Option<string>, now: real): (r: Option<Block>)
    ensures r.Some? <==> Truthy(previousHash) || chain != []
    ensures r.Some? ==> r.value.index == |chain| + 1 && r.value.transactions == pending
    ensures r.Some? ==> r.value.nonce == nonce && r.value.timestamp == now
    ensures Truthy(previousHash) ==> r.Some? && r.value.previousHash == previousHash.value
    ensures !Truthy(previousHash) && chain != [] ==>
              r.Some? && r.value.previousHash == HashBlock(c, BlockRecord(chain[|chain| - 1]))
  {
    if Truthy(previousHash) then
      Some(Block(|chain| + 1, now, pending, nonce, previousHash.value))
    else if chain == [] then
      None
    else
      Some(Block(|chain| + 1, now, pending, nonce, HashBlock(c, BlockRecord(chain[|chain| - 1]))))
  }

  /** Block `i` carries index `i + 1`: the numbering `append_block` produces. */
  ghost predicate IndexedByPosition(chain: seq<Block>)
  {
    forall i :: 0 <= i < |chain| ==> chain[i].index == i + 1
  }

  /** A chain built by construction and mining alone: the genesis block records the
      placeholder's hash and no transactions, every later block the hash of the block
      before it, and every block the least valid nonce for its position. */
  ghost predicate Mined(c: Crypto, chain: seq<Block>)
  {
    chain != [] &&
    IndexedByPosition(chain) &&
    chain[0].previousHash == GenesisHash(c) &&
    chain[0].transactions == [] &&
    (forall i :: 0 < i < |chain| ==> chain[i].previousHash == HashBlock(c, BlockRecord(chain[i - 1]))) &&
    (forall i :: 0 <= i < |chain| ==>
       IsLeastValidNonce(c, i, chain[i].previousHash, chain[i].transactions, chain[i].nonce))
  }

  // ----- The ledger as a value, and what a sequence of calls does to it -----

  datatype LedgerState = LedgerState(chain: seq<Block>, currentTransactions: seq<Transaction>)

  /** One call on the ledger: `add_transaction` or `append_block`. */
  datatype Call =
    | AddTransaction(tx: Transaction)
    | AppendBlock(nonce: nat, previousHash: Option<string>, now: real)

  function Apply(c: Crypto, s: LedgerState, call: Call): LedgerState
  {
    match call
    case AddTransaction(tx) =>
      LedgerState(s.chain, s.currentTransactions + [tx])
    case AppendBlock(nonce, previousHash, now) =>
      match NewBlock(c, s.chain, s.currentTransactions, nonce, previousHash, now)
      case None => s
      case Some(b) => LedgerState(s.chain + [b], [])
  }

  function Run(c: Crypto, s: LedgerState, calls: seq<Call>): LedgerState
    decreases |calls|
  {
    if calls == [] then s else Run(c, Apply(c, s, calls[0]), calls[1..])
  }

  /** All transactions of the blocks, block after block. */
  function Flatten(blocks: seq<Block>): seq<Transaction>
  {
    if blocks == [] then [] else Flatten(blocks[..|blocks| - 1]) + blocks[|blocks| - 1].transactions
  }

  /** Everything the ledger holds: mined transactions followed by pending ones. */
  function Recorded(s: LedgerState): seq<Transaction>
  {
    Flatten(s.chain) + s.currentTransactions
  }

  /** The transactions submitted by a sequence of calls, in order. */
  function Submitted(calls: seq<Call>): seq<Transaction>
    decreases |calls|
  {
    if calls == [] then []
    else (if calls[0].AddTransaction? then [calls[0].tx] else []) + Submitted(calls[1..])
  }

  /** Any sequence of calls only appends to the chain: earlier blocks never change. */
  lemma {:induction false} RunExtendsChain(c: Crypto, s: LedgerState, calls: seq<Call>)
    ensures s.chain <= Run(c, s, calls).chain
    decreases |calls|
  {
    if calls != [] {
      RunExtendsChain(c, Apply(c, s, calls[0]), calls[1..]);
    }
  }

  /** Any sequence of calls keeps block `i` at index `i + 1`. */
  lemma {:induction false} RunKeepsIndexing(c: Crypto, s: LedgerState, calls: seq<Call>)
    requires IndexedByPosition(s.chain)
    ensures IndexedByPosition(Run(c, s, calls).chain)
    decreases |calls|
  {
    if calls != [] {
      var next := Apply(c, s, calls[0]);
      assert IndexedByPosition(next.chain);
      RunKeepsIndexing(c, next, calls[1..]);
    }
  }

  /** One call adds exactly the transaction it submits (if any) to what the ledger holds. */
  lemma ApplyRecords(c: Crypto, s: LedgerState, call: Call)
    ensures Recorded(Apply(c, s, call)) == Recorded(s) + Submitted([call])
  {
  }

  /** No transaction is ever lost, duplicated or reordered: after any sequence of calls,
      the mined transactions followed by the pool are the earlier ones followed by the
      newly submitted ones. */
  lemma {:induction false} RunRecordsEverySubmission(c: Crypto, s: LedgerState, calls: seq<Call>)
    ensures Recorded(Run(c, s, calls)) == Recorded(s) + Submitted(calls)
    decreases |calls|
  {
    if calls != [] {
      var next := Apply(c, s, calls[0]);
      ApplyRecords(c, s, calls[0]);
      RunRecordsEverySubmission(c, next, calls[1..]);
      assert Submitted(calls) == Submitted([calls[0]]) + Submitted(calls[1..]) by {
        assert Submitted([calls[0]]) == (if calls[0].AddTransaction? then [calls[0].tx] else []) + Submitted([]);
      }
    }
  }

  /** Appending a block built by mining keeps a mined chain mined. */
  lemma MinedExtends(c: Crypto, chain: seq<Block>, b: Block)
    requires Mined(c, chain)
    requires b.index == |chain| + 1
    requires b.previousHash == HashBlock(c, BlockRecord(chain[|chain| - 1]))
    requires IsLeastValidNonce(c, |chain|, b.previousHash, b.transactions, b.nonce)
    ensures Mined(c, chain + [b])
  {
    var ext := chain + [b];
    forall i | 0 < i < |ext|
      ensures ext[i].previousHash == HashBlock(c, BlockRecord(ext[i - 1]))
    {
      if i < |chain| {
        assert ext[i] == chain[i] && ext[i - 1] == chain[i - 1];
      }
    }
    forall i | 0 <= i < |ext|
      ensures IsLeastValidNonce(c, i, ext[i].previousHash, ext[i].transactions, ext[i].nonce)
    {
      if i < |chain| {
        assert ext[i] == chain[i];
      }
    }
  }

  // ----- The ledger object -----

  class Blockchain {
    const crypto: Crypto
    var chain: seq<Block>
    var currentTransactions: seq<Transaction>

    /** The invariant every constructed ledger keeps: a genesis block exists and
        block `i` has index `i + 1`. */
    ghost predicate Valid()
      reads this
    {
      chain != [] && IndexedByPosition(chain)
    }

    ghost function State(): LedgerState
      reads this
    {
      LedgerState(chain, currentTransactions)
    }

    /** `__init__`: an empty chain and pool, then the genesis block, whose nonce is the
        proof of work for index 0, the placeholder's hash and no transactions. */
    constructor (crypto: Crypto, now: real)
      requires GenesisHash(crypto) != ""
      requires Solvable(crypto, 0, GenesisHash(crypto), [])
      ensures this.crypto == crypto
      ensures |chain| == 1
      ensures chain[0].index == 1 && chain[0].timestamp == now && chain[0].transactions == []
      ensures chain[0].previousHash == GenesisHash(crypto)
      ensures IsLeastValidNonce(crypto, 0, GenesisHash(crypto), [], chain[0].nonce)
      ensures currentTransactions == []
      ensures Valid() && Mined(crypto, chain)
    {
      this.crypto := crypto;
      chain := [];
      currentTransactions := [];
      new;
      var genesisHashed := HashBlock(crypto, Text(GenesisPlaceholder));
      var nonce := ProofOfWork(crypto, 0, genesisHashed, []);
      var _ := AppendBlock(nonce, Some(genesisHashed), now);
    }

    /** `last_block`: the final block, or None where Python raises `IndexError`. */
    function LastBlock(): Option<Block>
      reads this
    {
      if chain == [] then None else Some(chain[|chain| - 1])
    }

    /** `append_block`: build a block from the pool with index `len(chain) + 1`, empty the
        pool and push the block. The given `previous_hash` is used when truthy, the hash of
        the last block otherwise; with neither, Python raises and nothing changes. */
    method AppendBlock(nonce: nat, previousHash: Option<string>, now: real) returns (r: Option<Block>)
      modifies this
      ensures r == NewBlock(crypto, old(chain), old(currentTransactions), nonce, previousHash, now)
      ensures State() == Apply(crypto, old(State()), Call.AppendBlock(nonce, previousHash, now))
      ensures r.Some? <==> Truthy(previousHash) || old(chain) != []
      ensures r.None? ==> chain == old(chain) && currentTransactions == old(currentTransactions)
      ensures r.Some? ==> chain == old(chain) + [r.value] && currentTransactions == []
      ensures r.Some? ==> r.value.index == |old(chain)| + 1 && r.value.transactions == old(currentTransactions)
      ensures r.Some? ==> r.value.nonce == nonce && r.value.timestamp == now
      ensures Truthy(previousHash) ==> r.Some? && r.value.previousHash == previousHash.value
      ensures !Truthy(previousHash) && old(chain) != [] ==>
                r.Some? && r.value.previousHash == HashBlock(crypto, BlockRecord(old(chain)[|old(chain)| - 1]))
      ensures old(IndexedByPosition(chain)) ==> IndexedByPosition(chain)
    {
      var h: string;
      if Truthy(previousHash) {
        h := previousHash.value;
      } else if chain == [] {
        return None;
      } else {
        h := HashBlock(crypto, BlockRecord(chain[|chain| - 1]));
      }
      var block := Block(|chain| + 1, now, currentTransactions, nonce, h);
      currentTransactions := [];
      chain := chain + [block];
      r := Some(block);
    }

    /** `add_transaction`: queue the record, then report `last_block.index + 1`. On an
        empty chain the record is queued before Python raises `IndexError` (None here). */
    method AddTransaction(sender: Json, recipient: Json, amount: Json) returns (r: Option<int>)
      modifies this
      ensures State() == Apply(crypto, old(State()), Call.AddTransaction(Transaction(sender, recipient, amount)))
      ensures chain == old(chain)
      ensures currentTransactions == old(currentTransactions) + [Transaction(sender, recipient, amount)]
      ensures r.Some? <==> chain != []
      ensures r.Some? ==> r.value == chain[|chain| - 1].index + 1
      ensures old(Valid()) ==> Valid() && r == Some(|chain| + 1)
    {
      currentTransactions := currentTransactions + [Transaction(sender, recipient, amount)];
      var last := LastBlock();
      if last.None? {
        return None;
      }
      r := Some(last.value.index + 1);
    }
  }
}
