# Proof-of-work ledger, modelled in Dafny

This project models the `Blockchain` ledger of a small Flask proof-of-work node
(`app.py`). The ledger keeps two pieces of state: `chain`, an append-only list of
block records, and `current_transactions`, the pool of pending transactions.
It has four operations:

- construction, which appends the genesis block;
- `append_block`, which turns the pool into a block and empties it;
- `add_transaction`, which queues a transaction;
- `proof_of_work`, which searches nonces over the `valid_proof` predicate.

Two route handlers drive the ledger, and their ledger steps are modelled too:

- `mine_block` queues a reward, searches a nonce and appends the block;
- `new_transactions` rejects a request that lacks a required field.

Layout:

- `wrappers.dfy` (`Wrappers`): the `Option` datatype, used where Python raises `IndexError`.
- `records.dfy` (`Records`): JSON values, transactions, blocks, and what `hash_block` is applied to.
- `primitives.dfy` (`Primitives`): the foreign functions as a `Crypto` value, plus Python's `str(int)` and `s[:k]`.
- `ledger.dfy` (`Ledger`): hashing, `valid_proof`, `proof_of_work` and the `Blockchain` class.
  It also holds a value-level semantics of calls (`Apply`, `Run`) that the class methods are proved against.
- `node.dfy` (`Node`): the ledger steps of `mine_block` and `new_transactions`.

SHA-256, `json.dumps(..., sort_keys=True)` and the `repr` of the pending list are foreign library calls.
They are uninterpreted: the three fields of a `Crypto` value given to the constructor.
`Ledger.HashBlock` is `sha256Hex(jsonDumps(x))`, as `hash_block` is (app.py:20-22).
All properties hold for every choice of these functions.

Proved invariants of the ledger:

- block `i` has index `i + 1`;
- the chain only grows at its end;
- a successful append empties the pool into the new block;
- no transaction is lost, duplicated or reordered;
- a chain built by construction and mining is hash-linked, and each block records the least valid nonce for its position.

## Numbering and other behaviour of the code

A common convention for such ledgers numbers blocks from 0, so a block's index is its position.
It also has `add_transaction` return the current chain length.
This code does otherwise, and the model follows the code:

- `append_block` gives the new block index `len(chain) + 1`, so the genesis block has index 1.
- `add_transaction` returns `last_block.index + 1`, which is `len(chain) + 1`.
  Submitting to a ledger holding only the genesis block returns 2.
- `mine_block` searches the proof of work with index `len(chain)`, but the block it appends gets `len(chain) + 1`.
  So a mined block at position `i` satisfies `valid_proof` for index `i`, which is its own `index - 1`.
  `Ledger.Mined` states this.
- `mine_block` queues the reward through `add_transaction`, which appends to the pool.
  So the reward is the last transaction of a mined block, after everything submitted before it.
- Ledgers of this kind usually also validate chains and adopt the longest valid chain of their peers.
  This code does neither, so neither is modelled.

## Model

| member | source | states |
|---|---|---|
| Primitives.Decimal | app.py:32 | the f-string rendering of a non-negative int is a non-empty string of decimal digits, with a leading `0` only for zero |
| Primitives.DecimalRoundTrip | app.py:32 | reading the rendered digits back gives the original number |
| Primitives.DecimalInjective | app.py:32 | two numbers with the same rendering are equal |
| Primitives.SlicePrefix | app.py:34 | Python's `s[:k]` is a prefix of `s` of length at most `k`, and is all of `s` when shorter than `k` |
| Ledger.HashBlock | app.py:20-22 | `hash_block` is SHA-256 of the sorted-key JSON text of its argument; both are uninterpreted, so this is its definition and it has no contract |
| Ledger.GenesisHash | app.py:16 | the genesis block's predecessor hash is `hash_block` of the string `'genesis_block'`; a definition with no contract |
| Ledger.Guess | app.py:32 | the f-string guess text, as a definition; its ensures give that it starts with the rendered index, ends with the rendered nonce, and has the length of the four parts together |
| Ledger.ValidProof | app.py:31-34 | `valid_proof` holds exactly when the digest of the guess string starts with the difficulty target `"0000"` (app.py:10) |
| Ledger.GuessInjectiveInNonce | app.py:24-33 | two nonces giving the same guess string for the same index, hash and transactions are equal, so the search never hashes one text twice |
| Ledger.ProofOfWork | app.py:24-29 | the returned nonce is valid and no smaller nonce is; the search starts at 0 and steps by 1 |
| Ledger.Truthy | app.py:42 | Python's truthiness of `previous_hash` (present and non-empty), as a definition with no contract; the choice the `or` makes is stated by NewBlock and AppendBlock |
| Ledger.NewBlock | app.py:37-43 | the block built has index `len(chain) + 1`, the pool as its transactions, the given nonce and time; its `previous_hash` is the argument when truthy, else the hash of the last block; with neither there is no block (Python raises `IndexError`) |
| Ledger.RunExtendsChain | app.py:36-55 | after any sequence of `add_transaction` and `append_block` calls, the old chain is a prefix of the new one: earlier blocks never change |
| Ledger.RunKeepsIndexing | app.py:36-55 | any sequence of calls keeps block `i` at index `i + 1` |
| Ledger.ApplyRecords | app.py:36-55 | one call adds exactly the transaction it submits, if any, to the mined transactions followed by the pool |
| Ledger.RunRecordsEverySubmission | app.py:36-55 | after any sequence of calls, the mined transactions followed by the pool are the earlier ones followed by everything submitted, in order |
| Ledger.MinedExtends | app.py:83-86 | appending a block that links to the last block's hash and carries the least valid nonce for index `len(chain)` keeps a mined chain mined |
| Ledger.Blockchain.constructor | app.py:12-18 | the new ledger holds one block: index 1, no transactions, `previous_hash` = hash of `'genesis_block'`, nonce = least valid nonce for index 0, that hash and `[]`; the pool is empty; the chain is mined |
| Ledger.Blockchain.LastBlock | app.py:57-59 | `last_block` as a definition with no contract: the final block, or None where Python raises `IndexError`; what callers rely on is stated by AddTransaction and MineBlock |
| Ledger.Blockchain.AppendBlock | app.py:36-47 | the chain grows by exactly the returned block; its index is `len(chain) + 1`; its transactions are the old pool; the pool is then empty; `previous_hash` is the argument when truthy, else the hash of the old last block; with neither, nothing changes; indexing is preserved |
| Ledger.Blockchain.AddTransaction | app.py:49-55 | exactly one `{sender, recipient, amount}` record is appended to the pool and the chain is unchanged; the result is `last_block.index + 1`, which on a valid ledger is `len(chain) + 1` |
| Node.RewardTransaction | app.py:77-81 | the reward record (sender `"0"`, this node, amount 1) as a definition with no contract; MineBlock states where it ends up |
| Node.HasRequiredFields | app.py:102-103 | the check passes exactly when `sender`, `recipient` and `amount` are all present |
| Node.NewTransactions | app.py:98-110 | a request missing a required field is rejected and leaves chain and pool unchanged; otherwise the record is queued and `len(chain) + 1` is reported |
| Node.MineBlock | app.py:75-86 | the reward (sender `"0"`, this node, amount 1) is queued, then one block is appended; it links to the hash of the old last block, its transactions are the old pool plus the reward, and its nonce is the least valid one for index `len(chain)`; the pool is empty afterwards and a mined chain stays mined |

## Left out

- The Flask app, `full_chain`, `jsonify`, HTTP status codes, `app.run` and port parsing (app.py:61-73, app.py:88-96, app.py:112-119) are I/O plumbing and are not modelled.
- SHA-256, `json.dumps` and Python's `repr` of the pool are uninterpreted functions, so nothing about the cryptography is proved.
- The clock reading `time()` and the node identifier from `uuid4()` are parameters (`now`, `nodeIdentifier`).
- ProofOfWork: requires that some valid nonce exists. That is exactly when the Python loop returns; the model does not capture the run that never ends.
- Blockchain.constructor: requires a valid genesis nonce to exist, for the same reason as ProofOfWork. It also requires a non-empty genesis hash; a real SHA-256 hex digest is never empty, and with an empty one `append_block` would raise on the empty chain.
- MineBlock: requires a valid nonce to exist for the block being mined, for the same reason as ProofOfWork.
- NewTransactions: takes the request body as a decoded JSON object. A body that is not a JSON object is not modelled. For a list or a string the code's own check tests elements or substrings, and the request either gets the 400 "Missing fields" answer or raises `TypeError` at `values['sender']`. For `null`, a number or a boolean, `'sender' in values` itself raises `TypeError`. In every case no record reaches `add_transaction`, so the ledger is unchanged.
- Python shares the pool list with the block it is put in. The pool is rebound to a new list right after, so no later change reaches the block, and value semantics lose nothing.
- Overlapping requests are not modelled. `app.run` serves each request on its own thread, so a `new_transactions` call can append to the pool while `mine_block` is searching a nonce over that same list. The block can then carry a nonce that is not the least valid one, or not valid at all, for its final transactions. The model assumes calls do not overlap; `Mined` and MineBlock's nonce guarantee hold only under that assumption.
- Floats in JSON values are exact reals. Python floats are IEEE doubles, so their rounding is not modelled, and `-0.0` and `0.0` are one value here although `repr` and `json.dumps` print them differently. A run that submits both cannot be matched by any `reprTransactions` or `jsonDumps`.
- Strings are Dafny strings, which cannot hold a lone UTF-16 surrogate. `json.loads` accepts one (`"\ud800"`) in a sender, recipient, amount or object key; such a request is not modelled.
- Chain validation, peer registration and consensus do not exist in this code and are not modelled.
