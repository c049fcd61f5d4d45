/** The ledger steps of the node's two state-changing routes: mining a block and
    submitting a transaction. The HTTP layer around them is not modelled; the node
    identifier and the clock reading are parameters. */
module Node {
  import opened Wrappers
  import opened Records
  import opened Primitives
  import opened Ledger

  /** The fields a submitted transaction must carry. */
  const RequiredFields: seq<string> := ["sender", "recipient", "amount"]

  /** The mining reward: from the system sender "0" to this node, amount 1. */
  function RewardTransaction(nodeIdentifier: string): Transaction
  {
    Transaction(JString("0"), JString(nodeIdentifier), JInt(1))
  }

  /** The `all(k in values for k in required_fields)` check of `new_transactions`. The
      request body is taken as the decoded dict; only key presence and lookup matter here. */
  predicate HasRequiredFields(values: map<string, Json>)
    ensures HasRequiredFields(values) <==> "sender" in values && "recipient" in values && "amount" in values
  {
    forall k :: k in RequiredFields ==> k in values
  }

  /** What `new_transactions` answers: a rejection, or the block the record will land in. */
  datatype Response = MissingFields | WillBeAddedInto(index: int)

  /** `new_transactions`: reject a request lacking a required field without touching the
      ledger; otherwise queue the record and report `len(chain) + 1`. */
  method NewTransactions(ledger: Blockchain, values: map<string, Json>) returns (r: Response)
    requires ledger.Valid()
    modifies ledger
    ensures ledger.Valid()
    ensures r.MissingFields? <==> !HasRequiredFields(values)
    ensures ledger.chain == old(ledger.chain)
    ensures r.MissingFields? ==> ledger.currentTransactions == old(ledger.currentTransactions)
    ensures r.WillBeAddedInto? ==>
              r.index == |ledger.chain| + 1 &&
              ledger.currentTransactions ==
                old(ledger.currentTransactions) + [Transaction(values["sender"], values["recipient"], values["amount"])]
  {
    if !HasRequiredFields(values) {
      return MissingFields;
    }
    var index := ledger.AddTransaction(values["sender"], values["recipient"], values["amount"]);
    r := WillBeAddedInto(index.value);
  }

  /** `mine_block`: queue the reward, hash the last block, search the proof of work for
      index `len(chain)` (one less than the index the block will get), and append the
      block with that hash as its `previous_hash`. The search returns only when a valid
      nonce exists, which the second precondition states. */
  method MineBlock(ledger: Blockchain, nodeIdentifier: string, now: real) returns (block: Block)
    requires ledger.Valid()
    requires Solvable(ledger.crypto, |ledger.chain|,
                      HashBlock(ledger.crypto, BlockRecord(ledger.chain[|ledger.chain| - 1])),
                      ledger.currentTransactions + [RewardTransaction(nodeIdentifier)])
    modifies ledger
    ensures ledger.Valid()
    ensures ledger.chain == old(ledger.chain) + [block]
    ensures ledger.currentTransactions == []
    ensures block.index == |old(ledger.chain)| + 1
    ensures block.timestamp == now
    ensures block.previousHash == HashBlock(ledger.crypto, BlockRecord(old(ledger.chain)[|old(ledger.chain)| - 1]))
    ensures block.transactions == old(ledger.currentTransactions) + [RewardTransaction(nodeIdentifier)]
    ensures IsLeastValidNonce(ledger.crypto, |old(ledger.chain)|, block.previousHash, block.transactions, block.nonce)
    ensures ledger.State() ==
              Run(ledger.crypto, old(ledger.State()),
                  [Call.AddTransaction(RewardTransaction(nodeIdentifier)),
                   Call.AppendBlock(block.nonce, Some(block.previousHash), now)])
    ensures old(Mined(ledger.crypto, ledger.chain)) ==> Mined(ledger.crypto, ledger.chain)
  {
    ghost var s0 := ledger.State();
    var reward := RewardTransaction(nodeIdentifier);
    var _ := ledger.AddTransaction(reward.sender, reward.recipient, reward.amount);
    ghost var s1 := ledger.State();
    var last := ledger.LastBlock();
    var lastBlockHash := HashBlock(ledger.crypto, BlockRecord(last.value));
    var index := |ledger.chain|;
    var nonce := ProofOfWork(ledger.crypto, index, lastBlockHash, ledger.currentTransactions);
    var appended := ledger.AppendBlock(nonce, Some(lastBlockHash), now);
    block := appended.value;
    ghost var add := Call.AddTransaction(reward);
    ghost var append := Call.AppendBlock(nonce, Some(lastBlockHash), now);
    assert s1 == Apply(ledger.crypto, s0, add);
    assert ledger.State() == Apply(ledger.crypto, s1, append);
    assert [add, append][1..] == [append];
    assert block.previousHash == lastBlockHash && block.nonce == nonce;
    assert [append][1..] == [];
    assert Run(ledger.crypto, s1, [append]) == ledger.State();
    assert Run(ledger.crypto, s0, [add, append]) == Run(ledger.crypto, s1, [append]);
    if Mined(ledger.crypto, old(ledger.chain)) {
      MinedExtends(ledger.crypto, old(ledger.chain), block);
    }
  }
}
