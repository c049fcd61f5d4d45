/** The value records the ledger stores: JSON values as they arrive in a request,
    transactions, blocks, and the inputs of the block hash. */
module Records {

  /** A decoded JSON value; transaction fields hold whatever JSON value the client sent,
      within what this type can represent (strings are Dafny strings, floats exact reals).
      A float is a finite value or one of the non-finite constants `json.loads` accepts.
      An object is the decoded dict's items in insertion order, the order its `repr`
      prints them in. */
  datatype Json =
    | JNull
    | JBool(b: bool)
    | JInt(i: int)
    | JFloat(x: real)
    | JNaN
    | JInfinity(negative: bool)
    | JString(s: string)
    | JArray(items: seq<Json>)
    | JObject(members: seq<(string, Json)>)

  /** One `{sender, recipient, amount}` record of the pending pool or of a block. */
  datatype Transaction = Transaction(sender: Json, recipient: Json, amount: Json)

  /** A block record. `timestamp` is the clock reading taken when the block was built. */
  datatype Block = Block(
    index: int,
    timestamp: real,
    transactions: seq<Transaction>,
    nonce: nat,
    previousHash: string)

  /** What `hash_block` is applied to: a block record, or the plain string that
      stands in for the genesis block's predecessor. */
  datatype Hashable = Text(s: string) | BlockRecord(b: Block)
}
