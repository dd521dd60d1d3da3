/** The parts of a Bitcoin transaction the admission logic looks at. The
    transaction library itself (script parsing, hashing, address encoding) is
    not part of this model: a script is given already split into chunks, or
    as None when it cannot be parsed. */
module Bitcoin {
  import opened Base

  /** Script opcodes of the Bitcoin script language used by the fee-marker
      check. */
  const OP_PUSHDATA4: int := 0x4e
  const OP_16: int := 0x60
  const OP_RETURN: int := 0x6a

  /** One element of a parsed script: an opcode and, for pushes, the pushed
      bytes (absent for opcodes that push no data). */
  datatype ScriptChunk = ScriptChunk(opcode: int, data: Option<seq<byte>>)
  {
    /** A chunk is an opcode when its code lies above the push range. */
    predicate IsOpCode() { opcode > OP_PUSHDATA4 }

    /** A chunk is a push when its code is at most OP_16. */
    predicate IsPushData() { opcode <= OP_16 }

    predicate EqualsOpCode(op: int) { opcode == op }
  }

  datatype OutPoint = OutPoint(hash: string, index: nat)

  datatype TxInput = TxInput(outpoint: OutPoint)

  /** An output: its value in satoshis and its locking script, None when the
      script bytes do not parse. */
  datatype TxOutput = TxOutput(value: int64, scriptPubKey: Option<seq<ScriptChunk>>)

  datatype Transaction = Transaction(txid: string, inputs: seq<TxInput>, outputs: seq<TxOutput>)

  /** A transaction as returned by the node's RPC, with its block time. */
  datatype RpcTransaction = RpcTransaction(tx: Transaction, txTime: int64)
}
