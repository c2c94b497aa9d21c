/** The ledger values the transaction builder works with. */
module Ledger {
  import opened Wrappers

  type Bytes = seq<bv8>

  /** Go's uint16. */
  type Uint16 = x: int | 0 <= x < 0x1_0000

  /** Go's conversion `uint16(n)` of a non-negative int: it keeps the low 16 bits. */
  function ToUint16(n: nat): (u: Uint16)
    ensures n < 0x1_0000 ==> u == n
  {
    n % 0x1_0000
  }

  /** Identifies an output: the transaction that created it and its index there. */
  datatype OutputId = OutputId(transactionId: Bytes, outputIndex: Uint16)

  /** A reference to an unspent output, used as a transaction input. */
  datatype UtxoInput = UtxoInput(transactionId: Bytes, transactionOutputIndex: Uint16) {
    function Id(): OutputId {
      OutputId(transactionId, transactionOutputIndex)
    }
  }

  /** The errors the builder produces or passes on. */
  datatype Error =
    | UnsupportedAddress        // only Ed25519 addresses can be queried for inputs
    | MissingParameters         // Build was given no de/serialization parameters
    | MissingSigner             // Build was given no signer
    | External(reason: string)  // an error returned by a collaborator, passed on unchanged

  /** Authorizes the input at the same position: a signature, or the position of an earlier signature. */
  datatype UnlockBlock<S> =
    | SignatureUnlockBlock(signature: S)
    | ReferenceUnlockBlock(reference: Uint16)

  /** The signed content of a transaction: inputs and outputs in insertion order, and an optional payload. */
  datatype TransactionEssence<O, P> = TransactionEssence(inputs: seq<UtxoInput>, outputs: seq<O>, payload: Option<P>)

  datatype Transaction<O, P, S> = Transaction(essence: TransactionEssence<O, P>, unlockBlocks: seq<UnlockBlock<S>>)

  /** Signs a message for an address, or fails. */
  type Signer<!A, S> = (A, Bytes) -> Result<S, Error>
}
