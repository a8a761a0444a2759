/** The ledger vocabulary shared by the flow and the vault: hashes, state references and consumption details. */
module Ledger {

  /** A transaction id or a public-key hash. The digest itself is opaque to every operation modelled here. */
  datatype SecureHash = SecureHash(digest: nat)

  /** One output of one transaction: the pair (transaction id, output index). Equality is by value. */
  datatype StateRef = StateRef(txhash: SecureHash, index: nat)

  /** How a conflicting transaction used a state: spent it as an input, or only read it as a reference input. */
  datatype ConsumedStateType = INPUT_STATE | REFERENCE_INPUT_STATE

  /** What the notary reports about one conflicting state: the consuming transaction and the kind of use. */
  datatype StateConsumptionDetails = StateConsumptionDetails(hashOfTransactionId: SecureHash, consumedType: ConsumedStateType)

  /** A point in time, as the vault records a state's consumption time. */
  datatype Instant = Instant(epochMillis: int)
}
