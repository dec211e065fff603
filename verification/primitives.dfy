/**
 * The ledger values the transaction builder produces and consumes: the Babbage-era
 * primitives (`pallas_primitives::babbage`) and the crate's own `Transaction` record.
 * Only their shape matters here; the CBOR encoding is an external collaborator.
 */
module Primitives {
  import opened Wrappers

  type Byte = x: int | 0 <= x < 0x100
  type U64 = x: int | 0 <= x < 0x1_0000_0000_0000_0000
  type I64 = x: int | -0x8000_0000_0000_0000 <= x < 0x8000_0000_0000_0000

  type Bytes = seq<Byte>
  type Hash28 = s: Bytes | |s| == 28 witness seq(28, i => 0)
  type Hash32 = s: Bytes | |s| == 32 witness seq(32, i => 0)

  type PolicyId = Hash28
  type AddrKeyhash = Hash28
  type AssetName = Bytes

  datatype TransactionInput = TransactionInput(transactionId: Hash32, index: U64)

  /** An output as the resolution strategy hands it over; the builder never looks inside. */
  datatype TransactionOutput = TransactionOutput(encoded: Bytes)

  /** A certificate as the caller hands it over; the builder never looks inside. */
  datatype Certificate = Certificate(encoded: Bytes)

  datatype NetworkId = One | Two

  /** The wire form of a multi-asset value: policy -> (asset name -> amount) as pair lists. */
  type Multiasset<T> = seq<(PolicyId, seq<(AssetName, T)>)>

  /**
   * Babbage transaction body. Fields the builder never populates (withdrawals,
   * update proposals, hashes, ...) are typed by their encoded bytes.
   */
  datatype TransactionBody = TransactionBody(
    inputs: seq<TransactionInput>,
    outputs: seq<TransactionOutput>,
    fee: U64,
    ttl: Option<U64>,
    certificates: Option<seq<Certificate>>,
    withdrawals: Option<map<Bytes, U64>>,
    update: Option<Bytes>,
    auxiliaryDataHash: Option<Hash32>,
    validityIntervalStart: Option<U64>,
    mint: Option<Multiasset<I64>>,
    scriptDataHash: Option<Hash32>,
    collateral: Option<seq<TransactionInput>>,
    requiredSigners: Option<seq<AddrKeyhash>>,
    networkId: Option<NetworkId>,
    collateralReturn: Option<TransactionOutput>,
    totalCollateral: Option<U64>,
    referenceInputs: Option<seq<TransactionInput>>)

  /** Babbage witness set; each entry is kept as its encoded bytes. */
  datatype WitnessSet = WitnessSet(
    vkeywitness: Option<seq<Bytes>>,
    nativeScript: Option<seq<Bytes>>,
    bootstrapWitness: Option<seq<Bytes>>,
    plutusV1Script: Option<seq<Bytes>>,
    plutusData: Option<seq<Bytes>>,
    redeemer: Option<seq<Bytes>>,
    plutusV2Script: Option<seq<Bytes>>)

  datatype Transaction = Transaction(
    body: TransactionBody,
    witnessSet: WitnessSet,
    isValid: bool,
    auxiliaryData: Option<Bytes>)

  /** The same transaction with only its body's fee replaced. */
  function WithFee(tx: Transaction, fee: U64): Transaction
  {
    tx.(body := tx.body.(fee := fee))
  }
}
