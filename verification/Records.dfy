/** The records the name database stores, and the protocol constants they depend on. */
module Records {
  import opened Bytes

  type Name = Bytes
  const HASH_SIZE: int := 32

  /** A transaction hash. */
  type Hash = b: Bytes | |b| == HASH_SIZE witness seq(HASH_SIZE, _ => 0 as byte)

  type Height = Int32

  const NAME_EXPIRATION_BLOCKS: int := 36000
  const MIN_BLOCKS_BEFORE_FIRST_UPDATE: int := 12
  const MAX_BLOCKS_BEFORE_FIRST_UPDATE: int := 36000
  const MAX_NAME_LENGTH: int := 255
  const MAX_VALUE_LENGTH: int := 520
  const DUST_LIMIT: int := 546
  const MIN_NAME_OPERATION_FEE: int := 1000000
  const MIN_RELAY_TX_FEE: int := 1000
  const RETENTION_DEPTH: int := 1000

  /** The longest key of the key/value store. */
  const MAX_KEY_SIZE: int := 32768

  datatype Option<+T> = None | Some(value: T)

  /** A name record.  The name itself is the key under which the record is stored. */
  datatype Record = Record(
    value: Bytes, txHash: Hash, outIndex: Uint32, height: Height, expiresAt: Height,
    address: Bytes, updatedAt: int, nameNewHeight: Height)

  /** The kinds of name operation. */
  datatype OpType = NameNew | NameFirstUpdate | NameUpdate

  datatype OutPoint = OutPoint(tx: Hash, index: Uint32)

  /** An unspent output.  Its transaction hash and index are the key under which it is stored. */
  datatype Utxo = Utxo(value: int, address: Bytes, script: Bytes, height: Height)

  /** A height-keyed index entry about a name. */
  datatype HeightName = HeightName(height: Height, name: Name)

  /** A height-keyed index entry about a spent output. */
  datatype HeightOut = HeightOut(height: Height, op: OutPoint)

  /** An address-index entry. */
  datatype AddressOut = AddressOut(address: Bytes, op: OutPoint)

  /** Expiration height of a name written at the given height, saturating at the int32 maximum. */
  function SafeCalcExpiresAt(height: Height): Height {
    if height > MAX_INT32 - NAME_EXPIRATION_BLOCKS then MAX_INT32 else height + NAME_EXPIRATION_BLOCKS
  }

  /** A UTXO the bucket can hold: a longer address or script is an encoding error. */
  predicate Encodable(x: Utxo) {
    |x.address| <= 255 && |x.script| <= 65535
  }
}
