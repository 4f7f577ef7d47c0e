/** The identifiers and hashes of the system as free datatypes.  A hash is the value it was computed
    from, so equal hashes have equal preimages and hashes with different prefixes never collide. */
module Types {

  import C = Currency

  datatype Option<+T> = None | Some(value: T)

  datatype Result<+T> = Ok(value: T) | Err

  type byte = x: int | 0 <= x < 256

  /** The Ed25519 and SLH-DSA public keys committed by a native address. */
  datatype Keys = Keys(classical: seq<byte>, reserve: seq<byte>)

  datatype Algorithm = Ed25519 | Entropy | Unknown

  datatype UnlockKey = UnlockKey(algorithm: Algorithm, key: seq<byte>)

  datatype UnlockConditions = UnlockConditions(timelock: nat, keys: seq<UnlockKey>, required: nat)

  datatype Policy =
    | Above(height: nat)
    | After(time: int)
    | PublicKey(key: seq<byte>)
    | Slhdsa(reserve: seq<byte>)
    | HashLock(digest: seq<byte>)
    | Threshold(n: nat, of: seq<Policy>)
    | Opaque(address: Address)
    | Legacy(conditions: UnlockConditions)

  /** The hash of an encoded policy, the legacy root of unlock conditions, or any other 32 bytes. */
  datatype Address = PolicyHash(policy: Policy) | UnlockRoot(root: UnlockConditions) | OtherAddress(tag: nat)

  datatype Output = Output(value: C.Currency, address: Address)

  /** A transaction ID commits the parents' IDs, the outputs, the arbitrary data and the fee. */
  datatype TxID = TxID(parents: seq<OutputID>, outputs: seq<Output>, data: seq<byte>, fee: C.Currency)

  datatype BlockID = NoBlock | BlockID(parent: BlockID, nonce: nat, timestamp: int, commitment: nat)

  datatype OutputID = TxOutput(tx: TxID, index: nat) | MinerOutput(block: BlockID, index: nat) | PremineOutput

  /** The contents of an accumulator leaf, apart from its position and spent flag. */
  datatype Element =
    | Siacoin(id: OutputID, output: Output, maturity: nat)
    | ChainIndex(height: nat, block: BlockID)

  /** RFC 6962 section 2.1: leaf and node hashes carry different prefixes. */
  datatype Hash =
    | LeafHash(element: Element, index: nat, spent: bool)
    | PairHash(left: Hash, right: Hash)
    | OtherHash(tag: nat)
}
