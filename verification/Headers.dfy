/** Block headers as the wire format and the header store see them. */
module Headers {
  const TWO_31 := 0x8000_0000
  const TWO_32 := 0x1_0000_0000
  const TWO_256 := 0x1_0000000000000000_0000000000000000_0000000000000000_0000000000000000

  type uint32 = n: nat | n < TWO_32

  /** A block hash, read as the 256-bit number that proof of work compares with a target. */
  type Hash = nat

  /** Whole-second timestamps, as they arrive from the wire. */
  datatype Header = Header(version: int, prev: Hash, merkleRoot: Hash, time: int, bits: uint32, nonce: uint32)

  datatype StoredHeader = StoredHeader(header: Header, height: uint32, work: nat)

  /** The network parameters the chain code reads, with the block hash as one more of them. */
  datatype Params = Params(hash: Header -> Hash, powLimit: nat, powLimitBits: uint32, reduceMinDifficulty: bool)

  type Bucket = map<Hash, StoredHeader>

  datatype Option<+T> = None | Some(value: T)
}
