/** The headers a fresh store starts from. */
module Checkpoints {
  import opened Headers
  import opened Compact
  import opened Difficulty

  datatype Checkpoint = Checkpoint(height: uint32, header: Header)

  datatype Network = MainNet | TestNet3 | Other

  const MAINNET_CHECKPOINTS: seq<Checkpoint> := [
    Checkpoint(473760, Header(536870914,
      0x000000000000000001389446206ebcd378c32cd00b4920a8a1ba7b540ca7d699,
      0xddc4fede55aeebe6e3bfd3292145b011a4f16ead187ed90d7df0fd4c020b6ab6,
      1498956437, 402754864, 134883004)),
    Checkpoint(483840, Header(536870912,
      0x000000000000000000d0ad638ad61e7c4c3113618b8b26b2044347c00c042278,
      0x87b940030e48d97625b923c3ebc0626c2cb1123b78135380306eb6dcfd50703c,
      1504704195, 402731275, 1775134070)),
    Checkpoint(536256, Header(536870912,
      0x00000000000000000000943de85f4495f053ff55f27d135edc61c27990c2eec5,
      0x167bf70981d49388d07881b1a448ff9b79cf2a32716e45c535345823d8cdd541,
      1533980459, 388763047, 1545867530))
  ]

  const TESTNET3_CHECKPOINTS: seq<Checkpoint> := [
    Checkpoint(1151136, Header(536870912,
      0x0000000000001e8cdb2d98471a5c60bdbddbe644b9ad08e17a97b3a7dce1e332,
      0xf675c565b293be2ad808b01b0a763557c8874e4aefe7f2eea0dab91b1f60ec45,
      1498950206, 436724869, 2247874206)),
    Checkpoint(1276128, Header(536870912,
      0x000000000003e8e7755d9b8299b28c71d9f0e18909f25bc9f3eeec3464ece1dd,
      0x7b91fe22059063bcbb1cfac6fd376cf459f4387d1bc1989989252495b06b52be,
      1517822323, 453210804, 2456211891)),
    Checkpoint(1382976, Header(536870912,
      0x000000000000006d4025181f5b54cca6d730cc26313817c6529ba9ed62cc83b3,
      0x67b8699931cc1f02e7593b0a504f406b0be1bf29cb66b41455ea7b26d4043937,
      1533934105, 425273147, 1715685244))
  ]

  /** The built-in checkpoints of a network; any other network starts from its genesis header alone. */
  function Candidates(network: Network, genesis: Header): seq<Checkpoint> {
    match network
    case MainNet => MAINNET_CHECKPOINTS
    case TestNet3 => TESTNET3_CHECKPOINTS
    case Other => [Checkpoint(0, genesis)]
  }

  /** The latest checkpoint made before the given date, or the earliest one. */
  method GetCheckpoint(date: int, network: Network, genesis: Header) returns (r: Checkpoint)
    ensures var all := Candidates(network, genesis);
      if exists c :: c in all && c.header.time < date then
        r in all && r.header.time < date && forall c | c in all && c.header.time < date :: c.height <= r.height
      else
        r in all && forall c | c in all :: r.height <= c.height
    ensures network.MainNet? ==> r in MAINNET_CHECKPOINTS
    ensures network.TestNet3? ==> r in TESTNET3_CHECKPOINTS
    ensures network.Other? ==> r == Checkpoint(0, genesis)
    ensures r.height % EPOCH_LENGTH == 0
  {
    var all := Candidates(network, genesis);
    if network.Other? {
      return all[0];
    }
    var i := |all| - 1;
    while i >= 0
      invariant -1 <= i < |all|
      invariant forall j | i < j < |all| :: all[j].header.time >= date
    {
      if date > all[i].header.time {
        return all[i];
      }
      i := i - 1;
    }
    return all[0];
  }

  /** The proof-of-work limit of the main and test networks. */
  const POW_LIMIT := 0x1_0000_0000_0000_0000_0000_0000_0000_0000_0000_0000_0000_0000_0000_0000 - 1

  /** Every built-in checkpoint opens an epoch and carries a target the network allows. */
  lemma CheckpointsOpenEpochs(c: Checkpoint)
    requires c in MAINNET_CHECKPOINTS || c in TESTNET3_CHECKPOINTS
    ensures c.height % EPOCH_LENGTH == 0
    ensures 0 < CompactToBig(c.header.bits) <= POW_LIMIT
  {
    hide CompactToBig;
    assert PlainBits(402754864) && PlainBits(402731275) && PlainBits(388763047);
    assert PlainBits(436724869) && PlainBits(453210804) && PlainBits(425273147);
    TargetBelowLimit(c.header.bits);
  }

  /** A positive mantissa, and an exponent of 23 to 27 bytes. */
  predicate PlainBits(bits: uint32) {
    23 <= bits / 0x100_0000 <= 27 && bits / 0x80_0000 % 2 == 0 && bits % 0x80_0000 > 0
  }

  lemma TargetBelowLimit(bits: uint32)
    requires PlainBits(bits)
    ensures 0 < CompactToBig(bits) <= POW_LIMIT
  {
    ShiftLeftBound(bits % 0x80_0000, bits / 0x100_0000 - 3);
  }

  lemma {:induction false} ShiftLeftBound(m: nat, k: nat)
    requires 0 < m < 0x80_0000 && k <= 24
    ensures 0 < ShiftLeft(m, k) < 0x80_0000 * ShiftLeft(1, k)
    ensures ShiftLeft(1, k) <= 0x1_0000_0000_0000_0000_0000_0000_0000_0000_0000_0000_0000_0000
  {
    assert ShiftLeft(1, 8) == 0x1_0000_0000_0000_0000;
    assert ShiftLeft(1, 16) == 0x1_0000_0000_0000_0000_0000_0000_0000_0000;
    assert ShiftLeft(1, 24) == 0x1_0000_0000_0000_0000_0000_0000_0000_0000_0000_0000_0000_0000;
    if k > 0 {
      ShiftLeftBound(m, k - 1);
    }
  }
}
