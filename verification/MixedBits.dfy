/** Short runs over headers that differ in difficulty, and what they show the code does not guarantee. */
module MixedBits {
  import opened Headers
  import opened Compact
  import opened Difficulty
  import opened ForkChoice
  import opened Rollback
  import opened Runs

  /** Parts of 2^256, the work a target of 0 would take. */
  const HALF := 0x8000_0000_0000_0000_0000_0000_0000_0000_0000_0000_0000_0000_0000_0000_0000_0000
  const THIRD := 0x5555_5555_5555_5555_5555_5555_5555_5555_5555_5555_5555_5555_5555_5555_5555_5555
  const QUARTER := 0x4000_0000_0000_0000_0000_0000_0000_0000_0000_0000_0000_0000_0000_0000_0000_0000

  lemma SampleWork()
    ensures CompactToBig(0x300_0001) == 1 && CalcWork(0x300_0001) == HALF
    ensures CompactToBig(0x300_0002) == 2 && CalcWork(0x300_0002) == THIRD
    ensures CompactToBig(0x300_0003) == 3 && CalcWork(0x300_0003) == QUARTER
  {
  }

  function SampleParams(): Params {
    Params((h: Header) => h.nonce, 3, 0x300_0003, true)
  }

  /** Header `nonce` of target 3, above the header of the given hash. */
  function Easy(prev: Hash, time: int, nonce: uint32): Header {
    Header(1, prev, 0, time, 0x300_0003, nonce)
  }

  const SAMPLE := Start(Easy(9, 0, 0), 0, SampleParams())

  /** A side branch of one header with the given bits, then a main branch of two easier headers. */
  function ForkHeaders(bits: uint32): seq<Header> {
    [Header(1, 0, 0, 1, bits, 1), Easy(0, 1, 2), Easy(2, 5, 3)]
  }

  function Fork(bits: uint32): Bucket {
    map[0 := StoredHeader(Easy(9, 0, 0), 0, 0),
        1 := StoredHeader(Header(1, 0, 0, 1, bits, 1), 1, CalcWork(bits)),
        2 := StoredHeader(Easy(0, 1, 2), 1, QUARTER),
        3 := StoredHeader(Easy(2, 5, 3), 2, HALF)]
  }

  /** Without the difficulty rule a header above a stored one is stored if it has proof of work. */
  lemma EasyCommit(c: Chain, root: Hash, p: Params, header: Header)
    requires Valid(c, root, p) && HasRoom(c.headers) && p.reduceMinDifficulty
    requires header.prev in c.headers && CheckProofOfWork(header, p) && p.hash(header) != p.hash(c.tip.header)
    ensures var sh := Extension(c.headers, header);
      Commit(c, root, p, header) == Chain(c.headers[p.hash(header) := sh], if sh.work > c.tip.work then sh else c.tip)
  {
    hide RequiredBits, CheckProofOfWork, CalcWork;
    assert Entry(c.headers, root, p, header.prev);
  }

  lemma SampleInput(hs: seq<Header>)
    requires |hs| <= 3 && forall h | h in hs :: h.prev < 3
    requires forall i | 0 <= i < |hs| :: hs[i].nonce == i + 1
    ensures RunInput(SAMPLE, hs)
  {
    SampleWork();
    forall g, h {:trigger NoClash(SAMPLE.p, g, h)} | g in [SAMPLE.checkpoint] + hs && h in [SAMPLE.checkpoint] + hs
      ensures NoClash(SAMPLE.p, g, h)
    {
    }
  }

  /** The run over the fork ends with it, and with whichever branch is heavier as the tip. */
  lemma ForkRun(bits: uint32)
    requires 0 < CompactToBig(bits) <= 3 && QUARTER <= CalcWork(bits)
    ensures RunInput(SAMPLE, ForkHeaders(bits))
    ensures Run(SAMPLE, ForkHeaders(bits)) == Chain(Fork(bits), Fork(bits)[if HALF > CalcWork(bits) then 3 else 1])
  {
    hide CompactToBig, CalcWork, RunInput, Commit, Valid;
    SampleWork();
    var hs := ForkHeaders(bits);
    SampleInput(hs);
    var c0 := Run(SAMPLE, []);
    assert hs == [] + [hs[0]] + [hs[1]] + [hs[2]] && [] + [hs[0]] == [hs[0]] && [hs[0]] + [hs[1]] == hs[..2];
    RunNext(SAMPLE, hs[..2], hs[2]);
    RunNext(SAMPLE, [hs[0]], hs[1]);
    RunNext(SAMPLE, [], hs[0]);
    EasyCommit(c0, 0, SAMPLE.p, hs[0]);
    var c1 := Run(SAMPLE, [hs[0]]);
    EasyCommit(c1, 0, SAMPLE.p, hs[1]);
    var c2 := Run(SAMPLE, hs[..2]);
    EasyCommit(c2, 0, SAMPLE.p, hs[2]);
    assert Run(SAMPLE, hs).headers == Fork(bits);
  }

  /** The tip need not be the longest chain: one header may outweigh a longer branch. */
  lemma HeaviestNeedNotBeLongest() returns (hs: seq<Header>)
    ensures RunInput(SAMPLE, hs)
    ensures var c := Run(SAMPLE, hs); exists k | k in c.headers :: c.headers[k].height > c.tip.height
  {
    SampleWork();
    ForkRun(0x300_0001);
    hs := ForkHeaders(0x300_0001);
    assert Run(SAMPLE, hs).headers[3].height > Run(SAMPLE, hs).tip.height;
  }

  /** A rollback need not keep the tip maximal: stopping at header 2 leaves the side branch outweighing it. */
  lemma RollbackCanLoseMaximality() returns (hs: seq<Header>, t: int, checkpoint: Hash)
    ensures RunInput(SAMPLE, hs) && TipMaximal(Run(SAMPLE, hs))
    ensures !TipMaximal(StepOp(Run(SAMPLE, hs), SAMPLE.Root(), SAMPLE.p, RollbackOp(t, checkpoint)))
  {
    SampleWork();
    ForkRun(0x300_0002);
    hs, t, checkpoint := ForkHeaders(0x300_0002), 2, 9;
    RunReaches(SAMPLE, hs);
    var s := Fork(0x300_0002);
    assert StopAt(s, SAMPLE.p, s[3], t, checkpoint) == StopAt(s, SAMPLE.p, s[2], t, checkpoint) == Some(s[2]);
    var c' := RolledBack(Chain(s, s[3]), 0, SAMPLE.p, t, checkpoint);
    assert s[2].height == 1 && s[1].height == 1;
    assert 1 in c'.headers && c'.headers[1].work == THIRD && c'.tip.work == QUARTER;
  }
}
