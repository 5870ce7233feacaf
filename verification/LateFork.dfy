/** A run of 2016 headers with difficulty checked, after which an adjustment for a second header at the top starts from
    the wrong header. */
module LateFork {
  import opened Arithmetic
  import opened Headers
  import opened Compact
  import opened Difficulty
  import opened HeaderTree
  import opened ForkChoice
  import opened Epochs
  import opened Runs

  const BITS := 0x0300_ffff
  const WORK := CalcWork(BITS)
  const WEEK := 7 * 24 * 60 * 60

  function LineParams(): Params {
    Params((h: Header) => h.merkleRoot, 0xffff, BITS, false)
  }

  /** Header i of a line, of hash i; the second comes a week after the first, the last of the epoch a week later. */
  function Line(i: nat): Header {
    Header(1, if i == 0 then 10000 else i - 1, i, if i == 0 then 0 else if i < 2015 then WEEK else 2 * WEEK, BITS, 0)
  }

  const LINE := Start(Line(0), 0, LineParams())

  function LineHeaders(n: nat): seq<Header> {
    seq(n, i requires 0 <= i < n => Line(i + 1))
  }

  function OnLine(i: nat): StoredHeader
    requires i < TWO_32
  {
    StoredHeader(Line(i), i, i * WORK)
  }

  function LineBucket(n: nat): Bucket
    requires n < TWO_32
  {
    map k: nat | 0 <= k <= n :: OnLine(k)
  }

  lemma LineBits()
    ensures CompactToBig(BITS) == 0xffff && BigToCompact(0xffff) == BITS && WORK >= 1
  {
    CalcWorkPositive(BITS);
    assert ByteLen(0xffff) == 2 && ShiftLeft(0xffff, 1) == 0xff_ff00;
  }

  lemma LineInput(n: nat)
    requires n <= 2016
    ensures RunInput(LINE, LineHeaders(n))
  {
    LineBits();
    var all := [LINE.checkpoint] + LineHeaders(n);
    assert forall i | 0 <= i < |all| :: all[i] == Line(i);
    forall g, h {:trigger NoClash(LINE.p, g, h)} | g in all && h in all ensures NoClash(LINE.p, g, h) {
    }
  }

  lemma {:induction false} LineBack(n: nat, i: nat, j: nat)
    requires j <= i <= n < TWO_32
    ensures Back(LineBucket(n), OnLine(i), j) == Some(OnLine(i - j))
    decreases j
  {
    if j > 0 {
      LineBack(n, i - 1, j - 1);
    }
  }

  /** Two weeks leave the target as it is; one week halves it. */
  lemma LineAdjusts()
    ensures CalcDiffAdjust(Line(0), Line(2015), LineParams()) == BITS
    ensures CalcDiffAdjust(Line(1), Line(2015), LineParams()) != BITS
  {
    hide CompactToBig;
    LineBits();
    assert ScaledTarget(0xffff, 2 * WEEK * NANOS_PER_SECOND) == 0xffff;
    assert ScaledTarget(0xffff, WEEK * NANOS_PER_SECOND) == 0x7fff;
    assert ByteLen(0x7fff) == 2 && ShiftLeft(0x7fff, 1) == 0x7f_ff00;
  }

  /** Every header of the line is accepted, also the one that opens the second epoch. */
  lemma {:induction false} RunLine(n: nat)
    requires n <= 2016
    ensures RunInput(LINE, LineHeaders(n)) && Run(LINE, LineHeaders(n)) == Chain(LineBucket(n), OnLine(n))
    decreases n
  {
    hide *;
    LineInput(n);
    if n == 0 {
      LineStarts();
    } else {
      RunLine(n - 1);
      LineGrows(n);
      RunNext(LINE, LineHeaders(n - 1), Line(n));
      LineCommits(n);
    }
  }

  lemma LineStarts()
    ensures Run(LINE, LineHeaders(0)) == Chain(LineBucket(0), OnLine(0))
  {
    hide CalcWork;
    assert LineHeaders(0) == [];
    assert 0 * WORK == 0;
    assert LineBucket(0) == map[0 := OnLine(0)];
  }

  lemma LineGrows(n: nat)
    requires n >= 1
    ensures LineHeaders(n) == LineHeaders(n - 1) + [Line(n)] && LINE.Root() == 0 && LINE.p == LineParams()
  {
  }

  lemma LineCommits(n: nat)
    requires 1 <= n <= 2016
    requires var c := Chain(LineBucket(n - 1), OnLine(n - 1)); Valid(c, 0, LineParams()) && HasRoom(c.headers)
    ensures Commit(Chain(LineBucket(n - 1), OnLine(n - 1)), 0, LineParams(), Line(n)) == Chain(LineBucket(n), OnLine(n))
  {
    hide MeetsRules, CalcWork, Valid;
    LineAccepted(n);
    LineBits();
    Successor(n - 1, WORK);
    assert LineBucket(n) == LineBucket(n - 1)[n := OnLine(n)];
  }

  lemma LineAccepted(n: nat)
    requires 1 <= n <= 2016
    requires Valid(Chain(LineBucket(n - 1), OnLine(n - 1)), 0, LineParams())
    ensures MeetsRules(LineBucket(n - 1), OnLine(n - 1), LineParams(), Line(n), OnLine(n - 1))
  {
    hide CompactToBig, CalcWork, CalcDiffAdjust, Valid;
    LineBits();
    if n == 2016 {
      LineBack(2015, 2015, 2015);
      LineAdjusts();
    }
  }

  /** After the run, an adjustment for one more header on number 2015 starts from header 1 instead of header 0, so a
      second header with the very bits that were accepted at that height is refused. */
  lemma EpochStartCanMiss()
    ensures var c, parent := Run(LINE, LineHeaders(2016)), 2015;
      && RunInput(LINE, LineHeaders(2016)) && Valid(c, LINE.Root(), LINE.p) && c.headers[LINE.Root()].height == 0
      && parent in c.headers && (c.headers[parent].height + 1) % EPOCH_LENGTH == 0
      && EpochFirst(c, LINE.Root(), LINE.p, parent) == 0 && 1 in c.headers && EpochStart(c) == Some(c.headers[1])
      && forall h: Header | h.prev == parent && h.bits == c.tip.header.bits ::
           !MeetsRules(c.headers, c.tip, LINE.p, h, c.headers[parent])
  {
    hide CalcDiffAdjust, CompactToBig, CalcWork, Valid, RunInput;
    RunLine(2016);
    RunReaches(LINE, LineHeaders(2016));
    LineBack(2016, 2016, 2015);
    LineAdjusts();
  }
}
