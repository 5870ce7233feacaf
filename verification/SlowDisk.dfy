/** A run whose writes stay pending for one put too many: the bound on freshness is the best possible. */
module SlowDisk {
  import opened Headers
  import opened Compact
  import opened ForkChoice
  import opened Runs
  import opened LateFork
  import opened HeaderCache
  import opened AsyncStore
  import opened Reads
  import opened TwoLevel
  import opened Freshness

  /** Commits of the first n headers of the line, with no flush between them. */
  function Commits(n: nat): seq<Action> {
    seq(n, i requires 0 <= i < n => Do(CommitOp(Line(i + 1))))
  }

  function LineWrites(n: nat): seq<Write>
    requires n <= TWO_32
  {
    seq(n, i requires 0 <= i < n => Write(OnLine(i), true))
  }

  /** A header on the tip that keeps its bits is stored, whatever else lookups find. */
  lemma LineWritten(s: Bucket, n: nat)
    requires 1 <= n < 2016
    ensures WritesOver(s, OnLine(n - 1), LineParams(), Line(n)) == [Write(OnLine(n), true)]
  {
    hide CompactToBig, CalcWork;
    LineBits();
    assert (n - 1) * WORK + WORK == n * WORK;
  }

  /** Nothing has reached the disk, and every header of the line so far has been put. */
  ghost predicate Slow(cacheSize: nat, actions: seq<Action>, n: nat)
    requires n < TWO_32 - 1
  {
    var db := Over(LINE, cacheSize, actions);
    && db.bucket == map[] && db.best == Some(OnLine(n)) && db.pending == LineWrites(n + 1)
    && Issued(LINE, cacheSize, actions) == LineWrites(n + 1)
  }

  lemma StartSlow(cacheSize: nat)
    ensures Slow(cacheSize, [], 0)
  {
    hide SetHeader;
    assert OnLine(0) == LINE.First() by { assert 0 * WORK == 0; }
    assert LineWrites(1) == [Write(OnLine(0), true)];
  }

  lemma SlowStep(cacheSize: nat, actions: seq<Action>, n: nat)
    requires 1 <= n < 2016 && Slow(cacheSize, actions, n - 1)
    ensures Slow(cacheSize, actions + [Do(CommitOp(Line(n)))], n)
  {
    hide SetHeader, WritesOver, Seen, Line;
    var a, w := Do(CommitOp(Line(n))), Write(OnLine(n), true);
    var db := Over(LINE, cacheSize, actions);
    LineWritten(Seen(db), n);
    OverSnoc(LINE, cacheSize, actions, a);
    assert LineWrites(n + 1) == LineWrites(n) + [w];
    assert (actions + [a])[..|actions|] == actions;
    assert [w][1..] == [];
    assert PutWrites(db, cacheSize, LINE.p, [w]) == PutStep(db, cacheSize, LINE.p, w);
  }

  lemma CommitsGrow(n: nat)
    ensures Commits(0) == []
    ensures Commits(n + 1) == Commits(n) + [Do(CommitOp(Line(n + 1)))]
    ensures LineHeaders(0) == [] && LineHeaders(n + 1) == LineHeaders(n) + [Line(n + 1)]
  {
    hide Line;
  }

  lemma {:induction false} CommitsPend(cacheSize: nat, n: nat)
    requires n < 2016
    ensures Slow(cacheSize, Commits(n), n)
  {
    hide *;
    if n == 0 {
      CommitsGrow(0);
      StartSlow(cacheSize);
    } else {
      CommitsPend(cacheSize, n - 1);
      CommitsGrow(n - 1);
      SlowStep(cacheSize, Commits(n - 1), n);
    }
  }

  lemma {:induction false} CommitsCommit(n: nat)
    ensures Committed(Ops(Commits(n))) == LineHeaders(n)
    ensures forall i | 0 <= i < |Ops(Commits(n))| :: Ops(Commits(n))[i].CommitOp?
  {
    hide Line, Over, Committed, Ops, Commits, LineHeaders;
    if n == 0 {
      CommitsGrow(0);
      assert Ops([]) == [] && Committed([]) == [] by { NoneCommitted(); }
    } else {
      var a := Do(CommitOp(Line(n)));
      CommitsCommit(n - 1);
      CommitsGrow(n - 1);
      OverSnoc(LINE, 0, Commits(n - 1), a);
      CommittedSnoc(Ops(Commits(n - 1)), a.op);
    }
  }

  lemma NoneCommitted()
    ensures Ops([]) == [] && Committed([]) == []
  {
  }

  /** A second header on the checkpoint. */
  const SIDE := Header(1, 0, 5000, 0, BITS, 0)

  lemma SideInput(n: nat)
    requires n < 2016
    ensures RunInput(LINE, LineHeaders(n) + [SIDE])
  {
    LineBits();
    var all := [LINE.checkpoint] + (LineHeaders(n) + [SIDE]);
    assert forall i | 0 <= i < |all| :: all[i] == if i <= n then Line(i) else SIDE;
    forall g, h {:trigger NoClash(LINE.p, g, h)} | g in all && h in all ensures NoClash(LINE.p, g, h) {
    }
  }

  /** The chain stores the second header on the checkpoint. */
  lemma SideStored(n: nat)
    requires 1 <= n < 2016
    ensures LINE.p.hash(SIDE) in Run(LINE, LineHeaders(n) + [SIDE]).headers
  {
    hide CompactToBig, CalcWork, Valid, RunInput;
    RunLine(n);
    SideInput(n);
    LineBits();
    RunNext(LINE, LineHeaders(n), SIDE);
    assert Accepts(Chain(LineBucket(n), OnLine(n)), 0, LINE.p, SIDE);
  }

  /** The cache has forgotten the first header of the line by the time half a cache and one more have followed. */
  lemma FirstForgotten(cacheSize: nat)
    requires cacheSize / 2 + 1 < 2016
    ensures Get(CacheOf(LineParams(), cacheSize, LineWrites(cacheSize / 2 + 2)), 0) == None
  {
    hide WORK;
    RowEvicts(cacheSize, LineParams(), Records(LineWrites(cacheSize / 2 + 2)));
  }

  /** With one write more than half a cache behind it, a pending header is found no longer: a header on top of it, which
      the chain accepts, is refused as an orphan. */
  lemma OneTooMany(cacheSize: nat) returns (actions: seq<Action>)
    requires cacheSize / 2 + 1 < 2016
    ensures RunInput(LINE, Committed(Ops(actions)) + [SIDE]) && forall i | 0 <= i < |actions| :: actions[i].Do?
    ensures var db, issued := Over(LINE, cacheSize, actions), Issued(LINE, cacheSize, actions);
      && |issued| == cacheSize / 2 + 2 && issued[0] in db.pending
      && SIDE.prev == LINE.p.hash(issued[0].sh.header) && GetHeader(db, SIDE.prev) == None
      && Over(LINE, cacheSize, actions + [Do(CommitOp(SIDE))]) == db
    ensures LINE.p.hash(SIDE) in RunOps(LINE, Ops(actions + [Do(CommitOp(SIDE))])).headers
  {
    hide Over, SetAll, SetHeader, Run, RunOps, RunInput, WORK, MeetsRules;
    var n := cacheSize / 2 + 1;
    actions := Commits(n);
    CommitsPend(cacheSize, n);
    CommitsCommit(n);
    SideInput(n);
    OverCache(LINE, cacheSize, actions);
    FirstForgotten(cacheSize);
    var db := Over(LINE, cacheSize, actions);
    assert db.pending[0] == Write(OnLine(0), true);
    assert GetHeader(db, 0) == None;
    assert Look(Seen(db), 0) == None;
    OverSnoc(LINE, cacheSize, actions, Do(CommitOp(SIDE)));
    assert WritesOver(Seen(db), OnLine(n), LINE.p, SIDE) == [];
    SideStored(n);
    CommittedSnoc(Ops(actions), CommitOp(SIDE));
    CommitsAreRun(LINE, Ops(actions + [Do(CommitOp(SIDE))]));
  }
}
