/** What the disk holds at any point of a run, and so what a store reopened there starts from. */
module Crash {
  import opened Headers
  import opened HeaderTree
  import opened ForkChoice
  import opened Rollback
  import opened Runs
  import opened HeaderCache
  import opened AsyncStore
  import opened Reads
  import opened TwoLevel
  import opened Freshness
  import opened StoreRefinement

  ghost predicate FifoActions(actions: seq<Action>) {
    forall i | 0 <= i < |actions| :: actions[i].FlushOne? ==> actions[i].i == 0
  }

  lemma {:induction false} PutAllFifo(ws: seq<Write>)
    ensures Fifo(PutAll(ws))
    decreases |ws|
  {
    if ws != [] {
      PutAllFifo(ws[1..]);
    }
  }

  lemma {:induction false} ScheduleFifo(st: Start, cacheSize: nat, actions: seq<Action>)
    requires FifoActions(actions)
    ensures Fifo(Schedule(st, cacheSize, actions))
    decreases |actions|
  {
    if actions != [] {
      var init, last := actions[..|actions| - 1], actions[|actions| - 1];
      ScheduleFifo(st, cacheSize, init);
      PutAllFifo(Made(Over(st, cacheSize, init), st.p, last));
    }
  }

  lemma AtMostOne(st: Start, hs: seq<Header>, header: Header)
    ensures |WritesOfNext(st, hs, header)| <= 1
  {
  }

  /** The first puts of a run are all the puts of a run over its first headers. */
  lemma {:induction false} PutsPrefix(st: Start, hs: seq<Header>, m: nat) returns (j: nat)
    requires 1 <= m <= |PutsOfRun(st, hs)|
    ensures j <= |hs| && PutsOfRun(st, hs)[..m] == PutsOfRun(st, hs[..j])
    decreases |hs|
  {
    hide WritesOfNext;
    j := |hs|;
    assert hs[..j] == hs;
    if m == |PutsOfRun(st, hs)| {
      assert PutsOfRun(st, hs)[..m] == PutsOfRun(st, hs);
    } else {
      var init := hs[..|hs| - 1];
      AtMostOne(st, init, hs[|hs| - 1]);
      assert PutsOfRun(st, hs)[..m] == PutsOfRun(st, init)[..m];
      j := PutsPrefix(st, init, m);
      assert init[..j] == hs[..j];
    }
  }

  /** If writes reach the disk in the order they were put, then at every point of a run of commits at which anything is
      on disk at all, bucket and tip there are the store and tip of the run over some first part of the headers. */
  lemma {:induction false} DiskIsEarlierRun(st: Start, cacheSize: nat, actions: seq<Action>) returns (j: nat)
    requires CommitsOnly(actions) && FifoActions(actions) && RunInput(st, Committed(Ops(actions)))
    requires forall n | 0 <= n <= |actions| :: Covered(cacheSize, st.p, Schedule(st, cacheSize, actions[..n]))
    requires Over(st, cacheSize, actions).bucket != map[]
    ensures j <= |Committed(Ops(actions))|
    ensures var db, c := Over(st, cacheSize, actions), Run(st, Committed(Ops(actions))[..j]);
      db.bucket == c.headers && db.tip == Some(c.tip)
  {
    hide Covered, RunInput, Over, Run, Landed, PutsOfRun;
    var hs, steps := Committed(Ops(actions)), Schedule(st, cacheSize, actions);
    var landed := Landed(EMPTY_DB, cacheSize, st.p, steps);
    CommitsOverAsyncStore(st, cacheSize, actions);
    ScheduleExec(st, cacheSize, actions);
    ScheduleFifo(st, cacheSize, actions);
    LandedInOrder(EMPTY_DB, cacheSize, st.p, steps);
    LandedIsBucket(cacheSize, st.p, steps);
    LandedIsDisk(EMPTY_DB, cacheSize, st.p, steps);
    var puts := PutsOfRun(st, hs);
    assert landed + Over(st, cacheSize, actions).pending == puts;
    assert landed == puts[..|landed|];
    j := PutsPrefix(st, hs, |landed|);
    RunInputPrefix(st, hs, j);
    PutsAgree(st, hs[..j]);
  }

  /** The disk holds nothing yet, or a tree around the root. */
  ghost predicate DiskTree(s: Bucket, root: Hash) {
    s == map[] || Tree(s, root)
  }

  ghost predicate Closed(s: Bucket, root: Hash) {
    forall k | k in s && k != root :: s[k].header.prev in s
  }

  lemma {:induction false} ClosedHasRoot(db: Db, root: Hash, p: Params, c: Chain, k: Hash)
    requires Agrees(db, root, p, c) && Closed(db.bucket, root) && k in db.bucket
    ensures root in db.bucket
    decreases db.bucket[k].height
  {
    if k != root {
      assert Linked(c.headers, root, k);
      ClosedHasRoot(db, root, p, c, db.bucket[k].header.prev);
    }
  }

  lemma ClosedIsTree(db: Db, root: Hash, p: Params, c: Chain)
    requires Agrees(db, root, p, c)
    ensures DiskTree(db.bucket, root) <==> Closed(db.bucket, root)
  {
    var s := db.bucket;
    if Closed(s, root) && s != map[] {
      var k :| k in s;
      ClosedHasRoot(db, root, p, c, k);
      forall x {:trigger Linked(s, root, x)} | x in s ensures Linked(s, root, x) {
        assert Linked(c.headers, root, x);
      }
    } else if DiskTree(s, root) {
      forall k | k in s && k != root ensures s[k].header.prev in s {
        assert Linked(s, root, k);
      }
    }
  }

  /** If the action flushes a write, that is the root's, or its parent has reached the disk before. */
  ghost predicate LandsOnParent(db: Db, root: Hash, p: Params, a: Action) {
    a.FlushOne? && a.i < |db.pending| ==>
      var header := db.pending[a.i].sh.header;
      p.hash(header) == root || header.prev in db.bucket
  }

  lemma PutWritesBucket(db: Db, cacheSize: nat, p: Params, ws: seq<Write>)
    ensures PutWrites(db, cacheSize, p, ws).bucket == db.bucket
    decreases |ws|
  {
  }

  /** One action leaves the bucket closed exactly when it does not flush a write before its parent's. */
  lemma {:induction false} StepClosedIff(db: Db, root: Hash, p: Params, c: Chain, cacheSize: nat, a: Action)
    requires Agrees(db, root, p, c) && Closed(db.bucket, root)
    ensures Closed(StepOver(db, cacheSize, p, a).bucket, root) <==> LandsOnParent(db, root, p, a)
  {
    hide PutStep, FlushStep, SetHeader, WritesOver, StopAt, Closed, Valid;
    match a
    case FlushOne(i) =>
      if i < |db.pending| {
        FlushClosedIff(db, root, p, c, i);
      }
    case Do(CommitOp(header)) => PutWritesBucket(db, cacheSize, p, WritesOver(Seen(db), c.tip, p, header));
    case Do(RollbackOp(t, checkpoint)) =>
      var move := Move(db, c.tip, p, t, checkpoint);
      if move.Some? {
        RollToClosed(db, root, p, c, cacheSize, move.value);
      }
  }

  lemma FlushClosedIff(db: Db, root: Hash, p: Params, c: Chain, i: nat)
    requires Agrees(db, root, p, c) && Closed(db.bucket, root) && i < |db.pending|
    ensures Closed(FlushStep(db, p, i).bucket, root) <==> LandsOnParent(db, root, p, FlushOne(i))
  {
    var sh := db.pending[i].sh;
    assert InChain(c, p, sh);
    assert Linked(c.headers, root, p.hash(sh.header));
    assert FlushStep(db, p, i).bucket[p.hash(sh.header)] == sh;
  }

  lemma RollToClosed(db: Db, root: Hash, p: Params, c: Chain, cacheSize: nat, sh: StoredHeader)
    requires Agrees(db, root, p, c) && Closed(db.bucket, root)
    ensures Closed(RollTo(db, cacheSize, p, sh).bucket, root)
  {
    var s := db.bucket;
    forall k | k in s && s[k].height <= sh.height && k != root ensures s[s[k].header.prev].height <= sh.height {
      assert Linked(c.headers, root, k);
    }
  }

  ghost predicate TreeAfter(st: Start, cacheSize: nat, actions: seq<Action>, n: nat)
    requires n <= |actions|
  {
    DiskTree(Over(st, cacheSize, actions[..n]).bucket, st.Root())
  }

  ghost predicate LandsAfter(st: Start, cacheSize: nat, actions: seq<Action>, n: nat)
    requires n < |actions|
  {
    LandsOnParent(Over(st, cacheSize, actions[..n]), st.Root(), st.p, actions[n])
  }

  /** One more action of a run in step with the chain. */
  lemma NextTreeIff(st: Start, cacheSize: nat, actions: seq<Action>, n: nat)
    requires n < |actions| && AgreesAfter(st, cacheSize, actions, n) && AgreesAfter(st, cacheSize, actions, n + 1)
    requires TreeAfter(st, cacheSize, actions, n)
    ensures TreeAfter(st, cacheSize, actions, n + 1) <==> LandsAfter(st, cacheSize, actions, n)
  {
    hide Agrees, StepOver, DiskTree, Closed, LandsOnParent, RunOps;
    assert actions[..n + 1] == actions[..n] + [actions[n]];
    OverSnoc(st, cacheSize, actions[..n], actions[n]);
    var db, db' := Over(st, cacheSize, actions[..n]), Over(st, cacheSize, actions[..n + 1]);
    var c, c' := RunOps(st, Ops(actions[..n])), RunOps(st, Ops(actions[..n + 1]));
    ClosedIsTree(db, st.Root(), st.p, c);
    ClosedIsTree(db', st.Root(), st.p, c');
    StepClosedIff(db, st.Root(), st.p, c, cacheSize, actions[n]);
  }

  lemma {:induction false} LandsTree(st: Start, cacheSize: nat, actions: seq<Action>, n: nat)
    requires n <= |actions| && AgreesThroughout(st, cacheSize, actions)
    requires forall m: nat | m < |actions| :: LandsAfter(st, cacheSize, actions, m)
    ensures TreeAfter(st, cacheSize, actions, n)
  {
    hide AgreesAfter, LandsAfter;
    if n == 0 {
      assert actions[..0] == [];
    } else {
      LandsTree(st, cacheSize, actions, n - 1);
      assert AgreesAfter(st, cacheSize, actions, n - 1) && AgreesAfter(st, cacheSize, actions, n);
      assert LandsAfter(st, cacheSize, actions, n - 1);
      NextTreeIff(st, cacheSize, actions, n - 1);
    }
  }

  /** In a run that follows the chain, the disk holds a tree at every point exactly when no write reaches it before the
      write of its parent has. */
  lemma {:induction false} TreeOnDiskIff(st: Start, cacheSize: nat, actions: seq<Action>)
    requires RunInput(st, Committed(Ops(actions)))
    requires FreshThroughout(st, cacheSize, actions) && CalmThroughout(st, cacheSize, actions)
    ensures (forall n: nat | n <= |actions| :: TreeAfter(st, cacheSize, actions, n))
       <==> (forall n: nat | n < |actions| :: LandsAfter(st, cacheSize, actions, n))
  {
    hide AgreesAfter, LandsAfter, TreeAfter, RunInput, FreshThroughout, CalmThroughout;
    RunFollowsIff(st, cacheSize, actions);
    if forall n: nat | n < |actions| :: LandsAfter(st, cacheSize, actions, n) {
      forall n: nat | n <= |actions| ensures TreeAfter(st, cacheSize, actions, n) {
        LandsTree(st, cacheSize, actions, n);
      }
    }
    if forall n: nat | n <= |actions| :: TreeAfter(st, cacheSize, actions, n) {
      forall n: nat | n < |actions| ensures LandsAfter(st, cacheSize, actions, n) {
        assert TreeAfter(st, cacheSize, actions, n) && TreeAfter(st, cacheSize, actions, n + 1);
        assert AgreesAfter(st, cacheSize, actions, n) && AgreesAfter(st, cacheSize, actions, n + 1);
        NextTreeIff(st, cacheSize, actions, n);
      }
    }
  }

  /** Once a rollback that moves has deleted, and until its own put lands, the tip on disk is a header that the bucket no
      longer has. */
  lemma {:induction false} RollbackUnsettlesTip(db: Db, root: Hash, p: Params, c: Chain, cacheSize: nat, t: int, checkpoint: Hash)
    requires Agrees(db, root, p, c) && Readable(db, p) && db.tip == db.best
    requires RolledBack(c, root, p, t, checkpoint) != c
    ensures var db' := StepOver(db, cacheSize, p, Do(RollbackOp(t, checkpoint)));
      && db'.tip == Some(c.tip) && p.hash(c.tip.header) !in db'.bucket
      && db'.best == Some(RolledBack(c, root, p, t, checkpoint).tip)
  {
    hide SetHeader, StopAt, Valid;
    var tip := p.hash(c.tip.header);
    ReadsAgree(db, root, p, c);
    RootStored(c, root, p);
    TipIsAbove(db, root, p, c, t, checkpoint);
  }

  lemma TipIsAbove(db: Db, root: Hash, p: Params, c: Chain, t: int, checkpoint: Hash)
    requires Valid(c, root, p) && Covers(Seen(db), c, root)
    requires RolledBack(c, root, p, t, checkpoint) != c
    ensures Move(db, c.tip, p, t, checkpoint) == Some(RolledBack(c, root, p, t, checkpoint).tip)
    ensures RolledBack(c, root, p, t, checkpoint).tip.height < c.tip.height
    ensures p.hash(c.tip.header) in c.headers && c.headers[p.hash(c.tip.header)] == c.tip
  {
    hide StopAt;
    var tip := p.hash(c.tip.header);
    StopCovered(Seen(db), c, root, p, tip, t, checkpoint);
    StopIsNearest(c, root, p, tip, t, checkpoint);
    assert Linked(c.headers, root, tip);
  }
}
