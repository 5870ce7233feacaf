/** Short runs over the two-level store that leave the chain: a header that only the cache still holds is built on, a
    rollback is overtaken by a pending write, and a write reaches the disk before its parent's. */
module Orphans {
  import opened Headers
  import opened Compact
  import opened HeaderTree
  import opened ForkChoice
  import opened Rollback
  import opened Runs
  import opened MixedBits
  import opened HeaderCache
  import opened AsyncStore
  import opened Reads
  import opened TwoLevel

  /** A store whose cache, far from full, finds just the records of m. */
  ghost predicate Finds(db: Db, m: Bucket, n: nat) {
    && db.best.Some?
    && Ordered(db.cache) && |db.cache.keys| <= n
    && forall k :: Get(db.cache, k) == Look(m, k) && (ByHash(k) in db.cache.entries ==> Get(db.cache, k).Some?)
  }

  lemma FindsSeen(db: Db, m: Bucket, n: nat)
    requires Finds(db, m, n)
    ensures Seen(db) == db.bucket + m
  {
    var s := Seen(db);
    forall k ensures Look(s, k) == Look(db.bucket + m, k) {
      assert Look(s, k) == GetHeader(db, k);
    }
    assert forall k :: (k in s <==> Look(s, k).Some?) && (k in db.bucket + m <==> Look(db.bucket + m, k).Some?);
  }

  lemma PutFinds(db: Db, p: Params, w: Write, m: Bucket, n: nat)
    requires Finds(db, m, n) && n <= CACHE_SIZE
    ensures Finds(PutStep(db, CACHE_SIZE, p, w), m[p.hash(w.sh.header) := w.sh], n + 2)
  {
    hide SetHeader;
    SetGets(db.cache, CACHE_SIZE, p.hash(w.sh.header), w.sh);
    SetOrdered(db.cache, CACHE_SIZE, p.hash(w.sh.header), w.sh);
  }

  /** The store once the checkpoint has been put. */
  lemma StartFinds()
    ensures var db := Over(SAMPLE, CACHE_SIZE, []);
      && Finds(db, map[0 := SAMPLE.First()], 2)
      && db == Db(db.cache, Some(SAMPLE.First()), map[], None, [Write(SAMPLE.First(), true)])
  {
    hide SetHeader;
    var empty := EMPTY_DB.(best := Some(SAMPLE.First()));
    PutFinds(empty, SAMPLE.p, Write(SAMPLE.First(), true), map[], 0);
  }

  /** A commit that stores a new tip. */
  lemma CommitOne(actions: seq<Action>, header: Header, sh: StoredHeader, m: Bucket, n: nat) returns (more: seq<Action>)
    requires var db := Over(SAMPLE, CACHE_SIZE, actions);
      && Finds(db, m, n) && n <= CACHE_SIZE
      && WritesOver(db.bucket + m, db.best.value, SAMPLE.p, header) == [Write(sh, true)]
    ensures more == actions + [Do(CommitOp(header))]
    ensures var db, db' := Over(SAMPLE, CACHE_SIZE, actions), Over(SAMPLE, CACHE_SIZE, more);
      && Finds(db', m[SAMPLE.p.hash(sh.header) := sh], n + 2)
      && db' == Db(db'.cache, Some(sh), db.bucket, db.tip, db.pending + [Write(sh, true)])
  {
    hide WritesOver, SetHeader;
    var db, w := Over(SAMPLE, CACHE_SIZE, actions), Write(sh, true);
    FindsSeen(db, m, n);
    more := actions + [Do(CommitOp(header))];
    OverSnoc(SAMPLE, CACHE_SIZE, actions, Do(CommitOp(header)));
    assert [w][1..] == [];
    assert PutWrites(db, CACHE_SIZE, SAMPLE.p, [w]) == PutStep(db, CACHE_SIZE, SAMPLE.p, w);
    PutFinds(db, SAMPLE.p, w, m, n);
  }

  /** A rollback that moves: the cache keeps what the bucket loses. */
  lemma RollbackOne(actions: seq<Action>, t: int, checkpoint: Hash, sh: StoredHeader, m: Bucket, n: nat)
    returns (more: seq<Action>)
    requires var db := Over(SAMPLE, CACHE_SIZE, actions);
      && Finds(db, m, n) && n <= CACHE_SIZE
      && StopAt(db.bucket + m, SAMPLE.p, db.best.value, t, checkpoint) == Some(sh)
      && SAMPLE.p.hash(sh.header) != SAMPLE.p.hash(db.best.value.header)
    ensures more == actions + [Do(RollbackOp(t, checkpoint))]
    ensures var db, db' := Over(SAMPLE, CACHE_SIZE, actions), Over(SAMPLE, CACHE_SIZE, more);
      && Finds(db', m[SAMPLE.p.hash(sh.header) := sh], n + 2)
      && db' == Db(db'.cache, Some(sh), KeptUpTo(db.bucket, sh.height), db.tip, db.pending + [Write(sh, true)])
  {
    hide StopAt, SetHeader;
    var db := Over(SAMPLE, CACHE_SIZE, actions);
    FindsSeen(db, m, n);
    more := actions + [Do(RollbackOp(t, checkpoint))];
    OverSnoc(SAMPLE, CACHE_SIZE, actions, Do(RollbackOp(t, checkpoint)));
    PutFinds(db.(bucket := KeptUpTo(db.bucket, sh.height)), SAMPLE.p, Write(sh, true), m, n);
  }

  /** A write of a best header that reaches the disk. */
  lemma LandOne(actions: seq<Action>, i: nat, m: Bucket, n: nat) returns (more: seq<Action>)
    requires var db := Over(SAMPLE, CACHE_SIZE, actions);
      Finds(db, m, n) && i < |db.pending| && db.pending[i].newBest
    ensures more == actions + [FlushOne(i)]
    ensures var db, db' := Over(SAMPLE, CACHE_SIZE, actions), Over(SAMPLE, CACHE_SIZE, more);
      var sh := db.pending[i].sh;
      && Finds(db', m, n)
      && db' == Db(db.cache, db.best, db.bucket[SAMPLE.p.hash(sh.header) := sh], Some(sh),
                   db.pending[..i] + db.pending[i + 1..])
  {
    more := actions + [FlushOne(i)];
    OverSnoc(SAMPLE, CACHE_SIZE, actions, FlushOne(i));
  }

  const GONE := StoredHeader(Easy(0, 1, 1), 1, QUARTER)
  const CHILD := StoredHeader(Easy(1, 2, 2), 2, HALF)

  /** The checkpoint, a header on it, and one on that. */
  function Both(): Bucket {
    map[0 := SAMPLE.First()][1 := GONE]
  }

  lemma SampleWrites()
    ensures WritesOver(map[0 := SAMPLE.First()], SAMPLE.First(), SAMPLE.p, GONE.header) == [Write(GONE, true)]
    ensures WritesOver(Both(), SAMPLE.First(), SAMPLE.p, CHILD.header) == [Write(CHILD, true)]
    ensures WritesOver(Both(), GONE, SAMPLE.p, CHILD.header) == [Write(CHILD, true)]
    ensures StopAt(Both(), SAMPLE.p, GONE, 0, SAMPLE.Root()) == Some(SAMPLE.First())
  {
    hide CompactToBig, CalcWork;
    SampleWork();
    var m := Both();
    assert Back(m, CHILD.(work := 0), 2) == Back(m, GONE, 1) == Back(m, SAMPLE.First(), 0) == Some(SAMPLE.First());
    assert StopAt(m, SAMPLE.p, GONE, 0, 0) == StopAt(m, SAMPLE.p, m[0], 0, 0);
  }

  lemma SampleHeaders()
    ensures RunInput(SAMPLE, [GONE.header]) && RunInput(SAMPLE, [GONE.header, CHILD.header])
  {
    SampleInput([GONE.header]);
    SampleInput([GONE.header, CHILD.header]);
  }

  /** The checkpoint and the header on it, both on disk. */
  lemma BothOnDisk() returns (actions: seq<Action>)
    ensures actions == [FlushOne(0), Do(CommitOp(GONE.header)), FlushOne(0)]
    ensures var db := Over(SAMPLE, CACHE_SIZE, actions);
      Finds(db, Both(), 4) && db == Db(db.cache, Some(GONE), Both(), Some(GONE), [])
  {
    hide Over, Finds, WritesOver;
    SampleWrites();
    var m := map[0 := SAMPLE.First()];
    StartFinds();
    actions := LandOne([], 0, m, 2);
    assert m + m == m && map[][0 := SAMPLE.First()] == m;
    actions := CommitOne(actions, GONE.header, GONE, m, 2);
    actions := LandOne(actions, 0, Both(), 4);
  }

  /** Every write is flushed at once, a header is rolled back, and its child then becomes the tip, in memory and on disk,
      over a parent the bucket no longer has. */
  lemma OrphanAfterRollback() returns (gone: Header, child: Header, actions: seq<Action>)
    ensures actions == [FlushOne(0), Do(CommitOp(gone)), FlushOne(0), Do(RollbackOp(0, SAMPLE.Root())), FlushOne(0),
                        Do(CommitOp(child)), FlushOne(0)]
    ensures RunInput(SAMPLE, [gone, child]) && child.prev == SAMPLE.p.hash(gone)
    ensures var db := Over(SAMPLE, CACHE_SIZE, actions);
      && db.pending == [] && db.best.Some? && db.best.value.header == child && db.tip == db.best
      && SAMPLE.p.hash(child) in db.bucket && child.prev !in db.bucket && child.prev != SAMPLE.Root()
      && !Tree(db.bucket, SAMPLE.Root())
  {
    hide Over, Finds, WritesOver, StopAt, RunInput, Tree;
    SampleWrites();
    SampleHeaders();
    gone, child := GONE.header, CHILD.header;
    var m, root := Both(), SAMPLE.First();
    actions := BothOnDisk();
    assert m + m == m && m[0 := root] == m;
    actions := RollbackOne(actions, 0, SAMPLE.Root(), root, m, 4);
    assert KeptUpTo(m, 0) == map[0 := root];
    actions := LandOne(actions, 0, m, 6);
    assert map[0 := root][0 := root] == map[0 := root] && map[0 := root] + m == m;
    actions := CommitOne(actions, child, CHILD, m, 6);
    actions := LandOne(actions, 0, m[2 := CHILD], 8);
    OrphanNoTree(Over(SAMPLE, CACHE_SIZE, actions).bucket);
  }

  lemma OrphanNoTree(s: Bucket)
    requires 2 in s && 1 !in s && s[2].header.prev == 1
    ensures !Tree(s, 0)
  {
    assert 0 in s ==> !Linked(s, 0, 2);
  }

  /** A rollback overtaken by a write still under way: in memory the checkpoint is best again, but in the end the header
      rolled back is in the bucket and the tip on disk, so that opening the store anew undoes the rollback. */
  lemma RollbackOvertaken() returns (gone: Header, actions: seq<Action>)
    ensures actions == [FlushOne(0), Do(CommitOp(gone)), Do(RollbackOp(0, SAMPLE.Root())), FlushOne(1), FlushOne(0)]
    ensures RunInput(SAMPLE, [gone])
    ensures var db := Over(SAMPLE, CACHE_SIZE, actions);
      && db.pending == [] && db.best == Some(SAMPLE.First())
      && db.tip.Some? && db.tip.value.header == gone && SAMPLE.p.hash(gone) in db.bucket
    ensures RunOps(SAMPLE, Ops(actions)) == SAMPLE.Chain()
  {
    hide Over, Finds, WritesOver, StopAt, RunInput;
    SampleWrites();
    SampleHeaders();
    gone := GONE.header;
    var m, root := map[0 := SAMPLE.First()], SAMPLE.First();
    StartFinds();
    actions := LandOne([], 0, m, 2);
    assert m + m == m && map[][0 := root] == m;
    actions := CommitOne(actions, gone, GONE, m, 2);
    assert m + Both() == Both() && Both()[0 := root] == Both() && KeptUpTo(m, 0) == m;
    actions := RollbackOne(actions, 0, SAMPLE.Root(), root, Both(), 4);
    actions := LandOne(actions, 1, Both(), 6);
    actions := LandOne(actions, 0, Both(), 6);
    OvertakenOps(actions, CommitOp(gone), RollbackOp(0, SAMPLE.Root()));
    ChainRollsBack(Ops(actions));
  }

  lemma OvertakenOps(actions: seq<Action>, commit: Op, rollback: Op)
    requires actions == [FlushOne(0), Do(commit), Do(rollback), FlushOne(1), FlushOne(0)]
    ensures Ops(actions) == [commit, rollback]
  {
    hide Over;
    assert actions[..4] + [FlushOne(0)] == actions && actions[..3] + [FlushOne(1)] == actions[..4];
    assert actions[..2] + [Do(rollback)] == actions[..3] && actions[..1] + [Do(commit)] == actions[..2];
    assert actions[..0] + [FlushOne(0)] == actions[..1] && actions[..0] == [];
    OverSnoc(SAMPLE, 0, actions[..4], FlushOne(0));
    OverSnoc(SAMPLE, 0, actions[..3], FlushOne(1));
    OverSnoc(SAMPLE, 0, actions[..2], Do(rollback));
    OverSnoc(SAMPLE, 0, actions[..1], Do(commit));
    OverSnoc(SAMPLE, 0, actions[..0], FlushOne(0));
  }

  /** In the chain the rollback undoes the commit. */
  lemma ChainRollsBack(ops: seq<Op>)
    requires ops == [CommitOp(GONE.header), RollbackOp(0, SAMPLE.Root())]
    ensures RunOps(SAMPLE, ops) == SAMPLE.Chain()
  {
    hide CompactToBig, CalcWork, RunInput, Valid, StopAt, Commit, RolledBack, Advance;
    SampleHeaders();
    assert ops[..1] == [ops[0]] && ops[..1][..0] == [] && [] + [GONE.header] == [GONE.header];
    var c, c' := SAMPLE.Chain(), Chain(Both(), GONE);
    RunNext(SAMPLE, [], GONE.header);
    GoneCommits();
    CommitsAreRun(SAMPLE, ops[..1]);
    assert Committed(ops[..1]) == [GONE.header];
    RunReaches(SAMPLE, [GONE.header]);
    GoneRollsBack();
  }

  lemma GoneCommits()
    requires Valid(SAMPLE.Chain(), 0, SAMPLE.p) && HasRoom(SAMPLE.Chain().headers)
    ensures Commit(SAMPLE.Chain(), 0, SAMPLE.p, GONE.header) == Chain(Both(), GONE)
  {
    hide CompactToBig, CalcWork, Valid;
    SampleWork();
    EasyCommit(SAMPLE.Chain(), 0, SAMPLE.p, GONE.header);
  }

  lemma GoneRollsBack()
    requires Valid(Chain(Both(), GONE), 0, SAMPLE.p)
    ensures RolledBack(Chain(Both(), GONE), 0, SAMPLE.p, 0, 0) == SAMPLE.Chain()
  {
    hide Valid, StopAt, WritesOver;
    SampleWrites();
    assert KeptUpTo(Both(), 0) == map[0 := SAMPLE.First()];
  }

  /** A child whose write overtakes its parent's: until the latter lands, the disk holds a tip without its parent. */
  lemma ChildLandsFirst() returns (parent: Header, child: Header, actions: seq<Action>)
    ensures actions == [FlushOne(0), Do(CommitOp(parent)), Do(CommitOp(child)), FlushOne(1)]
    ensures RunInput(SAMPLE, [parent, child]) && child.prev == SAMPLE.p.hash(parent)
    ensures var db := Over(SAMPLE, CACHE_SIZE, actions);
      && db.tip.Some? && db.tip.value.header == child && child.prev !in db.bucket && !Tree(db.bucket, SAMPLE.Root())
  {
    hide Over, Finds, WritesOver, RunInput, Tree;
    SampleWrites();
    SampleHeaders();
    parent, child := GONE.header, CHILD.header;
    var m, root := map[0 := SAMPLE.First()], SAMPLE.First();
    StartFinds();
    actions := LandOne([], 0, m, 2);
    assert m + m == m && map[][0 := root] == m;
    actions := CommitOne(actions, parent, GONE, m, 2);
    assert m + Both() == Both();
    actions := CommitOne(actions, child, CHILD, Both(), 4);
    actions := LandOne(actions, 1, Both()[2 := CHILD], 6);
    OrphanNoTree(Over(SAMPLE, CACHE_SIZE, actions).bucket);
  }
}
