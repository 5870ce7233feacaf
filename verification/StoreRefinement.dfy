/** A run of CommitHeader over the asynchronous store reads what it would have read from a synchronous one. */
module StoreRefinement {
  import opened Headers
  import opened ForkChoice
  import opened Rollback
  import opened Runs
  import opened HeaderCache
  import opened AsyncStore
  import opened Reads
  import opened TwoLevel

  /** The writes a run of commits issues: the checkpoint first, then one for each header it stores. */
  ghost function PutsOfRun(st: Start, hs: seq<Header>): seq<Write>
    decreases |hs|
  {
    if hs == [] then [Write(st.First(), true)]
    else PutsOfRun(st, hs[..|hs| - 1]) + WritesOfNext(st, hs[..|hs| - 1], hs[|hs| - 1])
  }

  ghost function WritesOfNext(st: Start, hs: seq<Header>, header: Header): seq<Write> {
    var c := Run(st, hs);
    if Valid(c, st.Root(), st.p) && HasRoom(c.headers) then WritesOf(c, st.Root(), st.p, header) else []
  }

  /** The writes add up to the store and the tip, and every record written is the one the store holds. */
  ghost predicate Agree(p: Params, puts: seq<Write>, c: Chain) {
    && SyncBucket(p, puts) == c.headers
    && LastBest(None, puts) == Some(c.tip)
    && forall i | 0 <= i < |puts| ::
         p.hash(puts[i].sh.header) in c.headers && c.headers[p.hash(puts[i].sh.header)] == puts[i].sh
  }

  lemma {:induction false} AgreeStep(c: Chain, root: Hash, p: Params, puts: seq<Write>, header: Header)
    requires Valid(c, root, p) && HasRoom(c.headers) && NoCollision(c.headers, root, p, header)
    requires Agree(p, puts, c)
    ensures Agree(p, puts + WritesOf(c, root, p, header), Commit(c, root, p, header))
  {
    CommitKeeps(c, root, p, header);
    var ws := WritesOf(c, root, p, header);
    if ws == [] {
      assert puts + ws == puts;
    } else {
      assert (puts + ws)[..|puts|] == puts;
      LastBestAppend(None, puts, ws[0]);
    }
  }

  lemma {:induction false} PutsAgree(st: Start, hs: seq<Header>)
    requires RunInput(st, hs)
    ensures Agree(st.p, PutsOfRun(st, hs), Run(st, hs))
    decreases |hs|
  {
    if hs == [] {
      var w := Write(st.First(), true);
      assert [w][..0] == [] && [w][1..] == [];
      assert SyncBucket(st.p, [w]) == SyncBucket(st.p, [])[st.Root() := w.sh];
    } else {
      var init, last := hs[..|hs| - 1], hs[|hs| - 1];
      assert init + [last] == hs;
      RunInputPrefix(st, hs, |init|);
      PutsAgree(st, init);
      RunReaches(st, init);
      NextFits(st, init, last, Run(st, init));
      AgreeStep(Run(st, init), st.Root(), st.p, PutsOfRun(st, init), last);
    }
  }

  /** A schedule of the writes of a run, covered in the end, reads as the run. */
  lemma {:induction false} ScheduleReads(st: Start, hs: seq<Header>, cacheSize: nat, steps: seq<Step>)
    requires RunInput(st, hs)
    requires Puts(steps) == PutsOfRun(st, hs)
    requires Covered(cacheSize, st.p, steps)
    ensures ReadsAs(Exec(EMPTY_DB, cacheSize, st.p, steps), Run(st, hs))
  {
    var db, c, puts := Exec(EMPTY_DB, cacheSize, st.p, steps), Run(st, hs), Puts(steps);
    PutsAgree(st, hs);
    assert OneRecord(st.p, puts);
    forall k ensures GetHeader(db, k) == Look(c.headers, k) {
      AsyncRefinesSync(cacheSize, st.p, steps, k);
    }
    ExecTracksBest(EMPTY_DB, cacheSize, st.p, steps);
    if db.pending == [] {
      FlushedIsSync(cacheSize, st.p, steps);
    }
  }

  /** Every lookup and the best header are those of the chain, and so is the bucket once nothing is pending. */
  ghost predicate ReadsAs(db: Db, c: Chain) {
    && (forall k :: GetHeader(db, k) == Look(c.headers, k))
    && db.best == Some(c.tip)
    && (db.pending == [] ==> db.bucket == c.headers)
  }

  ghost predicate CommitsOnly(actions: seq<Action>) {
    forall i | 0 <= i < |actions| :: actions[i].FlushOne? || actions[i].op.CommitOp?
  }

  function StepsOf(db: Db, p: Params, a: Action): seq<Step> {
    if a.FlushOne? then [Flush(a.i)] else PutAll(Made(db, p, a))
  }

  /** The puts and flushes of a run of commits, each put decided by what lookups found when it was made. */
  function Schedule(st: Start, cacheSize: nat, actions: seq<Action>): seq<Step>
    decreases |actions|
  {
    if actions == [] then [Put(Write(st.First(), true))]
    else
      var init := actions[..|actions| - 1];
      Schedule(st, cacheSize, init) + StepsOf(Over(st, cacheSize, init), st.p, actions[|actions| - 1])
  }

  lemma {:induction false} PutAllExec(db: Db, cacheSize: nat, p: Params, ws: seq<Write>)
    ensures Exec(db, cacheSize, p, PutAll(ws)) == PutWrites(db, cacheSize, p, ws)
    decreases |ws|
  {
    hide PutStep;
    if ws != [] {
      assert PutAll(ws)[0] == Put(ws[0]) && PutAll(ws)[1..] == PutAll(ws[1..]);
      PutAllExec(PutStep(db, cacheSize, p, ws[0]), cacheSize, p, ws[1..]);
    }
  }

  /** The store a run of commits reaches is the one its schedule executes to. */
  lemma {:induction false} ScheduleExec(st: Start, cacheSize: nat, actions: seq<Action>)
    requires CommitsOnly(actions)
    ensures Exec(EMPTY_DB, cacheSize, st.p, Schedule(st, cacheSize, actions)) == Over(st, cacheSize, actions)
    decreases |actions|
  {
    hide PutStep, Seen, WritesOver;
    if actions == [] {
      var put := Put(Write(st.First(), true));
      assert [put][1..] == [];
    } else {
      var init, last := actions[..|actions| - 1], actions[|actions| - 1];
      var db := Over(st, cacheSize, init);
      ScheduleExec(st, cacheSize, init);
      ExecSplit(EMPTY_DB, cacheSize, st.p, Schedule(st, cacheSize, init), StepsOf(db, st.p, last));
      if last.FlushOne? {
        assert [Flush(last.i)][1..] == [];
      } else if db.best.Some? {
        PutAllExec(db, cacheSize, st.p, WritesOver(Seen(db), db.best.value, st.p, last.op.header));
      }
    }
  }

  /** Reading as the chain, the store decides as the chain. */
  lemma {:induction false} SameWrites(st: Start, hs: seq<Header>, header: Header, db: Db)
    requires RunInput(st, hs + [header]) && ReadsAs(db, Run(st, hs))
    ensures db.best.Some? && WritesOver(Seen(db), db.best.value, st.p, header) == WritesOfNext(st, hs, header)
  {
    hide WritesOver, MeetsRules, HasRoom, NoCollision;
    var c := Run(st, hs);
    assert (hs + [header])[..|hs|] == hs;
    RunInputPrefix(st, hs + [header], |hs|);
    RunReaches(st, hs);
    NextFits(st, hs, header, c);
    SeenIsChain(db, c);
    if header.prev in c.headers {
      WritesCovered(c.headers, c, st.Root(), st.p, header);
    } else {
      OrphanWrites(c, st.Root(), st.p, header);
    }
  }

  lemma SeenIsChain(db: Db, c: Chain)
    requires ReadsAs(db, c)
    ensures Seen(db) == c.headers
  {
    var s := Seen(db);
    forall k ensures Look(s, k) == Look(c.headers, k) {
      assert Look(s, k) == GetHeader(db, k);
    }
    assert forall k :: (k in s <==> Look(s, k).Some?) && (k in c.headers <==> Look(c.headers, k).Some?);
  }

  lemma OrphanWrites(c: Chain, root: Hash, p: Params, header: Header)
    requires Valid(c, root, p) && header.prev !in c.headers
    ensures WritesOver(c.headers, c.tip, p, header) == []
  {
  }

  /** The store having read as the chain so far, the next action's writes are those of the chain. */
  lemma {:induction false} NextPuts(st: Start, cacheSize: nat, actions: seq<Action>, a: Action)
    requires a.FlushOne? || a.op.CommitOp?
    requires RunInput(st, Committed(Ops(actions + [a])))
    requires ReadsAs(Over(st, cacheSize, actions), Run(st, Committed(Ops(actions))))
    requires Puts(Schedule(st, cacheSize, actions)) == PutsOfRun(st, Committed(Ops(actions)))
    ensures Puts(Schedule(st, cacheSize, actions + [a])) == PutsOfRun(st, Committed(Ops(actions + [a])))
  {
    hide RunInput, ReadsAs, Over, WritesOver, WritesOfNext, Run, Ops, Committed;
    var db, steps, hs := Over(st, cacheSize, actions), Schedule(st, cacheSize, actions), Committed(Ops(actions));
    OverSnoc(st, cacheSize, actions, a);
    assert (actions + [a])[..|actions|] == actions;
    PutsSplit(steps, StepsOf(db, st.p, a));
    if a.FlushOne? {
      assert Puts([Flush(a.i)]) == [];
      assert Puts(steps) + [] == Puts(steps);
    } else {
      var header := a.op.header;
      CommittedSnoc(Ops(actions), a.op);
      assert (hs + [header])[..|hs|] == hs;
      SameWrites(st, hs, header, db);
      PutAllPuts(WritesOver(Seen(db), db.best.value, st.p, header));
    }
  }

  /** Refinement of whole runs: commits that read the two-level store, with its cache and with writes that reach the
      disk in any order between them, read and decide as commits to a store without either, and issue the same writes.
      It holds while, after each action, every record not on disk was put fresh at most half a cache ago. */
  lemma {:induction false} CommitsOverAsyncStore(st: Start, cacheSize: nat, actions: seq<Action>)
    requires CommitsOnly(actions) && RunInput(st, Committed(Ops(actions)))
    requires forall n | 0 <= n <= |actions| :: Covered(cacheSize, st.p, Schedule(st, cacheSize, actions[..n]))
    ensures var hs := Committed(Ops(actions));
      && ReadsAs(Over(st, cacheSize, actions), Run(st, hs))
      && Puts(Schedule(st, cacheSize, actions)) == PutsOfRun(st, hs)
    decreases |actions|
  {
    hide Covered, RunInput, ReadsAs, Over, Run;
    if actions != [] {
      hide *;
      var init, last := actions[..|actions| - 1], actions[|actions| - 1];
      assert actions == init + [last];
      NextInput(st, init, last);
      forall n | 0 <= n <= |init| ensures Covered(cacheSize, st.p, Schedule(st, cacheSize, init[..n])) {
        assert init[..n] == actions[..n];
      }
      CommitsPrefix(init, last);
      CommitsOverAsyncStore(st, cacheSize, init);
      NextPuts(st, cacheSize, init, last);
    }
    assert actions[..|actions|] == actions;
    ScheduleReads(st, Committed(Ops(actions)), cacheSize, Schedule(st, cacheSize, actions));
    ScheduleExec(st, cacheSize, actions);
  }

  lemma CommitsPrefix(actions: seq<Action>, a: Action)
    requires CommitsOnly(actions + [a])
    ensures CommitsOnly(actions) && (a.FlushOne? || a.op.CommitOp?)
  {
    var all := actions + [a];
    assert all[|actions|] == a && forall i | 0 <= i < |actions| :: all[i] == actions[i];
  }

  lemma {:induction false} FlushedIsSync(cacheSize: nat, p: Params, steps: seq<Step>)
    requires OneRecord(p, Puts(steps)) && Exec(EMPTY_DB, cacheSize, p, steps).pending == []
    ensures Exec(EMPTY_DB, cacheSize, p, steps).bucket == SyncBucket(p, Puts(steps))
  {
    FlushedBucket(cacheSize, p, steps);
    SyncBucketHolds(p, Puts(steps));
    var x, y, ws := Exec(EMPTY_DB, cacheSize, p, steps).bucket, SyncBucket(p, Puts(steps)), Puts(steps);
    forall k | k in x || k in y ensures k in x && k in y && x[k] == y[k] {
      var sh := if k in x then x[k] else y[k];
      var i :| 0 <= i < |ws| && ws[i].sh == sh;
      assert ws[i] in ws;
    }
  }

  /** Deleting from a store whose lookups all agree with its bucket leaves a lookup in agreement exactly when the cache
      does not hold that header above the height kept. */
  lemma DeletionReadsIff(db: Db, height: uint32, k: Hash)
    requires forall key :: GetHeader(db, key) == Look(db.bucket, key)
    ensures var kept, cached := db.(bucket := KeptUpTo(db.bucket, height)), Get(db.cache, k);
      GetHeader(kept, k) == Look(kept.bucket, k) <==> (cached.Some? ==> cached.value.height <= height)
  {
    var kept := db.(bucket := KeptUpTo(db.bucket, height));
    assert GetHeader(db, k) == Look(db.bucket, k);
    if k in db.bucket && db.bucket[k].height <= height {
      assert kept.bucket[k] == db.bucket[k];
    }
  }
}
