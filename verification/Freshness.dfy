/** When lookups find what is pending: a condition on the puts of a run, and what runs that meet it are sure to do. */
module Freshness {
  import opened Headers
  import opened Runs
  import opened HeaderCache
  import opened AsyncStore
  import opened HeaderStore
  import opened TwoLevel

  /** All writes of a run, those of its rollbacks among them, in the order they were put. */
  function Issued(st: Start, cacheSize: nat, actions: seq<Action>): seq<Write>
    decreases |actions|
  {
    if actions == [] then [Write(st.First(), true)]
    else
      var init := actions[..|actions| - 1];
      Issued(st, cacheSize, init) + Made(Over(st, cacheSize, init), st.p, actions[|actions| - 1])
  }

  function CacheOf(p: Params, cacheSize: nat, ws: seq<Write>): Cache {
    SetAll(EMPTY, cacheSize, p, Records(ws))
  }

  lemma {:induction false} PutWritesCache(db: Db, cacheSize: nat, p: Params, ws: seq<Write>)
    ensures PutWrites(db, cacheSize, p, ws).cache == SetAll(db.cache, cacheSize, p, Records(ws))
    decreases |ws|
  {
    hide SetHeader;
    if ws != [] {
      PutWritesCache(PutStep(db, cacheSize, p, ws[0]), cacheSize, p, ws[1..]);
      assert Records(ws)[1..] == Records(ws[1..]);
    }
  }

  lemma StepCache(db: Db, cacheSize: nat, p: Params, a: Action)
    ensures StepOver(db, cacheSize, p, a).cache == SetAll(db.cache, cacheSize, p, Records(Made(db, p, a)))
  {
    hide SetHeader, Move;
    PutWritesCache(db, cacheSize, p, Made(db, p, a));
    if a.Do? && a.op.RollbackOp? && Made(db, p, a) != [] {
      assert Records(Made(db, p, a))[1..] == [];
    }
  }

  /** The cache depends on the writes of a run alone, whatever was flushed and deleted in between. */
  lemma {:induction false} OverCache(st: Start, cacheSize: nat, actions: seq<Action>)
    ensures Over(st, cacheSize, actions).cache == CacheOf(st.p, cacheSize, Issued(st, cacheSize, actions))
    decreases |actions|
  {
    hide SetHeader, StepOver, Made;
    if actions == [] {
      assert Records(Issued(st, cacheSize, [])) == [] + [st.First()];
      SetAllSnoc(EMPTY, cacheSize, st.p, [], st.First());
    } else {
      var init, last := actions[..|actions| - 1], actions[|actions| - 1];
      var db, ws := Over(st, cacheSize, init), Issued(st, cacheSize, init);
      OverCache(st, cacheSize, init);
      StepCache(db, cacheSize, st.p, last);
      assert Records(ws + Made(db, st.p, last)) == Records(ws) + Records(Made(db, st.p, last));
      SetAllJoin(EMPTY, cacheSize, st.p, Records(ws), Records(Made(db, st.p, last)));
    }
  }

  /** Write n went under hash k when the cache did not hold it, and at most cacheSize / 2 writes came after. */
  ghost predicate PutFresh(p: Params, cacheSize: nat, ws: seq<Write>, n: nat, k: Hash) {
    && n < |ws| && p.hash(ws[n].sh.header) == k
    && ByHash(k) !in CacheOf(p, cacheSize, ws[..n]).entries
    && |ws| - n - 1 <= cacheSize / 2
  }

  /** Whatever has been put fresh at most half a cache ago is found, if not on disk then in the cache. */
  lemma FreshIsCached(p: Params, cacheSize: nat, ws: seq<Write>, n: nat, k: Hash)
    requires PutFresh(p, cacheSize, ws, n, k)
    ensures Get(CacheOf(p, cacheSize, ws), k).Some?
  {
    hide SetAll;
    var before, sh, later := Records(ws[..n]), ws[n].sh, Records(ws[n + 1..]);
    assert Records(ws) == before + ([sh] + later);
    SetAllJoin(EMPTY, cacheSize, p, before, [sh] + later);
    SetAllOrdered(EMPTY, cacheSize, p, before);
    KeyStays(SetAll(EMPTY, cacheSize, p, before), cacheSize, p, sh, later);
    CacheFollowsSets(cacheSize, p, Records(ws));
  }

  /** Every record not on disk was put fresh at most half a cache of writes ago. */
  ghost predicate Fresh(st: Start, cacheSize: nat, actions: seq<Action>) {
    var db := Over(st, cacheSize, actions);
    forall i | 0 <= i < |db.pending| ::
      HashOf(st, db.pending[i]) in db.bucket || WasFresh(st, cacheSize, actions, HashOf(st, db.pending[i]))
  }

  ghost predicate WasFresh(st: Start, cacheSize: nat, actions: seq<Action>, k: Hash) {
    exists n: nat :: PutFresh(st.p, cacheSize, Issued(st, cacheSize, actions), n, k)
  }

  function HashOf(st: Start, w: Write): Hash {
    st.p.hash(w.sh.header)
  }

  lemma FreshReadable(st: Start, cacheSize: nat, actions: seq<Action>)
    requires Fresh(st, cacheSize, actions)
    ensures Readable(Over(st, cacheSize, actions), st.p)
  {
    hide Over, Issued, CacheOf;
    var db, ws := Over(st, cacheSize, actions), Issued(st, cacheSize, actions);
    OverCache(st, cacheSize, actions);
    forall i | 0 <= i < |db.pending| ensures GetHeader(db, st.p.hash(db.pending[i].sh.header)).Some? {
      var k := st.p.hash(db.pending[i].sh.header);
      if k !in db.bucket {
        var n: nat :| PutFresh(st.p, cacheSize, ws, n, k);
        FreshIsCached(st.p, cacheSize, ws, n, k);
      }
    }
  }

  ghost predicate FreshAfter(st: Start, cacheSize: nat, actions: seq<Action>, n: nat)
    requires n <= |actions|
  {
    Fresh(st, cacheSize, actions[..n])
  }

  ghost predicate FreshThroughout(st: Start, cacheSize: nat, actions: seq<Action>) {
    forall n: nat | n <= |actions| :: FreshAfter(st, cacheSize, actions, n)
  }

  lemma FreshReadableThroughout(st: Start, cacheSize: nat, actions: seq<Action>)
    requires FreshThroughout(st, cacheSize, actions)
    ensures ReadableThroughout(st, cacheSize, actions)
  {
    hide Fresh, Readable, Over;
    forall n: nat | n <= |actions| ensures ReadableAfter(st, cacheSize, actions, n) {
      assert FreshAfter(st, cacheSize, actions, n);
      FreshReadable(st, cacheSize, actions[..n]);
    }
  }

  /** While every record not on disk was put fresh at most half a cache of writes ago, a run of commits, rollbacks and
      flushes over the two-level store follows the chain at every step exactly when each of its actions is calm. */
  lemma {:induction false} RunFollowsIff(st: Start, cacheSize: nat, actions: seq<Action>)
    requires RunInput(st, Committed(Ops(actions))) && FreshThroughout(st, cacheSize, actions)
    ensures AgreesThroughout(st, cacheSize, actions) <==> CalmThroughout(st, cacheSize, actions)
  {
    hide *;
    FreshReadableThroughout(st, cacheSize, actions);
    RunAgreesIff(st, cacheSize, actions);
  }

  /** Such a run keeps a tree around the best header, every header of which lookups find as stored, and which is the
      bucket once nothing is pending. */
  lemma {:induction false} RunOverReads(st: Start, cacheSize: nat, actions: seq<Action>)
    requires RunInput(st, Committed(Ops(actions)))
    requires FreshThroughout(st, cacheSize, actions) && CalmThroughout(st, cacheSize, actions)
    ensures var db, c := Over(st, cacheSize, actions), RunOps(st, Ops(actions));
      && WellFormed(c, st.Root(), st.p) && db.best == Some(c.tip)
      && (forall k | k in c.headers :: GetHeader(db, k) == Some(c.headers[k]))
      && (db.pending == [] ==> db.bucket == c.headers)
  {
    hide Over, RunOps, RunInput, WellFormed, Agrees, Readable, Calm, Fresh;
    FreshReadableThroughout(st, cacheSize, actions);
    assert actions[..|actions|] == actions;
    CalmAgrees(st, cacheSize, actions, |actions|);
    assert ReadableAfter(st, cacheSize, actions, |actions|);
    RunOpsInvariant(st, Ops(actions));
    AgreementReads(Over(st, cacheSize, actions), st.Root(), st.p, RunOps(st, Ops(actions)));
  }
}
