/** The header store as a protocol: Put updates the cache at once, and a goroutine writes the bucket some time later. */
module AsyncStore {
  import opened Headers
  import opened HeaderCache

  datatype Write = Write(sh: StoredHeader, newBest: bool)

  /** The cache and best pointer in memory, the bucket and tip on disk, and the writes not flushed yet. */
  datatype Db = Db(cache: Cache, best: Option<StoredHeader>, bucket: Bucket, tip: Option<StoredHeader>, pending: seq<Write>)

  const EMPTY_DB := Db(EMPTY, None, map[], None, [])

  datatype Step = Put(w: Write) | Flush(i: nat)

  function PutStep(db: Db, cacheSize: nat, p: Params, w: Write): Db {
    db.(cache := SetHeader(db.cache, cacheSize, p.hash(w.sh.header), w.sh),
        best := if w.newBest then Some(w.sh) else db.best,
        pending := db.pending + [w])
  }

  /** Goroutines run in any order: any pending write may be the next to reach the disk. */
  function FlushStep(db: Db, p: Params, i: nat): Db
    requires i < |db.pending|
  {
    var w := db.pending[i];
    db.(bucket := db.bucket[p.hash(w.sh.header) := w.sh],
        tip := if w.newBest then Some(w.sh) else db.tip,
        pending := db.pending[..i] + db.pending[i + 1..])
  }

  function Next(db: Db, cacheSize: nat, p: Params, step: Step): Db {
    match step
    case Put(w) => PutStep(db, cacheSize, p, w)
    case Flush(i) => if i < |db.pending| then FlushStep(db, p, i) else db
  }

  function Exec(db: Db, cacheSize: nat, p: Params, steps: seq<Step>): Db
    decreases |steps|
  {
    if steps == [] then db else Exec(Next(db, cacheSize, p, steps[0]), cacheSize, p, steps[1..])
  }

  /** The write a step puts, and the one it brings to the disk. */
  function Came(step: Step): seq<Write> {
    if step.Put? then [step.w] else []
  }

  function Went(db: Db, step: Step): seq<Write> {
    if step.Flush? && step.i < |db.pending| then [db.pending[step.i]] else []
  }

  function Puts(steps: seq<Step>): seq<Write>
    decreases |steps|
  {
    if steps == [] then [] else Came(steps[0]) + Puts(steps[1..])
  }

  function Records(ws: seq<Write>): (shs: seq<StoredHeader>)
    ensures |shs| == |ws| && forall i | 0 <= i < |ws| :: shs[i] == ws[i].sh
  {
    seq(|ws|, i requires 0 <= i < |ws| => ws[i].sh)
  }

  lemma {:induction false} ExecSplit(db: Db, cacheSize: nat, p: Params, a: seq<Step>, b: seq<Step>)
    ensures Exec(db, cacheSize, p, a + b) == Exec(Exec(db, cacheSize, p, a), cacheSize, p, b)
    decreases |a|
  {
    hide Next;
    if a == [] {
      assert a + b == b;
    } else {
      assert (a + b)[0] == a[0] && (a + b)[1..] == a[1..] + b;
      ExecSplit(Next(db, cacheSize, p, a[0]), cacheSize, p, a[1..], b);
    }
  }

  lemma {:induction false} PutsSplit(a: seq<Step>, b: seq<Step>)
    ensures Puts(a + b) == Puts(a) + Puts(b)
    decreases |a|
  {
    if a == [] {
      assert a + b == b;
    } else {
      assert (a + b)[0] == a[0] && (a + b)[1..] == a[1..] + b;
      PutsSplit(a[1..], b);
    }
  }

  /** Whatever was put once with this record. */
  ghost predicate WasPut(puts: seq<Write>, sh: StoredHeader) {
    exists i | 0 <= i < |puts| :: puts[i].sh == sh
  }

  ghost predicate WasBest(puts: seq<Write>, sh: StoredHeader) {
    exists i | 0 <= i < |puts| :: puts[i].sh == sh && puts[i].newBest
  }

  /** One hash is always put with one record, as CommitHeader does. */
  ghost predicate OneRecord(p: Params, puts: seq<Write>) {
    forall i, j | 0 <= i < |puts| && 0 <= j < |puts| ::
      p.hash(puts[i].sh.header) == p.hash(puts[j].sh.header) ==> puts[i].sh == puts[j].sh
  }

  /** What any schedule of puts and flushes, from the empty store, keeps. */
  ghost predicate Inv(db: Db, p: Params, puts: seq<Write>) {
    && Ordered(db.cache)
    && (forall k | k in db.bucket :: p.hash(db.bucket[k].header) == k && WasPut(puts, db.bucket[k]))
    && (forall i | 0 <= i < |db.pending| :: db.pending[i] in puts)
    && (forall w | w in puts :: w in db.pending || p.hash(w.sh.header) in db.bucket)
    && (forall k | ByHash(k) in db.cache.entries :: Get(db.cache, k).Some?
          && p.hash(Get(db.cache, k).value.header) == k && WasPut(puts, Get(db.cache, k).value))
    && (db.tip.Some? ==> WasBest(puts, db.tip.value))
    && (db.best.Some? ==> WasBest(puts, db.best.value))
  }

  lemma {:induction false} PutKeeps(db: Db, cacheSize: nat, p: Params, puts: seq<Write>, w: Write)
    requires Inv(db, p, puts)
    ensures Inv(PutStep(db, cacheSize, p, w), p, puts + [w])
  {
    hide SetHeader;
    SetHeaderEntries(db.cache, cacheSize, p.hash(w.sh.header), w.sh);
    var puts' := puts + [w];
    assert puts'[|puts|] == w;
    forall sh | WasPut(puts, sh) ensures WasPut(puts', sh) {
      var i :| 0 <= i < |puts| && puts[i].sh == sh;
      assert puts'[i].sh == sh;
    }
    forall sh | WasBest(puts, sh) ensures WasBest(puts', sh) {
      var i :| 0 <= i < |puts| && puts[i].sh == sh && puts[i].newBest;
      assert puts'[i].sh == sh;
    }
    SetOrdered(db.cache, cacheSize, p.hash(w.sh.header), w.sh);
  }

  lemma FlushKeeps(db: Db, p: Params, puts: seq<Write>, i: nat)
    requires Inv(db, p, puts) && i < |db.pending|
    ensures Inv(FlushStep(db, p, i), p, puts)
  {
    var w, db' := db.pending[i], FlushStep(db, p, i);
    var j :| 0 <= j < |puts| && puts[j] == w;
    forall v | v in puts ensures v in db'.pending || p.hash(v.sh.header) in db'.bucket {
      if v in db.pending && v != w {
        var m :| 0 <= m < |db.pending| && db.pending[m] == v;
        assert db'.pending[if m < i then m else m - 1] == v;
      }
    }
  }

  lemma {:induction false} ExecKeeps(db: Db, cacheSize: nat, p: Params, puts: seq<Write>, steps: seq<Step>)
    requires Inv(db, p, puts)
    ensures Inv(Exec(db, cacheSize, p, steps), p, puts + Puts(steps))
    decreases |steps|
  {
    hide Inv, PutStep, FlushStep;
    if steps == [] {
      assert puts + Puts(steps) == puts;
    } else {
      match steps[0] {
        case Put(w) =>
          PutKeeps(db, cacheSize, p, puts, w);
          ExecKeeps(PutStep(db, cacheSize, p, w), cacheSize, p, puts + [w], steps[1..]);
          assert puts + [w] + Puts(steps[1..]) == puts + Puts(steps);
        case Flush(i) =>
          if i < |db.pending| {
            FlushKeeps(db, p, puts, i);
          }
          ExecKeeps(Next(db, cacheSize, p, steps[0]), cacheSize, p, puts, steps[1..]);
          assert puts + Puts(steps[1..]) == puts + Puts(steps);
      }
    }
  }

  lemma RunKeeps(cacheSize: nat, p: Params, steps: seq<Step>)
    ensures Inv(Exec(EMPTY_DB, cacheSize, p, steps), p, Puts(steps))
  {
    ExecKeeps(EMPTY_DB, cacheSize, p, [], steps);
    assert [] + Puts(steps) == Puts(steps);
  }

  /** Once nothing is pending the bucket holds exactly what was put, whatever order the flushes took; the tip on disk
      was once the best header. */
  lemma FlushedBucket(cacheSize: nat, p: Params, steps: seq<Step>)
    requires OneRecord(p, Puts(steps))
    requires Exec(EMPTY_DB, cacheSize, p, steps).pending == []
    ensures var db := Exec(EMPTY_DB, cacheSize, p, steps);
      && (forall k | k in db.bucket :: p.hash(db.bucket[k].header) == k && WasPut(Puts(steps), db.bucket[k]))
      && (forall w | w in Puts(steps) :: p.hash(w.sh.header) in db.bucket && db.bucket[p.hash(w.sh.header)] == w.sh)
      && (db.tip.Some? ==> WasBest(Puts(steps), db.tip.value))
  {
    RunKeeps(cacheSize, p, steps);
  }

  ghost predicate Drains(cacheSize: nat, p: Params, puts: seq<Write>, steps: seq<Step>) {
    Puts(steps) == puts && Exec(EMPTY_DB, cacheSize, p, steps).pending == []
  }

  /** Flushes n pending writes, number i last. */
  function DrainLast(n: nat, i: nat): seq<Step>
    requires i < n
    decreases n
  {
    if n == 1 then [Flush(0)]
    else if i == 0 then [Flush(1)] + DrainLast(n - 1, 0)
    else [Flush(0)] + DrainLast(n - 1, i - 1)
  }

  lemma {:induction false} DrainLastWins(db: Db, cacheSize: nat, p: Params, i: nat)
    requires i < |db.pending|
    ensures var w, steps := db.pending[i], DrainLast(|db.pending|, i);
      var db' := Exec(db, cacheSize, p, steps);
      && Puts(steps) == [] && db'.pending == []
      && p.hash(w.sh.header) in db'.bucket && db'.bucket[p.hash(w.sh.header)] == w.sh
    decreases |db.pending|
  {
    var steps := DrainLast(|db.pending|, i);
    var db' := Next(db, cacheSize, p, steps[0]);
    if |db.pending| == 1 {
      assert steps[1..] == [];
    } else {
      var i' := if i == 0 then 0 else i - 1;
      assert db'.pending[i'] == db.pending[i];
      assert steps[1..] == DrainLast(|db'.pending|, i');
      DrainLastWins(db', cacheSize, p, i');
    }
  }

  function PutAll(ws: seq<Write>): seq<Step> {
    if ws == [] then [] else [Put(ws[0])] + PutAll(ws[1..])
  }

  lemma {:induction false} PutAllPuts(ws: seq<Write>)
    ensures Puts(PutAll(ws)) == ws
    decreases |ws|
  {
    if ws != [] {
      assert PutAll(ws)[1..] == PutAll(ws[1..]);
      PutAllPuts(ws[1..]);
    }
  }

  lemma {:induction false} PutAllPends(db: Db, cacheSize: nat, p: Params, ws: seq<Write>)
    ensures Exec(db, cacheSize, p, PutAll(ws)).pending == db.pending + ws
    decreases |ws|
  {
    hide SetHeader;
    if ws == [] {
      assert db.pending + ws == db.pending;
    } else {
      var steps := PutAll(ws);
      var db' := Next(db, cacheSize, p, steps[0]);
      assert steps[1..] == PutAll(ws[1..]);
      PutAllPends(db', cacheSize, p, ws[1..]);
      assert db'.pending == db.pending + [ws[0]];
      assert db.pending + [ws[0]] + ws[1..] == db.pending + ws;
    }
  }

  /** A schedule that puts all of ws and then flushes ws[i] last. */
  lemma LastFlushed(cacheSize: nat, p: Params, ws: seq<Write>, i: nat) returns (steps: seq<Step>)
    requires i < |ws|
    ensures Drains(cacheSize, p, ws, steps)
    ensures var bucket := Exec(EMPTY_DB, cacheSize, p, steps).bucket;
      p.hash(ws[i].sh.header) in bucket && bucket[p.hash(ws[i].sh.header)] == ws[i].sh
  {
    PutAllPuts(ws);
    PutAllPends(EMPTY_DB, cacheSize, p, ws);
    var db := Exec(EMPTY_DB, cacheSize, p, PutAll(ws));
    assert db.pending == ws;
    DrainLastWins(db, cacheSize, p, i);
    steps := PutAll(ws) + DrainLast(|ws|, i);
    ExecSplit(EMPTY_DB, cacheSize, p, PutAll(ws), DrainLast(|ws|, i));
    PutsSplit(PutAll(ws), DrainLast(|ws|, i));
  }

  /** The bucket does not depend on the order of the flushes exactly when no hash is put with two records. */
  lemma FlushOrderIrrelevantIff(cacheSize: nat, p: Params, ws: seq<Write>)
    ensures (forall a, b | Drains(cacheSize, p, ws, a) && Drains(cacheSize, p, ws, b) ::
              Exec(EMPTY_DB, cacheSize, p, a).bucket == Exec(EMPTY_DB, cacheSize, p, b).bucket)
       <==> OneRecord(p, ws)
  {
    if OneRecord(p, ws) {
      forall a, b | Drains(cacheSize, p, ws, a) && Drains(cacheSize, p, ws, b)
        ensures Exec(EMPTY_DB, cacheSize, p, a).bucket == Exec(EMPTY_DB, cacheSize, p, b).bucket
      {
        SameBucket(cacheSize, p, ws, a, b);
      }
    } else {
      var i, j :| 0 <= i < |ws| && 0 <= j < |ws| && p.hash(ws[i].sh.header) == p.hash(ws[j].sh.header) && ws[i].sh != ws[j].sh;
      var a := LastFlushed(cacheSize, p, ws, i);
      var b := LastFlushed(cacheSize, p, ws, j);
    }
  }

  lemma {:induction false} SameBucket(cacheSize: nat, p: Params, ws: seq<Write>, a: seq<Step>, b: seq<Step>)
    requires OneRecord(p, ws) && Drains(cacheSize, p, ws, a) && Drains(cacheSize, p, ws, b)
    ensures Exec(EMPTY_DB, cacheSize, p, a).bucket == Exec(EMPTY_DB, cacheSize, p, b).bucket
  {
    FlushedBucket(cacheSize, p, a);
    FlushedBucket(cacheSize, p, b);
    var x, y := Exec(EMPTY_DB, cacheSize, p, a).bucket, Exec(EMPTY_DB, cacheSize, p, b).bucket;
    forall k | k in x || k in y ensures k in x && k in y && x[k] == y[k] {
      var sh := if k in x then x[k] else y[k];
      var i :| 0 <= i < |ws| && ws[i].sh == sh;
      assert ws[i] in ws;
    }
  }

  /** The tip on disk once the pending writes, in order, have reached it. */
  function LastBest(tip: Option<StoredHeader>, pending: seq<Write>): Option<StoredHeader>
    decreases |pending|
  {
    if pending == [] then tip
    else LastBest(if pending[0].newBest then Some(pending[0].sh) else tip, pending[1..])
  }

  lemma {:induction false} LastBestAppend(tip: Option<StoredHeader>, pending: seq<Write>, w: Write)
    ensures LastBest(tip, pending + [w]) == if w.newBest then Some(w.sh) else LastBest(tip, pending)
    decreases |pending|
  {
    if pending != [] {
      assert (pending + [w])[1..] == pending[1..] + [w];
      LastBestAppend(if pending[0].newBest then Some(pending[0].sh) else tip, pending[1..], w);
    }
  }

  predicate Fifo(steps: seq<Step>) {
    forall i | 0 <= i < |steps| :: steps[i].Flush? ==> steps[i].i == 0
  }

  lemma {:induction false} FifoTracksBest(db: Db, cacheSize: nat, p: Params, steps: seq<Step>)
    requires Fifo(steps) && LastBest(db.tip, db.pending) == db.best
    ensures var db' := Exec(db, cacheSize, p, steps); LastBest(db'.tip, db'.pending) == db'.best
    decreases |steps|
  {
    if steps != [] {
      var db' := Next(db, cacheSize, p, steps[0]);
      if steps[0].Put? {
        LastBestAppend(db.tip, db.pending, steps[0].w);
      } else if db.pending != [] {
        assert db'.pending == db.pending[1..];
      }
      FifoTracksBest(db', cacheSize, p, steps[1..]);
    }
  }

  /** If writes reach the disk in the order they were put, the tip on disk ends as the best header in memory. */
  lemma FifoTip(cacheSize: nat, p: Params, steps: seq<Step>)
    requires Fifo(steps) && Exec(EMPTY_DB, cacheSize, p, steps).pending == []
    ensures Exec(EMPTY_DB, cacheSize, p, steps).tip == Exec(EMPTY_DB, cacheSize, p, steps).best
  {
    FifoTracksBest(EMPTY_DB, cacheSize, p, steps);
  }

  /** Out of order it need not: two best headers flushed in reverse leave the older one as the tip on disk. */
  lemma ReorderedTip(cacheSize: nat, p: Params, older: StoredHeader, newer: StoredHeader)
    requires older != newer
    ensures var db := Exec(EMPTY_DB, cacheSize, p, [Put(Write(older, true)), Put(Write(newer, true)), Flush(1), Flush(0)]);
      db.pending == [] && db.tip == Some(older) && db.best == Some(newer)
  {
    var a, b := Write(older, true), Write(newer, true);
    var db2 := PutStep(PutStep(EMPTY_DB, cacheSize, p, a), cacheSize, p, b);
    assert db2.pending == [a, b];
    var db3 := FlushStep(db2, p, 1);
    assert db3.pending == [a];
    var steps := [Put(a), Put(b), Flush(1), Flush(0)];
    assert steps[1..] == [Put(b), Flush(1), Flush(0)] && steps[1..][1..] == [Flush(1), Flush(0)];
    assert steps[1..][1..][1..] == [Flush(0)] && [Flush(0)][1..] == [];
    assert Exec(db2, cacheSize, p, [Flush(1), Flush(0)]) == Exec(db3, cacheSize, p, [Flush(0)]);
  }

  /** The best header in memory is the last one put as the best. */
  lemma {:induction false} ExecTracksBest(db: Db, cacheSize: nat, p: Params, steps: seq<Step>)
    ensures Exec(db, cacheSize, p, steps).best == LastBest(db.best, Puts(steps))
    decreases |steps|
  {
    if steps != [] {
      ExecTracksBest(Next(db, cacheSize, p, steps[0]), cacheSize, p, steps[1..]);
      if steps[0].Put? {
        assert Puts(steps)[1..] == Puts(steps[1..]);
      } else {
        assert Puts(steps) == Puts(steps[1..]);
      }
    }
  }

  /** The writes in the order they reached the disk. */
  function Landed(db: Db, cacheSize: nat, p: Params, steps: seq<Step>): seq<Write>
    decreases |steps|
  {
    if steps == [] then [] else Went(db, steps[0]) + Landed(Next(db, cacheSize, p, steps[0]), cacheSize, p, steps[1..])
  }

  lemma StepPending(db: Db, cacheSize: nat, p: Params, step: Step)
    ensures multiset(Next(db, cacheSize, p, step).pending) + multiset(Went(db, step))
         == multiset(db.pending) + multiset(Came(step))
  {
    hide SetHeader;
    if step.Flush? && step.i < |db.pending| {
      Removed(db.pending, step.i);
    }
  }

  /** What has been put has reached the disk or is pending, each write once. */
  lemma {:induction false} LandedOrPending(db: Db, cacheSize: nat, p: Params, steps: seq<Step>)
    ensures multiset(Landed(db, cacheSize, p, steps)) + multiset(Exec(db, cacheSize, p, steps).pending)
         == multiset(db.pending) + multiset(Puts(steps))
    decreases |steps|
  {
    hide Next, Went, Came;
    if steps != [] {
      var next := Next(db, cacheSize, p, steps[0]);
      LandedOrPending(next, cacheSize, p, steps[1..]);
      StepPending(db, cacheSize, p, steps[0]);
      var went, came := multiset(Went(db, steps[0])), multiset(Came(steps[0]));
      var left, landed := multiset(Exec(next, cacheSize, p, steps[1..]).pending), multiset(Landed(next, cacheSize, p, steps[1..]));
      calc {
        multiset(Landed(db, cacheSize, p, steps)) + multiset(Exec(db, cacheSize, p, steps).pending);
        went + landed + left;
        went + (landed + left);
        went + multiset(next.pending) + multiset(Puts(steps[1..]));
        multiset(db.pending) + came + multiset(Puts(steps[1..]));
        multiset(db.pending) + multiset(Puts(steps));
      }
    }
  }

  lemma Removed<T>(s: seq<T>, i: nat)
    requires i < |s|
    ensures multiset(s[..i] + s[i + 1..]) + multiset{s[i]} == multiset(s)
  {
    assert s == s[..i] + [s[i]] + s[i + 1..];
  }

  /** The tip on disk is the last best write that reached it. */
  lemma {:induction false} LandedIsDisk(db: Db, cacheSize: nat, p: Params, steps: seq<Step>)
    ensures Exec(db, cacheSize, p, steps).tip == LastBest(db.tip, Landed(db, cacheSize, p, steps))
    decreases |steps|
  {
    hide SetHeader, Landed;
    if steps != [] {
      var next := Next(db, cacheSize, p, steps[0]);
      LandedIsDisk(next, cacheSize, p, steps[1..]);
      LandedStep(db, cacheSize, p, steps);
    } else {
      LandedNone(db, cacheSize, p);
    }
  }

  lemma LandedNone(db: Db, cacheSize: nat, p: Params)
    ensures Landed(db, cacheSize, p, []) == []
  {
  }

  lemma LandedStep(db: Db, cacheSize: nat, p: Params, steps: seq<Step>)
    requires steps != []
    ensures var landed, next := Landed(db, cacheSize, p, steps), Next(db, cacheSize, p, steps[0]);
      if steps[0].Flush? && steps[0].i < |db.pending| then
        landed != [] && landed[0] == db.pending[steps[0].i] && landed[1..] == Landed(next, cacheSize, p, steps[1..])
      else
        landed == Landed(next, cacheSize, p, steps[1..])
  {
    hide SetHeader;
  }

  lemma {:induction false} LandedSplit(db: Db, cacheSize: nat, p: Params, a: seq<Step>, b: seq<Step>)
    ensures Landed(db, cacheSize, p, a + b)
         == Landed(db, cacheSize, p, a) + Landed(Exec(db, cacheSize, p, a), cacheSize, p, b)
    decreases |a|
  {
    hide Next, Went;
    if a == [] {
      assert a + b == b;
    } else {
      assert (a + b)[0] == a[0] && (a + b)[1..] == a[1..] + b;
      LandedSplit(Next(db, cacheSize, p, a[0]), cacheSize, p, a[1..], b);
    }
  }

  /** The bucket on disk is what the writes that reached it, in that order, add up to. */
  lemma {:induction false} LandedIsBucket(cacheSize: nat, p: Params, steps: seq<Step>)
    ensures Exec(EMPTY_DB, cacheSize, p, steps).bucket == SyncBucket(p, Landed(EMPTY_DB, cacheSize, p, steps))
    decreases |steps|
  {
    hide Landed, SetHeader;
    if steps == [] {
      LandedNone(EMPTY_DB, cacheSize, p);
    } else {
      var init, last := steps[..|steps| - 1], steps[|steps| - 1];
      var db, landed := Exec(EMPTY_DB, cacheSize, p, init), Landed(EMPTY_DB, cacheSize, p, init);
      assert steps == init + [last] && [last][1..] == [];
      LandedIsBucket(cacheSize, p, init);
      ExecSplit(EMPTY_DB, cacheSize, p, init, [last]);
      LandedSplit(EMPTY_DB, cacheSize, p, init, [last]);
      LandedOne(db, cacheSize, p, last);
      assert Exec(db, cacheSize, p, [last]) == Next(db, cacheSize, p, last);
      var went := Went(db, last);
      if went == [] {
        assert landed + went == landed;
      } else {
        assert (landed + went)[..|landed|] == landed;
      }
    }
  }

  lemma LandedOne(db: Db, cacheSize: nat, p: Params, step: Step)
    ensures Landed(db, cacheSize, p, [step]) == Went(db, step)
  {
    assert [step][1..] == [];
    LandedNone(Next(db, cacheSize, p, step), cacheSize, p);
  }

  lemma FifoPending(db: Db, cacheSize: nat, p: Params, step: Step)
    requires step.Flush? ==> step.i == 0
    ensures Went(db, step) + Next(db, cacheSize, p, step).pending == db.pending + Came(step)
  {
    hide SetHeader;
  }

  /** If flushes are first-in-first-out, what reached the disk and what is pending are, in order, what was put. */
  lemma {:induction false} LandedInOrder(db: Db, cacheSize: nat, p: Params, steps: seq<Step>)
    requires Fifo(steps)
    ensures Landed(db, cacheSize, p, steps) + Exec(db, cacheSize, p, steps).pending == db.pending + Puts(steps)
    decreases |steps|
  {
    hide Next, Went, Came;
    if steps != [] {
      var next := Next(db, cacheSize, p, steps[0]);
      var landed, left := Landed(next, cacheSize, p, steps[1..]), Exec(next, cacheSize, p, steps[1..]).pending;
      LandedInOrder(next, cacheSize, p, steps[1..]);
      FifoPending(db, cacheSize, p, steps[0]);
      calc {
        Landed(db, cacheSize, p, steps) + Exec(db, cacheSize, p, steps).pending;
        Went(db, steps[0]) + landed + left;
        Went(db, steps[0]) + (landed + left);
        Went(db, steps[0]) + next.pending + Puts(steps[1..]);
        db.pending + Came(steps[0]) + Puts(steps[1..]);
        db.pending + Puts(steps);
      }
    }
  }

  /** sh was written as the best header, and no write after it was one. */
  ghost predicate IsLastBest(ws: seq<Write>, sh: StoredHeader) {
    exists i | 0 <= i < |ws| :: ws[i] == Write(sh, true) && forall j | i < j < |ws| :: !ws[j].newBest
  }

  lemma {:induction false} LastBestMeans(ws: seq<Write>, sh: StoredHeader)
    ensures LastBest(None, ws) == Some(sh) <==> IsLastBest(ws, sh)
    decreases |ws|
  {
    if ws != [] {
      var init, last := ws[..|ws| - 1], ws[|ws| - 1];
      assert ws == init + [last];
      LastBestAppend(None, init, last);
      LastBestMeans(init, sh);
      if last.newBest {
        assert ws[|ws| - 1].newBest;
      } else if IsLastBest(init, sh) {
        var i :| 0 <= i < |init| && init[i] == Write(sh, true) && forall j | i < j < |init| :: !init[j].newBest;
        assert ws[i] == Write(sh, true);
      }
    }
  }

  /** In any schedule the tip on disk is the best header, the last put as such, exactly when its record is also the last
      best write to have reached the disk; what reached it is what was put and is not pending. */
  lemma TipIsBestIff(cacheSize: nat, p: Params, steps: seq<Step>, best: StoredHeader)
    requires IsLastBest(Puts(steps), best)
    ensures var db := Exec(EMPTY_DB, cacheSize, p, steps);
      && db.best == Some(best)
      && (db.tip == db.best <==> IsLastBest(Landed(EMPTY_DB, cacheSize, p, steps), best))
      && multiset(Landed(EMPTY_DB, cacheSize, p, steps)) + multiset(db.pending) == multiset(Puts(steps))
  {
    LandedOrPending(EMPTY_DB, cacheSize, p, steps);
    LastBestMeans(Puts(steps), best);
    ExecTracksBest(EMPTY_DB, cacheSize, p, steps);
    LandedIsDisk(EMPTY_DB, cacheSize, p, steps);
    LastBestMeans(Landed(EMPTY_DB, cacheSize, p, steps), best);
  }

  /** GetHeader asks the cache first, then the bucket. */
  function GetHeader(db: Db, hash: Hash): Option<StoredHeader> {
    var cached := Get(db.cache, hash);
    if cached.Some? then cached else Look(db.bucket, hash)
  }

  function Look(s: Bucket, k: Hash): Option<StoredHeader> {
    if k in s then Some(s[k]) else None
  }

  lemma {:induction false} CacheSeesPuts(db: Db, cacheSize: nat, p: Params, steps: seq<Step>)
    ensures Exec(db, cacheSize, p, steps).cache == SetAll(db.cache, cacheSize, p, Records(Puts(steps)))
    decreases |steps|
  {
    hide SetHeader;
    if steps != [] {
      CacheSeesPuts(Next(db, cacheSize, p, steps[0]), cacheSize, p, steps[1..]);
      if steps[0].Put? {
        assert Records(Puts(steps))[1..] == Records(Puts(steps[1..]));
      } else {
        assert Puts(steps) == Puts(steps[1..]);
      }
    }
  }

  /** Step n put w under a hash the cache did not hold, and at most cacheSize / 2 puts came after. */
  ghost predicate FreshAt(cacheSize: nat, p: Params, steps: seq<Step>, n: nat, w: Write) {
    && n < |steps| && steps[n] == Put(w)
    && ByHash(p.hash(w.sh.header)) !in Exec(EMPTY_DB, cacheSize, p, steps[..n]).cache.entries
    && |Puts(steps[n + 1..])| <= cacheSize / 2
  }

  /** A header put fresh at most cacheSize / 2 puts ago is found, flushed or not. */
  lemma {:induction false} ReadsFreshPut(cacheSize: nat, p: Params, steps: seq<Step>, n: nat, w: Write)
    requires OneRecord(p, Puts(steps)) && FreshAt(cacheSize, p, steps, n, w)
    ensures GetHeader(Exec(EMPTY_DB, cacheSize, p, steps), p.hash(w.sh.header)) == Some(w.sh)
  {
    hide Inv, SetAll, SetHeader, Exec, OneRecord;
    var a, b := steps[..n], steps[n + 1..];
    var before, rest := Exec(EMPTY_DB, cacheSize, p, a), [Put(w)] + b;
    assert steps == a + rest && rest[1..] == b;
    ExecSplit(EMPTY_DB, cacheSize, p, a, rest);
    PutsSplit(a, rest);
    RunOrdered(cacheSize, p, a);
    CacheSeesPuts(before, cacheSize, p, rest);
    assert Puts(rest) == [w] + Puts(b);
    assert Puts(steps) == Puts(a) + ([w] + Puts(b));
    var later := Records(Puts(b));
    assert Records(Puts(rest)) == [w.sh] + later;
    LaterRecords(p, Puts(a), w, Puts(b));
    Retention(before.cache, cacheSize, p, w.sh, later);
  }

  lemma RunOrdered(cacheSize: nat, p: Params, steps: seq<Step>)
    ensures Ordered(Exec(EMPTY_DB, cacheSize, p, steps).cache)
  {
    RunKeeps(cacheSize, p, steps);
  }

  lemma LaterRecords(p: Params, a: seq<Write>, w: Write, b: seq<Write>)
    requires OneRecord(p, a + ([w] + b))
    ensures forall other | other in Records(b) && p.hash(other.header) == p.hash(w.sh.header) :: other == w.sh
  {
    var all := a + ([w] + b);
    forall i | 0 <= i < |b| ensures p.hash(b[i].sh.header) == p.hash(w.sh.header) ==> b[i].sh == w.sh {
      assert all[|a|] == w && all[|a| + 1 + i] == b[i];
    }
  }

  /** The store a synchronous Put would have built. */
  function SyncBucket(p: Params, ws: seq<Write>): Bucket
    decreases |ws|
  {
    if ws == [] then map[]
    else SyncBucket(p, ws[..|ws| - 1])[p.hash(ws[|ws| - 1].sh.header) := ws[|ws| - 1].sh]
  }

  lemma {:induction false} SyncBucketHolds(p: Params, ws: seq<Write>)
    requires OneRecord(p, ws)
    ensures forall w | w in ws :: Look(SyncBucket(p, ws), p.hash(w.sh.header)) == Some(w.sh)
    ensures forall k | k in SyncBucket(p, ws) :: WasPut(ws, SyncBucket(p, ws)[k]) && p.hash(SyncBucket(p, ws)[k].header) == k
    decreases |ws|
  {
    if ws != [] {
      var init, last := ws[..|ws| - 1], ws[|ws| - 1];
      SyncBucketHolds(p, init);
      forall w | w in ws ensures Look(SyncBucket(p, ws), p.hash(w.sh.header)) == Some(w.sh) {
        var i :| 0 <= i < |ws| && ws[i] == w;
        if p.hash(w.sh.header) != p.hash(last.sh.header) {
          assert w in init;
        }
      }
      forall k | k in SyncBucket(p, ws) ensures WasPut(ws, SyncBucket(p, ws)[k]) {
        if k == p.hash(last.sh.header) {
          assert ws[|ws| - 1].sh == last.sh;
        } else {
          var i :| 0 <= i < |init| && init[i].sh == SyncBucket(p, init)[k];
          assert ws[i].sh == SyncBucket(p, ws)[k];
        }
      }
    }
  }

  /** Every record not on disk yet was put fresh at most cacheSize / 2 puts ago. */
  ghost predicate Covered(cacheSize: nat, p: Params, steps: seq<Step>) {
    var db := Exec(EMPTY_DB, cacheSize, p, steps);
    forall w | w in db.pending && p.hash(w.sh.header) !in db.bucket ::
      exists n, v: Write :: v.sh == w.sh && FreshAt(cacheSize, p, steps, n, v)
  }

  /** Refinement: on a covered schedule GetHeader answers as a synchronous store would, for every hash. */
  lemma {:induction false} AsyncRefinesSync(cacheSize: nat, p: Params, steps: seq<Step>, hash: Hash)
    requires OneRecord(p, Puts(steps))
    requires Covered(cacheSize, p, steps)
    ensures GetHeader(Exec(EMPTY_DB, cacheSize, p, steps), hash) == Look(SyncBucket(p, Puts(steps)), hash)
  {
    hide Exec, Puts, SyncBucket, FreshAt;
    var db, ws := Exec(EMPTY_DB, cacheSize, p, steps), Puts(steps);
    RunKeeps(cacheSize, p, steps);
    SyncBucketHolds(p, ws);
    AnswersArePuts(db, p, ws, hash);
    var answer, sync := GetHeader(db, hash), Look(SyncBucket(p, ws), hash);
    if answer.Some? {
      var i :| 0 <= i < |ws| && ws[i].sh == answer.value;
      assert ws[i] in ws;
    } else if sync.Some? {
      var i :| 0 <= i < |ws| && ws[i].sh == sync.value;
      assert ws[i] in ws && ws[i] in db.pending && hash !in db.bucket;
      var n, v: Write :| v.sh == ws[i].sh && FreshAt(cacheSize, p, steps, n, v);
      ReadsFreshPut(cacheSize, p, steps, n, v);
      assert false;
    }
  }

  lemma AnswersArePuts(db: Db, p: Params, puts: seq<Write>, hash: Hash)
    requires Inv(db, p, puts)
    ensures var answer := GetHeader(db, hash);
      && (answer.Some? ==> WasPut(puts, answer.value) && p.hash(answer.value.header) == hash)
      && (answer.None? ==> hash !in db.bucket && forall w | w in puts && p.hash(w.sh.header) == hash :: w in db.pending)
  {
  }
}
