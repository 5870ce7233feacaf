/** The chain over the two-level store: commits and rollbacks that act on what lookups answer, and goroutines that flush
    their writes in between. */
module TwoLevel {
  import opened Headers
  import opened Compact
  import opened HeaderTree
  import opened ForkChoice
  import opened Rollback
  import opened Runs
  import opened HeaderCache
  import opened AsyncStore
  import opened HeaderStore
  import opened Reads

  /** An operation of the chain, or one goroutine that brings its write to the disk. */
  datatype Action = Do(op: Op) | FlushOne(i: nat)

  function PutWrites(db: Db, cacheSize: nat, p: Params, ws: seq<Write>): Db
    decreases |ws|
  {
    if ws == [] then db else PutWrites(PutStep(db, cacheSize, p, ws[0]), cacheSize, p, ws[1..])
  }

  /** Headers above the new tip leave the bucket, and the new tip is put as the best header. Where the tip is the built-in
      checkpoint the code deletes above the checkpoint's own height, which is that of its record. */
  function RollTo(db: Db, cacheSize: nat, p: Params, sh: StoredHeader): Db {
    PutStep(db.(bucket := KeptUpTo(db.bucket, sh.height)), cacheSize, p, Write(sh, true))
  }

  /** Where a rollback would move the best header; nowhere if that may stay or no lookup leads to a stop. */
  function Move(db: Db, best: StoredHeader, p: Params, t: int, checkpoint: Hash): Option<StoredHeader> {
    var stop := StopAt(Seen(db), p, best, t, checkpoint);
    if stop.Some? && p.hash(stop.value.header) == p.hash(best.header) then None else stop
  }

  function StepOver(db: Db, cacheSize: nat, p: Params, a: Action): Db {
    match a
    case FlushOne(i) => Next(db, cacheSize, p, Flush(i))
    case Do(op) =>
      if db.best.None? then db else
      match op
      case CommitOp(header) => PutWrites(db, cacheSize, p, WritesOver(Seen(db), db.best.value, p, header))
      case RollbackOp(t, checkpoint) =>
        var move := Move(db, db.best.value, p, t, checkpoint);
        if move.None? then db else RollTo(db, cacheSize, p, move.value)
  }

  /** The writes an action makes, to the cache at once and to the disk some time later. */
  function Made(db: Db, p: Params, a: Action): seq<Write> {
    if a.FlushOne? || db.best.None? then [] else
    match a.op
    case CommitOp(header) => WritesOver(Seen(db), db.best.value, p, header)
    case RollbackOp(t, checkpoint) =>
      var move := Move(db, db.best.value, p, t, checkpoint);
      if move.None? then [] else [Write(move.value, true)]
  }

  /** The store after the actions, from one into which NewBlockchain has put the checkpoint. */
  function Over(st: Start, cacheSize: nat, actions: seq<Action>): Db
    decreases |actions|
  {
    if actions == [] then PutStep(EMPTY_DB, cacheSize, st.p, Write(st.First(), true))
    else StepOver(Over(st, cacheSize, actions[..|actions| - 1]), cacheSize, st.p, actions[|actions| - 1])
  }

  function Ops(actions: seq<Action>): seq<Op>
    decreases |actions|
  {
    if actions == [] then []
    else Ops(actions[..|actions| - 1]) + if actions[|actions| - 1].Do? then [actions[|actions| - 1].op] else []
  }

  ghost predicate Awaits(db: Db, p: Params, k: Hash) {
    exists i | 0 <= i < |db.pending| :: p.hash(db.pending[i].sh.header) == k
  }

  /** Bucket and pending writes together are the chain, and the cache agrees wherever the chain has an answer. What the
      cache holds beyond that is stale. */
  ghost predicate Agrees(db: Db, root: Hash, p: Params, c: Chain) {
    && Valid(c, root, p)
    && db.best == Some(c.tip)
    && (forall k | k in db.bucket :: k in c.headers && db.bucket[k] == c.headers[k])
    && (forall i | 0 <= i < |db.pending| :: InChain(c, p, db.pending[i].sh))
    && (forall k | k in c.headers :: k in db.bucket || Awaits(db, p, k))
    && (forall k | Get(db.cache, k).Some? ::
          k != c.headers[root].header.prev && (k in c.headers ==> Get(db.cache, k) == Some(c.headers[k])))
  }

  ghost predicate InChain(c: Chain, p: Params, sh: StoredHeader) {
    p.hash(sh.header) in c.headers && c.headers[p.hash(sh.header)] == sh
  }

  /** Lookups find what has yet to reach the disk. */
  ghost predicate Readable(db: Db, p: Params) {
    forall i | 0 <= i < |db.pending| :: GetHeader(db, p.hash(db.pending[i].sh.header)).Some?
  }

  /** In agreement, lookups find the whole chain exactly when they find what is pending. */
  lemma {:induction false} ReadsAgree(db: Db, root: Hash, p: Params, c: Chain)
    requires Agrees(db, root, p, c)
    ensures Covers(Seen(db), c, root) <==> Readable(db, p)
  {
    forall k ensures Look(Seen(db), k) == GetHeader(db, k) {
    }
    if Readable(db, p) {
      forall k | k in c.headers ensures Look(Seen(db), k) == Some(c.headers[k]) {
        if k !in db.bucket {
          var i :| 0 <= i < |db.pending| && p.hash(db.pending[i].sh.header) == k;
          assert GetHeader(db, k).Some?;
        }
      }
      var below := c.headers[root].header.prev;
      assert Look(Seen(db), below) == GetHeader(db, below);
    } else {
      var i :| 0 <= i < |db.pending| && GetHeader(db, p.hash(db.pending[i].sh.header)).None?;
      assert InChain(c, p, db.pending[i].sh);
      assert Look(Seen(db), p.hash(db.pending[i].sh.header)).None?;
    }
  }

  /** The action neither builds on a header that only the cache still holds nor rolls back below a pending write. */
  ghost predicate Calm(db: Db, p: Params, a: Action) {
    db.best.None? || a.FlushOne? ||
    match a.op
    case CommitOp(header) =>
      WritesOver(Seen(db), db.best.value, p, header) == [] || header.prev in db.bucket || Awaits(db, p, header.prev)
    case RollbackOp(t, checkpoint) =>
      var move := Move(db, db.best.value, p, t, checkpoint);
      move.None? || forall i | 0 <= i < |db.pending| :: db.pending[i].sh.height <= move.value.height
  }

  ghost function Abstract(c: Chain, root: Hash, p: Params, a: Action): Chain {
    if a.Do? then StepOp(c, root, p, a.op) else c
  }

  lemma {:induction false} FlushAgrees(db: Db, root: Hash, p: Params, c: Chain, cacheSize: nat, i: nat)
    requires Agrees(db, root, p, c)
    ensures Agrees(StepOver(db, cacheSize, p, FlushOne(i)), root, p, c)
  {
    if i < |db.pending| {
      var db' := FlushStep(db, p, i);
      assert InChain(c, p, db.pending[i].sh);
      forall k | k in c.headers ensures k in db'.bucket || Awaits(db', p, k) {
        if k !in db.bucket && k != p.hash(db.pending[i].sh.header) {
          var j :| 0 <= j < |db.pending| && p.hash(db.pending[j].sh.header) == k;
          assert db'.pending[if j < i then j else j - 1] == db.pending[j];
        }
      }
    }
  }

  /** Agreement but for the best header and for what the cache, the bucket and the pending writes say of one hash. */
  ghost predicate AgreesBut(db: Db, root: Hash, p: Params, c: Chain, hash: Hash) {
    && Valid(c, root, p)
    && (forall k | k in db.bucket :: k in c.headers && db.bucket[k] == c.headers[k])
    && (forall i | 0 <= i < |db.pending| :: InChain(c, p, db.pending[i].sh))
    && (forall k | k in c.headers && k != hash :: k in db.bucket || Awaits(db, p, k))
    && (forall k | k != hash && Get(db.cache, k).Some? ::
          k != c.headers[root].header.prev && (k in c.headers ==> Get(db.cache, k) == Some(c.headers[k])))
  }

  /** Putting a record of the chain makes up for what was missing of it. */
  lemma {:induction false} PutAgrees(db: Db, root: Hash, p: Params, c: Chain, cacheSize: nat, w: Write)
    requires AgreesBut(db, root, p, c, p.hash(w.sh.header)) && InChain(c, p, w.sh)
    requires (if w.newBest then Some(w.sh) else db.best) == Some(c.tip)
    ensures Agrees(PutStep(db, cacheSize, p, w), root, p, c)
  {
    hide SetHeader;
    var db', hash := PutStep(db, cacheSize, p, w), p.hash(w.sh.header);
    SetHeaderEntries(db.cache, cacheSize, hash, w.sh);
    assert db'.pending[|db.pending|] == w;
    forall k | k in c.headers ensures k in db'.bucket || Awaits(db', p, k) {
      if k !in db'.bucket && k != hash {
        var j :| 0 <= j < |db.pending| && p.hash(db.pending[j].sh.header) == k;
        assert db'.pending[j] == db.pending[j];
      }
    }
  }

  /** Above a header the chain holds, the commit over the store does what the commit to the chain does. */
  lemma {:induction false} CommitAgrees(db: Db, root: Hash, p: Params, c: Chain, cacheSize: nat, header: Header)
    requires Agrees(db, root, p, c) && Readable(db, p)
    requires HasRoom(c.headers) && NoCollision(c.headers, root, p, header) && header.prev in c.headers
    ensures Agrees(StepOver(db, cacheSize, p, Do(CommitOp(header))), root, p, Commit(c, root, p, header))
  {
    hide PutStep, WritesOver, WritesOf, Commit, Valid, AgreesBut;
    ReadsAgree(db, root, p, c);
    WritesCovered(Seen(db), c, root, p, header);
    CommitKeeps(c, root, p, header);
    CommitIsWrite(c, root, p, header);
    var ws := WritesOf(c, root, p, header);
    if ws != [] {
      ExtensionGrows(db, root, p, c, header);
      PutAgrees(db, root, p, Commit(c, root, p, header), cacheSize, ws[0]);
      assert ws[1..] == [];
      assert PutWrites(db, cacheSize, p, ws) == PutStep(db, cacheSize, p, ws[0]);
    }
  }

  /** A commit to the chain changes it by the one write it issues. */
  lemma CommitIsWrite(c: Chain, root: Hash, p: Params, header: Header)
    requires Valid(c, root, p) && HasRoom(c.headers)
    ensures var ws, c' := WritesOf(c, root, p, header), Commit(c, root, p, header);
      if ws == [] then c' == c else
        && |ws| == 1 && ws[0].sh.header == header
        && c'.headers == c.headers[p.hash(header) := ws[0].sh]
        && c'.tip == if ws[0].newBest then ws[0].sh else c.tip
  {
    hide Accepts, CalcWork, Valid;
  }

  lemma {:induction false} ExtensionGrows(db: Db, root: Hash, p: Params, c: Chain, header: Header)
    requires Agrees(db, root, p, c)
    requires HasRoom(c.headers) && NoCollision(c.headers, root, p, header) && header.prev in c.headers
    requires WritesOf(c, root, p, header) != [] && Valid(Commit(c, root, p, header), root, p)
    ensures AgreesBut(db, root, p, Commit(c, root, p, header), p.hash(header))
  {
    hide Valid, Commit, CalcWork;
    CommitIsWrite(c, root, p, header);
    var c', hash := Commit(c, root, p, header), p.hash(header);
    if hash in c.headers {
      StoredIsExtension(c, root, p, header);
    }
    assert forall k | k in c.headers :: c'.headers[k] == c.headers[k];
    RootStored(c, root, p);
    forall i | 0 <= i < |db.pending| ensures InChain(c', p, db.pending[i].sh) {
      assert InChain(c, p, db.pending[i].sh);
    }
  }

  lemma RootStored(c: Chain, root: Hash, p: Params)
    requires Valid(c, root, p)
    ensures root in c.headers && c.headers[root].header.prev !in c.headers
  {
  }

  /** On a stale header, whatever the commit stores the chain does not hold. */
  lemma {:induction false} StaleCommit(db: Db, root: Hash, p: Params, c: Chain, cacheSize: nat, header: Header)
    requires Agrees(db, root, p, c) && Readable(db, p)
    requires HasRoom(c.headers) && NoCollision(c.headers, root, p, header) && header.prev !in c.headers
    ensures Agrees(StepOver(db, cacheSize, p, Do(CommitOp(header))), root, p, c)
       <==> WritesOver(Seen(db), c.tip, p, header) == []
  {
    hide MeetsRules, CommonOver, Valid, SetHeader;
    ReadsAgree(db, root, p, c);
    assert p.hash(c.tip.header) in c.headers by { TipStored(c, root, p); }
    var ws := WritesOver(Seen(db), c.tip, p, header);
    if ws != [] {
      var db' := PutStep(db, cacheSize, p, ws[0]);
      assert ws[1..] == [] && PutWrites(db, cacheSize, p, ws) == db';
      assert db'.pending[|db.pending|] == ws[0];
      if InChain(c, p, ws[0].sh) {
        assert header.prev in Seen(db);
        RootLinked(c, root, p, p.hash(header));
        assert false;
      }
    }
  }

  lemma TipStored(c: Chain, root: Hash, p: Params)
    requires Valid(c, root, p)
    ensures p.hash(c.tip.header) in c.headers
  {
  }

  lemma RootLinked(c: Chain, root: Hash, p: Params, k: Hash)
    requires Valid(c, root, p) && k in c.headers
    ensures k == root || c.headers[k].header.prev in c.headers
  {
    assert Linked(c.headers, root, k);
  }

  /** A rollback that moves agrees with the chain's exactly when no write above its stop is pending. */
  lemma {:induction false} RollbackAgreesIff(db: Db, root: Hash, p: Params, c: Chain, cacheSize: nat, t: int, checkpoint: Hash)
    requires Agrees(db, root, p, c) && Readable(db, p)
    ensures Agrees(StepOver(db, cacheSize, p, Do(RollbackOp(t, checkpoint))), root, p, RolledBack(c, root, p, t, checkpoint))
       <==> Calm(db, p, Do(RollbackOp(t, checkpoint)))
  {
    hide SetHeader, StopAt;
    ReadsAgree(db, root, p, c);
    var tip := p.hash(c.tip.header);
    StopCovered(Seen(db), c, root, p, tip, t, checkpoint);
    StopIsNearest(c, root, p, tip, t, checkpoint);
    RollbackKeeps(c, root, p, t, checkpoint);
    var stop, c' := StopAt(c.headers, p, c.tip, t, checkpoint), RolledBack(c, root, p, t, checkpoint);
    if stop.Some? && p.hash(stop.value.header) != tip {
      assert c'.headers[root].header == c.headers[root].header;
      RollToAgreesIff(db, root, p, c, c', cacheSize, stop.value);
    } else {
      assert Move(db, c.tip, p, t, checkpoint) == None && c' == c;
    }
  }

  lemma {:induction false} RollToAgreesIff(db: Db, root: Hash, p: Params, c: Chain, c': Chain, cacheSize: nat, sh: StoredHeader)
    requires Agrees(db, root, p, c) && Valid(c', root, p)
    requires c' == Chain(KeptUpTo(c.headers, sh.height), sh) && InChain(c, p, sh)
    requires c'.headers[root].header == c.headers[root].header
    ensures Agrees(RollTo(db, cacheSize, p, sh), root, p, c')
       <==> forall i | 0 <= i < |db.pending| :: db.pending[i].sh.height <= sh.height
  {
    hide Valid, SetHeader;
    var kept, db' := db.(bucket := KeptUpTo(db.bucket, sh.height)), RollTo(db, cacheSize, p, sh);
    if forall i | 0 <= i < |db.pending| :: db.pending[i].sh.height <= sh.height {
      forall i | 0 <= i < |kept.pending| ensures InChain(c', p, kept.pending[i].sh) {
        assert InChain(c, p, db.pending[i].sh);
      }
      forall k | k in c'.headers && k != p.hash(sh.header) ensures k in kept.bucket || Awaits(kept, p, k) {
        if k !in db.bucket {
          var j :| 0 <= j < |db.pending| && p.hash(db.pending[j].sh.header) == k;
          assert kept.pending[j] == db.pending[j];
        }
      }
      PutAgrees(kept, root, p, c', cacheSize, Write(sh, true));
    } else {
      var i :| 0 <= i < |db.pending| && db.pending[i].sh.height > sh.height;
      assert db'.pending[i] == db.pending[i];
      assert !InChain(c', p, db'.pending[i].sh);
    }
  }

  /** From agreement with everything readable, one action keeps the agreement exactly when it is calm. */
  lemma {:induction false} StepAgreesIff(db: Db, root: Hash, p: Params, c: Chain, cacheSize: nat, a: Action)
    requires Agrees(db, root, p, c) && Readable(db, p)
    requires a.Do? && a.op.CommitOp? ==> HasRoom(c.headers) && NoCollision(c.headers, root, p, a.op.header)
    ensures Agrees(StepOver(db, cacheSize, p, a), root, p, Abstract(c, root, p, a)) <==> Calm(db, p, a)
  {
    hide StepOver, WritesOver;
    match a
    case FlushOne(i) => FlushAgrees(db, root, p, c, cacheSize, i);
    case Do(RollbackOp(t, checkpoint)) => RollbackAgreesIff(db, root, p, c, cacheSize, t, checkpoint);
    case Do(CommitOp(header)) =>
      assert header.prev in c.headers <==> header.prev in db.bucket || Awaits(db, p, header.prev);
      if header.prev in c.headers {
        CommitAgrees(db, root, p, c, cacheSize, header);
      } else {
        StaleCommit(db, root, p, c, cacheSize, header);
      }
  }

  lemma OverSnoc(st: Start, cacheSize: nat, actions: seq<Action>, a: Action)
    ensures Over(st, cacheSize, actions + [a]) == StepOver(Over(st, cacheSize, actions), cacheSize, st.p, a)
    ensures Ops(actions + [a]) == if a.Do? then Ops(actions) + [a.op] else Ops(actions)
  {
    assert (actions + [a])[..|actions|] == actions;
    assert Ops(actions) + [] == Ops(actions);
  }

  lemma StartAgrees(st: Start, cacheSize: nat)
    requires RunInput(st, [])
    ensures Agrees(Over(st, cacheSize, []), st.Root(), st.p, st.Chain())
  {
    StartReaches(st);
    var w := Write(st.First(), true);
    assert InChain(st.Chain(), st.p, w.sh);
    PutAgrees(EMPTY_DB, st.Root(), st.p, st.Chain(), cacheSize, w);
  }

  /** The headers committed so far are a prefix of those committed in the end. */
  lemma {:induction false} CommittedPrefix(st: Start, actions: seq<Action>, n: nat)
    requires RunInput(st, Committed(Ops(actions))) && n <= |actions|
    ensures RunInput(st, Committed(Ops(actions[..n])))
    decreases |actions|
  {
    hide RunInput, Committed, Ops;
    if n == |actions| {
      assert actions[..n] == actions;
    } else {
      var init, last := actions[..|actions| - 1], actions[|actions| - 1];
      assert actions == init + [last];
      NextInput(st, init, last);
      CommittedPrefix(st, init, n);
      assert init[..n] == actions[..n];
    }
  }

  lemma NextInput(st: Start, actions: seq<Action>, a: Action)
    requires RunInput(st, Committed(Ops(actions + [a])))
    ensures RunInput(st, Committed(Ops(actions)))
  {
    hide RunInput;
    var hs, hs' := Committed(Ops(actions)), Committed(Ops(actions + [a]));
    OverSnoc(st, 0, actions, a);
    if a.Do? {
      CommittedSnoc(Ops(actions), a.op);
    }
    assert hs'[..|hs|] == hs;
    RunInputPrefix(st, hs', |hs|);
  }

  ghost predicate AgreesAt(st: Start, cacheSize: nat, actions: seq<Action>) {
    Agrees(Over(st, cacheSize, actions), st.Root(), st.p, RunOps(st, Ops(actions)))
  }

  /** One more action of a run keeps the agreement exactly when it is calm. */
  lemma {:induction false} NextAgreesIff(st: Start, cacheSize: nat, actions: seq<Action>, a: Action)
    requires RunInput(st, Committed(Ops(actions + [a]))) && AgreesAt(st, cacheSize, actions)
    requires Readable(Over(st, cacheSize, actions), st.p)
    ensures AgreesAt(st, cacheSize, actions + [a]) <==> Calm(Over(st, cacheSize, actions), st.p, a)
  {
    hide Agrees, Calm, StepOver, StepOp, Readable;
    OverSnoc(st, cacheSize, actions, a);
    var ops, c := Ops(actions), RunOps(st, Ops(actions));
    if a.Do? {
      assert (ops + [a.op])[..|ops|] == ops;
      if a.op.CommitOp? {
        var hs := Committed(ops);
        CommittedSnoc(ops, a.op);
        assert (hs + [a.op.header])[..|hs|] == hs;
        RunInputPrefix(st, hs + [a.op.header], |hs|);
        RunOpsReaches(st, ops);
        NextFits(st, hs, a.op.header, c);
      }
    }
    StepAgreesIff(Over(st, cacheSize, actions), st.Root(), st.p, c, cacheSize, a);
  }

  ghost predicate ReadableAfter(st: Start, cacheSize: nat, actions: seq<Action>, n: nat)
    requires n <= |actions|
  {
    Readable(Over(st, cacheSize, actions[..n]), st.p)
  }

  ghost predicate ReadableThroughout(st: Start, cacheSize: nat, actions: seq<Action>) {
    forall n: nat | n <= |actions| :: ReadableAfter(st, cacheSize, actions, n)
  }

  ghost predicate CalmAfter(st: Start, cacheSize: nat, actions: seq<Action>, n: nat)
    requires n < |actions|
  {
    Calm(Over(st, cacheSize, actions[..n]), st.p, actions[n])
  }

  ghost predicate CalmThroughout(st: Start, cacheSize: nat, actions: seq<Action>) {
    forall n: nat | n < |actions| :: CalmAfter(st, cacheSize, actions, n)
  }

  ghost predicate AgreesAfter(st: Start, cacheSize: nat, actions: seq<Action>, n: nat)
    requires n <= |actions|
  {
    AgreesAt(st, cacheSize, actions[..n])
  }

  ghost predicate AgreesThroughout(st: Start, cacheSize: nat, actions: seq<Action>) {
    forall n: nat | n <= |actions| :: AgreesAfter(st, cacheSize, actions, n)
  }

  lemma {:induction false} CalmAgrees(st: Start, cacheSize: nat, actions: seq<Action>, n: nat)
    requires RunInput(st, Committed(Ops(actions))) && n <= |actions|
    requires ReadableThroughout(st, cacheSize, actions) && CalmThroughout(st, cacheSize, actions)
    ensures AgreesAfter(st, cacheSize, actions, n)
  {
    hide Agrees, Calm, Readable, Over, RunInput;
    if n == 0 {
      CommittedPrefix(st, actions, 0);
      StartAgrees(st, cacheSize);
    } else {
      CalmAgrees(st, cacheSize, actions, n - 1);
      assert ReadableAfter(st, cacheSize, actions, n - 1) && CalmAfter(st, cacheSize, actions, n - 1);
      assert actions[..n] == actions[..n - 1] + [actions[n - 1]];
      CommittedPrefix(st, actions, n);
      NextAgreesIff(st, cacheSize, actions[..n - 1], actions[n - 1]);
    }
  }

  /** As long as lookups find what is pending, a run of commits, rollbacks and flushes follows the chain that has no cache
      and no delay, at every step, exactly when every action is calm. */
  lemma {:induction false} RunAgreesIff(st: Start, cacheSize: nat, actions: seq<Action>)
    requires RunInput(st, Committed(Ops(actions))) && ReadableThroughout(st, cacheSize, actions)
    ensures AgreesThroughout(st, cacheSize, actions) <==> CalmThroughout(st, cacheSize, actions)
  {
    hide Calm, Readable, Over, RunInput, AgreesAt;
    if CalmThroughout(st, cacheSize, actions) {
      forall n: nat | n <= |actions| ensures AgreesAfter(st, cacheSize, actions, n) {
        CalmAgrees(st, cacheSize, actions, n);
      }
    }
    if AgreesThroughout(st, cacheSize, actions) {
      forall n: nat | n < |actions| ensures CalmAfter(st, cacheSize, actions, n) {
        AgreesCalm(st, cacheSize, actions, n);
      }
    }
  }

  lemma {:induction false} AgreesCalm(st: Start, cacheSize: nat, actions: seq<Action>, n: nat)
    requires RunInput(st, Committed(Ops(actions))) && n < |actions|
    requires ReadableThroughout(st, cacheSize, actions) && AgreesThroughout(st, cacheSize, actions)
    ensures CalmAfter(st, cacheSize, actions, n)
  {
    hide Calm, Readable, Over, RunInput, AgreesAt;
    assert actions[..n + 1] == actions[..n] + [actions[n]];
    CommittedPrefix(st, actions, n + 1);
    assert AgreesAfter(st, cacheSize, actions, n) && AgreesAfter(st, cacheSize, actions, n + 1);
    assert ReadableAfter(st, cacheSize, actions, n);
    NextAgreesIff(st, cacheSize, actions[..n], actions[n]);
  }

  /** In agreement the best header is the tip, every header of the chain is read as stored, the walk to a height may
      start at any time, and once nothing is pending the bucket is the chain's tree. */
  lemma {:induction false} AgreementReads(db: Db, root: Hash, p: Params, c: Chain)
    requires Agrees(db, root, p, c) && Readable(db, p)
    ensures db.best == Some(c.tip)
    ensures forall k | k in c.headers :: GetHeader(db, k) == Some(c.headers[k])
    ensures UnitSteps(db.bucket) && StepsBy(db.bucket, c.tip)
    ensures db.pending == [] ==> db.bucket == c.headers && Tree(db.bucket, root)
  {
    ReadsAgree(db, root, p, c);
    TreeUnitSteps(c.headers, root);
    forall k | k in c.headers ensures GetHeader(db, k) == Some(c.headers[k]) {
      assert Look(Seen(db), k) == GetHeader(db, k);
    }
    forall k | k in db.bucket ensures StepsBy(db.bucket, db.bucket[k]) {
      assert StepsBy(c.headers, c.headers[k]);
    }
    assert StepsBy(c.headers, c.headers[p.hash(c.tip.header)]);
  }
}
