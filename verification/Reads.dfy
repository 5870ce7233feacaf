/** Committing and rolling back as they run over whatever the header store answers, stale or not. */
module Reads {
  import opened Headers
  import opened Compact
  import opened Difficulty
  import opened HeaderTree
  import opened ForkChoice
  import opened Rollback
  import opened HeaderCache
  import opened AsyncStore

  /** Every header a lookup finds. */
  function Seen(db: Db): (s: Bucket)
    ensures forall k :: Look(s, k) == GetHeader(db, k)
  {
    map k | k in db.bucket.Keys + CachedHashes(db.cache) :: GetHeader(db, k).value
  }

  function CachedHashes(c: Cache): set<Hash> {
    set key | key in c.entries && key.ByHash? && c.entries[key].Record? :: key.hash
  }

  /** The walks for a common ancestor, side by side from one height. */
  function MeetOver(s: Bucket, p: Params, a: StoredHeader, b: StoredHeader): Option<StoredHeader>
    decreases a.height
  {
    var below, below' := a.header.prev, b.header.prev;
    if p.hash(a.header) == p.hash(b.header) then Some(a)
    else if below in s && below' in s && s[below].height < a.height then MeetOver(s, p, s[below], s[below'])
    else None
  }

  function CommonOver(s: Bucket, p: Params, x: StoredHeader, y: StoredHeader): Option<StoredHeader> {
    var h := if x.height > y.height then y.height else x.height;
    var a, b := Back(s, x, x.height - h), Back(s, y, y.height - h);
    if a.Some? && b.Some? then MeetOver(s, p, a.value, b.value) else None
  }

  /** The write a commit issues, if it stores the header: nothing for an orphan, a header that breaks a rule, the tip
      itself, or a new tip without a common ancestor with the old one. */
  function WritesOver(s: Bucket, best: StoredHeader, p: Params, header: Header): seq<Write> {
    var parent := if header.prev == p.hash(best.header) then Some(best) else Look(s, header.prev);
    if parent.None? || !MeetsRules(s, best, p, header, parent.value) || p.hash(header) == p.hash(best.header) then [] else
    var height := (parent.value.height + 1) % TWO_32;
    var sh := StoredHeader(header, height, parent.value.work + CalcWork(header.bits));
    if sh.work <= best.work then [Write(sh, false)]
    else if header.prev != p.hash(best.header) && CommonOver(s, p, sh.(work := 0), best).None? then []
    else [Write(sh, true)]
  }

  /** The lookups find everything the chain holds, as it holds it, and nothing below the root; they may find more. */
  ghost predicate Covers(s: Bucket, c: Chain, root: Hash)
    requires root in c.headers
  {
    && (forall k | k in c.headers :: k in s && s[k] == c.headers[k])
    && c.headers[root].header.prev !in s
  }

  lemma {:induction false} BackOver(s: Bucket, c: Chain, root: Hash, k: Hash, n: nat)
    requires Tree(c.headers, root) && Covers(s, c, root) && k in c.headers
    ensures Back(s, s[k], n) == Back(c.headers, s[k], n)
    decreases n
  {
    assert Linked(c.headers, root, k);
    if n > 0 && k != root {
      BackOver(s, c, root, s[k].header.prev, n - 1);
    }
  }

  lemma {:induction false} LastOrdinaryCovered(s: Bucket, c: Chain, root: Hash, p: Params, k: Hash)
    requires Tree(c.headers, root) && Covers(s, c, root) && k in c.headers
    ensures LastOrdinary(s, p, c.headers[k]) == LastOrdinary(c.headers, p, c.headers[k])
    decreases c.headers[k].height
  {
    assert Linked(c.headers, root, k);
    if k != root {
      LastOrdinaryCovered(s, c, root, p, c.headers[k].header.prev);
    }
  }

  /** A rollback whose lookups find more than the chain stops where it stops in the chain. */
  lemma {:induction false} StopCovered(s: Bucket, c: Chain, root: Hash, p: Params, k: Hash, t: int, checkpoint: Hash)
    requires Tree(c.headers, root) && Covers(s, c, root) && k in c.headers
    ensures StopAt(s, p, c.headers[k], t, checkpoint) == StopAt(c.headers, p, c.headers[k], t, checkpoint)
    decreases c.headers[k].height
  {
    assert Linked(c.headers, root, k);
    if k != root {
      StopCovered(s, c, root, p, c.headers[k].header.prev, t, checkpoint);
    }
  }

  lemma {:induction false} MeetsCovered(s: Bucket, c: Chain, root: Hash, p: Params, header: Header, k: Hash)
    requires Valid(c, root, p) && Covers(s, c, root) && k in c.headers
    ensures MeetsRules(s, c.tip, p, header, c.headers[k]) <==> MeetsRules(c.headers, c.tip, p, header, c.headers[k])
  {
    hide CompactToBig, CheckProofOfWork;
    BackOver(s, c, root, p.hash(c.tip.header), EPOCH_LENGTH - 1);
    LastOrdinaryCovered(s, c, root, p, k);
  }

  /** In the chain the two walks always meet. */
  lemma {:induction false} MeetCovered(s: Bucket, c: Chain, root: Hash, p: Params, sh: StoredHeader, h: int,
                                       a: StoredHeader, b: StoredHeader)
    requires Valid(c, root, p) && Covers(s, c, root) && Attaches(c.headers, root, p.hash(sh.header), sh)
    requires WalksAt(c.headers, root, p.hash(sh.header), sh, p.hash(c.tip.header), h, a, b)
    ensures MeetOver(s, p, a, b).Some?
    decreases h
  {
    var x, y := p.hash(sh.header), p.hash(c.tip.header);
    TreeInsert(c.headers, root, x, sh);
    var k, j := Ancestor(c.headers[x := sh], root, x, h), Ancestor(c.headers, root, y, h);
    assert ForkChoice.Entry(c.headers, root, p, j) && (k in c.headers ==> ForkChoice.Entry(c.headers, root, p, k));
    if k != j {
      WalksStep(c.headers, root, x, sh, y, h, a, b);
      MeetCovered(s, c, root, p, sh, h - 1, s[a.header.prev], s[b.header.prev]);
    }
  }

  lemma {:induction false} CommonCovered(s: Bucket, c: Chain, root: Hash, p: Params, sh: StoredHeader)
    requires Valid(c, root, p) && Covers(s, c, root) && Attaches(c.headers, root, p.hash(sh.header), sh)
    requires sh.header.prev in c.headers
    ensures CommonOver(s, p, sh, c.tip).Some?
  {
    var x, y := p.hash(sh.header), p.hash(c.tip.header);
    var h := if sh.height > c.tip.height then c.tip.height else sh.height;
    WalksStart(c.headers, root, x, sh, y);
    BackOver(s, c, root, y, c.tip.height - h);
    if sh.height > h {
      BackOver(s, c, root, sh.header.prev, sh.height - h - 1);
    }
    MeetCovered(s, c, root, p, sh, h, Back(s, sh, sh.height - h).value, Back(s, c.tip, c.tip.height - h).value);
  }

  /** The write a commit to the chain issues, if it stores the header. */
  ghost function WritesOf(c: Chain, root: Hash, p: Params, header: Header): seq<Write>
    requires Valid(c, root, p) && HasRoom(c.headers)
  {
    if !Accepts(c, root, p, header) || p.hash(header) == p.hash(c.tip.header) then []
    else [Write(Extension(c.headers, header), Extension(c.headers, header).work > c.tip.work)]
  }

  /** Above a header the chain holds, a commit decides as the chain does, whatever else the lookups find. */
  lemma {:induction false} WritesCovered(s: Bucket, c: Chain, root: Hash, p: Params, header: Header)
    requires Valid(c, root, p) && HasRoom(c.headers) && NoCollision(c.headers, root, p, header)
    requires Covers(s, c, root) && header.prev in c.headers
    ensures WritesOver(s, c.tip, p, header) == WritesOf(c, root, p, header)
  {
    hide MeetsRules, CommonOver, CalcWork;
    MeetsCovered(s, c, root, p, header, header.prev);
    ParentHash(c, root, p, header.prev);
    if Accepts(c, root, p, header) {
      ExtensionAttaches(c, root, p, header);
      CommonCovered(s, c, root, p, Extension(c.headers, header).(work := 0));
    }
  }

  lemma ParentHash(c: Chain, root: Hash, p: Params, k: Hash)
    requires Valid(c, root, p) && k in c.headers
    ensures p.hash(c.headers[k].header) == k
  {
    assert ForkChoice.Entry(c.headers, root, p, k);
  }
}
