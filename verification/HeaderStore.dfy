/** The header database: what its readers answer, from the cache and from the bucket. */
module HeaderStore {
  import opened Headers
  import opened HeaderTree
  import opened HeaderCache
  import opened AsyncStore
  import opened Rollback

  /** Heights step by one along every stored link. */
  ghost predicate UnitSteps(s: Bucket) {
    forall k | k in s :: StepsBy(s, s[k])
  }

  ghost predicate StepsBy(s: Bucket, sh: StoredHeader) {
    sh.header.prev in s ==> sh.height == s[sh.header.prev].height + 1
  }

  /** The header GetHeaderByHeight takes from the cache, if it finds one there. */
  function CachedByHeight(c: Cache, height: uint32): Option<StoredHeader> {
    match GetHashByHeight(c, height)
    case None => None
    case Some(hash) => Get(c, hash)
  }

  /** In a tree, walking the bucket down from the tip finds the one ancestor at the height, or nothing. */
  lemma HeightWalk(s: Bucket, root: Hash, tip: Hash, height: uint32)
    requires Tree(s, root) && tip in s && height <= s[tip].height
    ensures s[root].height <= s[tip].height
    ensures Back(s, s[tip], s[tip].height - height)
         == if s[root].height <= height then Some(s[Ancestor(s, root, tip, height)]) else None
  {
    BackIsAncestor(s, root, tip, s[tip].height - height);
  }

  lemma TreeUnitSteps(s: Bucket, root: Hash)
    requires Tree(s, root)
    ensures UnitSteps(s)
  {
    forall k | k in s ensures StepsBy(s, s[k]) {
      assert Linked(s, root, k);
    }
  }

  /** The last header set at a height, and so the one its height key points at. */
  function LastAtHeight(shs: seq<StoredHeader>, height: uint32): Option<StoredHeader>
    decreases |shs|
  {
    if shs == [] then None
    else if shs[|shs| - 1].height == height then Some(shs[|shs| - 1])
    else LastAtHeight(shs[..|shs| - 1], height)
  }

  lemma {:induction false} LastAtHeightMeans(shs: seq<StoredHeader>, height: uint32)
    ensures match LastAtHeight(shs, height)
      case None => forall i | 0 <= i < |shs| :: shs[i].height != height
      case Some(sh) => exists i | 0 <= i < |shs| :: shs[i] == sh && sh.height == height
                         && forall j | i < j < |shs| :: shs[j].height != height
    decreases |shs|
  {
    if shs != [] {
      var init, last := shs[..|shs| - 1], shs[|shs| - 1];
      LastAtHeightMeans(init, height);
      if last.height == height {
        assert shs[|shs| - 1] == last;
      } else if LastAtHeight(init, height).Some? {
        var i :| 0 <= i < |init| && init[i] == LastAtHeight(init, height).value && init[i].height == height
                 && forall j | i < j < |init| :: init[j].height != height;
        assert shs[i] == init[i];
      }
    }
  }

  ghost predicate OneRecordEach(p: Params, shs: seq<StoredHeader>) {
    forall i, j | 0 <= i < |shs| && 0 <= j < |shs| ::
      p.hash(shs[i].header) == p.hash(shs[j].header) ==> shs[i] == shs[j]
  }

  lemma {:induction false} CacheFollowsSets(cacheSize: nat, p: Params, shs: seq<StoredHeader>)
    ensures var c := SetAll(EMPTY, cacheSize, p, shs);
      && (forall g | ByHeight(g) in c.entries :: LastAtHeight(shs, g).Some?
            && c.entries[ByHeight(g)] == HashAt(p.hash(LastAtHeight(shs, g).value.header)))
      && (forall k | ByHash(k) in c.entries :: c.entries[ByHash(k)].Record?
            && c.entries[ByHash(k)].sh in shs && p.hash(c.entries[ByHash(k)].sh.header) == k)
    decreases |shs|
  {
    if shs != [] {
      var init, last := shs[..|shs| - 1], shs[|shs| - 1];
      assert shs == init + [last];
      CacheFollowsSets(cacheSize, p, init);
      SetAllSnoc(EMPTY, cacheSize, p, init, last);
    }
  }

  lemma {:induction false} LastAtHeightStored(shs: seq<StoredHeader>, height: uint32)
    ensures LastAtHeight(shs, height).Some? ==>
      LastAtHeight(shs, height).value in shs && LastAtHeight(shs, height).value.height == height
    decreases |shs|
  {
    if shs != [] {
      LastAtHeightStored(shs[..|shs| - 1], height);
    }
  }

  /** A cached answer is the last header set at that height, whichever branch it was on. */
  lemma CachedIsLastSet(cacheSize: nat, p: Params, shs: seq<StoredHeader>, height: uint32)
    requires OneRecordEach(p, shs)
    ensures var answer := CachedByHeight(SetAll(EMPTY, cacheSize, p, shs), height);
      answer.Some? ==> answer == LastAtHeight(shs, height) && answer.value.height == height
  {
    CacheFollowsSets(cacheSize, p, shs);
    LastAtHeightStored(shs, height);
  }

  /** Every header extends the one before it. */
  ghost predicate Linear(p: Params, shs: seq<StoredHeader>) {
    forall i | 0 <= i < |shs| - 1 :: Follows(p, shs[i], shs[i + 1])
  }

  ghost predicate Follows(p: Params, below: StoredHeader, above: StoredHeader) {
    above.header.prev == p.hash(below.header) && above.height == below.height + 1
  }

  lemma {:induction false} LinearHeights(p: Params, shs: seq<StoredHeader>, i: nat)
    requires Linear(p, shs) && i < |shs|
    ensures shs[i].height == shs[0].height + i
  {
    if i > 0 {
      LinearHeights(p, shs, i - 1);
      assert Follows(p, shs[i - 1], shs[i]);
    }
  }

  /** A bucket that holds the headers of shs, each under its hash. */
  ghost predicate Holds(p: Params, s: Bucket, shs: seq<StoredHeader>) {
    forall i | 0 <= i < |shs| :: p.hash(shs[i].header) in s && s[p.hash(shs[i].header)] == shs[i]
  }

  lemma {:induction false} LinearBack(p: Params, s: Bucket, shs: seq<StoredHeader>, i: nat, n: nat)
    requires Linear(p, shs) && Holds(p, s, shs) && n <= i < |shs|
    ensures Back(s, shs[i], n) == Some(shs[i - n])
    decreases n
  {
    if n > 0 {
      assert Follows(p, shs[i - 1], shs[i]);
      LinearBack(p, s, shs, i - 1, n - 1);
    }
  }

  lemma {:induction false} LinearLastAtHeight(p: Params, shs: seq<StoredHeader>, height: uint32)
    requires Linear(p, shs) && shs != []
    ensures LastAtHeight(shs, height)
         == if shs[0].height <= height < shs[0].height + |shs| then Some(shs[height - shs[0].height]) else None
    decreases |shs|
  {
    var init, last := shs[..|shs| - 1], shs[|shs| - 1];
    LinearHeights(p, shs, |shs| - 1);
    if init != [] {
      forall i | 0 <= i < |init| - 1 ensures Follows(p, init[i], init[i + 1]) {
        assert Follows(p, shs[i], shs[i + 1]);
      }
      LinearLastAtHeight(p, init, height);
    }
  }

  /** If every set extended the one before, the height key and the walk down the bucket give the same answer. */
  lemma LinearCacheAgrees(cacheSize: nat, p: Params, s: Bucket, shs: seq<StoredHeader>, height: uint32)
    requires Linear(p, shs) && shs != [] && OneRecordEach(p, shs) && Holds(p, s, shs)
    ensures var answer := CachedByHeight(SetAll(EMPTY, cacheSize, p, shs), height);
      var tip := shs[|shs| - 1];
      answer.Some? ==> height <= tip.height && answer == Back(s, tip, tip.height - height)
  {
    hide *;
    CachedIsLastSet(cacheSize, p, shs, height);
    LinearHeights(p, shs, |shs| - 1);
    LinearLastAtHeight(p, shs, height);
    if shs[0].height <= height < shs[0].height + |shs| {
      LinearBack(p, s, shs, |shs| - 1, |shs| - 1 - (height - shs[0].height));
    }
  }

  /** Otherwise the cached answer is the tip's ancestor exactly when that ancestor was the last header set there. */
  lemma CachedAgreesIff(cacheSize: nat, p: Params, s: Bucket, root: Hash, tip: Hash, shs: seq<StoredHeader>, height: uint32)
    requires Tree(s, root) && tip in s && s[root].height <= height <= s[tip].height && OneRecordEach(p, shs)
    requires CachedByHeight(SetAll(EMPTY, cacheSize, p, shs), height).Some?
    ensures CachedByHeight(SetAll(EMPTY, cacheSize, p, shs), height) == Back(s, s[tip], s[tip].height - height)
       <==> LastAtHeight(shs, height) == Some(s[Ancestor(s, root, tip, height)])
  {
    CachedIsLastSet(cacheSize, p, shs, height);
    HeightWalk(s, root, tip, height);
  }

  /** A side branch stored after the main one takes over its height key. */
  lemma SideBranchTakesHeight() returns (p: Params, shs: seq<StoredHeader>, s: Bucket)
    ensures OneRecordEach(p, shs) && |shs| == 3 && Holds(p, s, shs)
    ensures Back(s, shs[1], 0) == Some(shs[1]) && shs[1].work > shs[2].work
    ensures CachedByHeight(SetAll(EMPTY, CACHE_SIZE, p, shs), shs[1].height) == Some(shs[2]) && shs[2] != shs[1]
  {
    hide SetHeader, SetAll;
    p := Params((h: Header) => h.nonce, 1, 0, true);
    var r := StoredHeader(Header(1, 9, 0, 0, 0, 0), 0, 0);
    var tip := StoredHeader(Header(1, 0, 0, 0, 0, 1), 1, 3);
    var side := StoredHeader(Header(1, 0, 0, 0, 0, 2), 1, 2);
    shs, s := [r, tip, side], map[0 := r, 1 := tip, 2 := side];
    assert shs == [r, tip] + [side];
    SetAllSnoc(EMPTY, CACHE_SIZE, p, [r, tip], side);
    SetAnswers(SetAll(EMPTY, CACHE_SIZE, p, [r, tip]), CACHE_SIZE, 2, side);
  }

  /** What was set last answers for its height. */
  lemma SetAnswers(c: Cache, cacheSize: nat, hash: Hash, sh: StoredHeader)
    ensures CachedByHeight(SetHeader(c, cacheSize, hash, sh), sh.height) == Some(sh)
  {
  }

  /** A cache that holds the tip and, if stored, its parent. */
  function Warm(p: Params, s: Bucket, top: StoredHeader): Cache {
    var below := if top.header.prev in s then SetHeader(EMPTY, CACHE_SIZE, top.header.prev, s[top.header.prev]) else EMPTY;
    SetHeader(below, CACHE_SIZE, p.hash(top.header), top)
  }

  lemma WarmHolds(p: Params, s: Bucket, top: StoredHeader)
    ensures var c := Warm(p, s, top);
      && Ordered(c)
      && (forall k | ByHash(k) in c.entries :: Get(c, k).Some?)
      && forall k ::
           if k == p.hash(top.header) then Get(c, k) == Some(top)
           else if k == top.header.prev then Get(c, k) == Look(s, k)
           else Get(c, k) == None
  {
    hide SetHeader;
    if top.header.prev in s {
      SetGets(EMPTY, CACHE_SIZE, top.header.prev, s[top.header.prev]);
      SetOrdered(EMPTY, CACHE_SIZE, top.header.prev, s[top.header.prev]);
    }
    var below := if top.header.prev in s then SetHeader(EMPTY, CACHE_SIZE, top.header.prev, s[top.header.prev]) else EMPTY;
    SetGets(below, CACHE_SIZE, p.hash(top.header), top);
    SetOrdered(below, CACHE_SIZE, p.hash(top.header), top);
  }

  /** Opening a store that earlier puts left behind keeps what is known of it. */
  lemma WarmKeeps(p: Params, s: Bucket, top: StoredHeader, puts: seq<Write>)
    requires Inv(Db(EMPTY, None, s, Some(top), []), p, puts)
    ensures Inv(Db(Warm(p, s, top), Some(top), s, Some(top), []), p, puts)
  {
    hide Warm;
    WarmHolds(p, s, top);
    var i :| 0 <= i < |puts| && puts[i].sh == top && puts[i].newBest;
    assert WasPut(puts, top);
  }

  class HeaderDB {
    const params: Params
    const cache: HeaderCache
    var best: Option<StoredHeader>
    var bucket: Bucket
    var tip: Option<StoredHeader>
    var pending: seq<Write>

    function View(): Db
      reads this, cache
    {
      Db(cache.View(), best, bucket, tip, pending)
    }

    /** Opens a store on what the disk holds, and warms the cache. */
    constructor (params: Params, bucket: Bucket, tip: Option<StoredHeader>)
      requires forall k | k in bucket :: params.hash(bucket[k].header) == k
      ensures fresh(cache) && this.params == params && cache.params == params && cache.cacheSize == CACHE_SIZE == 100
      ensures View() == Db(if tip.None? then EMPTY else Warm(params, bucket, tip.value), tip, bucket, tip, [])
      ensures forall puts :: Inv(Db(EMPTY, None, bucket, tip, []), params, puts) ==> Inv(View(), params, puts)
    {
      this.params := params;
      cache := new HeaderCache(params, CACHE_SIZE);
      best, pending := None, [];
      this.bucket, this.tip := bucket, tip;
      new;
      hide Inv, Warm;
      InitializeCache();
      forall puts | Inv(Db(EMPTY, None, bucket, tip, []), params, puts) ensures Inv(View(), params, puts) {
        if tip.Some? {
          WarmKeeps(params, bucket, tip.value, puts);
        }
      }
    }

    /** Caches the header at once and leaves its write to a goroutine. */
    method Put(sh: StoredHeader, newBestHeader: bool)
      requires cache.params == params
      modifies this, cache
      ensures View() == PutStep(old(View()), cache.cacheSize, params, Write(sh, newBestHeader))
      ensures forall puts :: old(Inv(View(), params, puts)) ==> Inv(View(), params, puts + [Write(sh, newBestHeader)])
      ensures GetHeader(View(), params.hash(sh.header)) == Some(sh)
    {
      hide Inv;
      ghost var before := View();
      cache.Set(sh);
      if newBestHeader {
        best := Some(sh);
      }
      pending := pending + [Write(sh, newBestHeader)];
      forall puts | Inv(before, params, puts) ensures Inv(View(), params, puts + [Write(sh, newBestHeader)]) {
        PutKeeps(before, cache.cacheSize, params, puts, Write(sh, newBestHeader));
      }
    }

    /** One goroutine's write reaches the disk. */
    method PutToDB(i: nat)
      requires i < |pending|
      modifies this
      ensures View() == FlushStep(old(View()), params, i)
      ensures forall puts :: old(Inv(View(), params, puts)) ==> Inv(View(), params, puts)
    {
      hide Inv;
      ghost var before := View();
      var w := pending[i];
      bucket := bucket[params.hash(w.sh.header) := w.sh];
      if w.newBest {
        tip := Some(w.sh);
      }
      pending := pending[..i] + pending[i + 1..];
      forall puts | Inv(before, params, puts) ensures Inv(View(), params, puts) {
        FlushKeeps(before, params, puts, i);
      }
    }

    /** Deletes from the bucket alone; what the cache holds stays readable. */
    method DeleteAfter(height: uint32)
      modifies this
      ensures View() == old(View()).(bucket := KeptUpTo(old(bucket), height))
      ensures forall k | Get(cache.View(), k).Some? :: GetHeader(View(), k) == old(GetHeader(View(), k))
    {
      bucket := map k | k in bucket && !(bucket[k].height > height) :: bucket[k];
    }

    /** An answer was put under that hash; without one, whatever was put there has yet to reach the disk. */
    method GetHeaderOf(hash: Hash) returns (r: Option<StoredHeader>)
      ensures r == GetHeader(View(), hash)
      ensures forall puts | Inv(View(), params, puts) ::
        && (r.Some? ==> WasPut(puts, r.value) && params.hash(r.value.header) == hash)
        && (r.None? ==> forall w: Write | w in puts && params.hash(w.sh.header) == hash :: w in pending)
    {
      hide Inv;
      forall puts | Inv(View(), params, puts)
        ensures var answer := GetHeader(View(), hash);
          && (answer.Some? ==> WasPut(puts, answer.value) && params.hash(answer.value.header) == hash)
          && (answer.None? ==> forall w: Write | w in puts && params.hash(w.sh.header) == hash :: w in pending)
      {
        AnswersArePuts(View(), params, puts, hash);
      }
      var cachedHeader := Get(cache.View(), hash);
      if cachedHeader.Some? {
        return cachedHeader;
      }
      if hash !in bucket {
        return None;
      }
      return Some(bucket[hash]);
    }

    method GetBestHeader() returns (r: Option<StoredHeader>)
      ensures r == if best.Some? then best else tip
      ensures forall puts | Inv(View(), params, puts) :: r.Some? ==> WasBest(puts, r.value)
    {
      if best.Some? {
        return best;
      }
      return tip;
    }

    /** The cached header at the height, or else the ancestor of the best header there; never one of another height. */
    method GetHeaderByHeight(height: uint32) returns (r: Option<StoredHeader>)
      requires UnitSteps(bucket)
      requires best.Some? ==> StepsBy(bucket, best.value)
      requires best.None? && tip.Some? ==> StepsBy(bucket, tip.value)
      ensures var top := if best.Some? then best else tip;
        if CachedByHeight(cache.View(), height).Some? then
          r == CachedByHeight(cache.View(), height)
        else if top.None? || top.value.height < height then
          r == None
        else
          r == Back(bucket, top.value, top.value.height - height) && (r.Some? ==> r.value.height == height)
    {
      var hash := GetHashByHeight(cache.View(), height);
      if hash.Some? {
        var cachedHeader := Get(cache.View(), hash.value);
        if cachedHeader.Some? {
          return cachedHeader;
        }
      }
      var top := GetBestHeader();
      if top.None? || top.value.height < height {
        return None;
      }
      var ptr := top.value;
      while ptr.height > height
        invariant StepsBy(bucket, ptr) && ptr.height >= height
        invariant Back(bucket, ptr, ptr.height - height) == Back(bucket, top.value, top.value.height - height)
        decreases ptr.height
      {
        if ptr.header.prev !in bucket {
          return None;
        }
        ptr := bucket[ptr.header.prev];
      }
      return Some(ptr);
    }

    /** Meant to warm the cache with a hundred headers, it looks up the tip's parent every time. */
    method InitializeCache()
      requires cache.View() == EMPTY && cache.params == params && cache.cacheSize == CACHE_SIZE
      requires forall k | k in bucket :: params.hash(bucket[k].header) == k
      modifies this`best, cache
      ensures var top := old(if best.Some? then best else tip);
        && best == top
        && cache.View() == (if top.None? then EMPTY else Warm(params, bucket, top.value))
        && (top.Some? ==> forall k ::
              if k == params.hash(top.value.header) then Get(cache.View(), k) == top
              else if k == top.value.header.prev then Get(cache.View(), k) == Look(bucket, k)
              else Get(cache.View(), k) == None)
    {
      var top := GetBestHeader();
      best := top;
      if top.None? {
        return;
      }
      var found := [top.value];
      for i := 0 to 99
        invariant |found| >= 1 && found[0] == top.value && cache.View() == EMPTY && best == top
        invariant |found| > 1 ==> top.value.header.prev in bucket
        invariant forall j | 1 <= j < |found| :: found[j] == bucket[top.value.header.prev]
        invariant if i > 0 then |found| > 1 else |found| == 1
      {
        var sh := GetHeaderOf(top.value.header.prev);
        if sh.None? {
          break;
        }
        found := found + [sh.value];
      }
      ghost var x, y := params.hash(top.value.header), top.value.header.prev;
      var i := |found|;
      while i > 0
        invariant 0 <= i <= |found| && best == top && (|found| > 1 ==> y in bucket)
        invariant i == |found| ==> cache.View() == EMPTY
        invariant 0 < i < |found| ==> cache.View() == SetHeader(EMPTY, CACHE_SIZE, y, bucket[y])
        invariant i == 0 ==> cache.View() == Warm(params, bucket, top.value)
      {
        i := i - 1;
        cache.Set(found[i]);
      }
      WarmHolds(params, bucket, top.value);
    }
  }
}
