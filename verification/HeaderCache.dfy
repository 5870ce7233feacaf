/** The insertion-ordered cache in front of the header bucket. */
module HeaderCache {
  import opened Headers

  const CACHE_SIZE := 100

  datatype Key = ByHash(hash: Hash) | ByHeight(height: uint32)
  datatype Entry = Record(sh: StoredHeader) | HashAt(hash: Hash)

  /** An ordered map: its keys in order of first insertion, and their entries. */
  datatype Cache = Cache(keys: seq<Key>, entries: map<Key, Entry>)

  const EMPTY := Cache([], map[])

  ghost predicate Ordered(c: Cache) {
    && (forall k :: k in c.keys <==> k in c.entries)
    && (forall i, j | 0 <= i < j < |c.keys| :: c.keys[i] != c.keys[j])
  }

  /** Setting a key that is present keeps its place; a new key goes last. */
  function SetKey(c: Cache, k: Key, e: Entry): Cache {
    Cache(if k in c.entries then c.keys else c.keys + [k], c.entries[k := e])
  }

  function DropOldest(c: Cache): Cache {
    if c.keys == [] then c else Cache(c.keys[1..], c.entries - {c.keys[0]})
  }

  /** At most one key goes, at most two come. */
  function SetHeader(c: Cache, cacheSize: nat, hash: Hash, sh: StoredHeader): Cache {
    var room := if |c.keys| > cacheSize then DropOldest(c) else c;
    SetKey(SetKey(room, ByHash(hash), Record(sh)), ByHeight(sh.height), HashAt(hash))
  }

  function Get(c: Cache, hash: Hash): Option<StoredHeader> {
    if ByHash(hash) in c.entries && c.entries[ByHash(hash)].Record? then Some(c.entries[ByHash(hash)].sh) else None
  }

  function GetHashByHeight(c: Cache, height: uint32): Option<Hash> {
    if ByHeight(height) in c.entries && c.entries[ByHeight(height)].HashAt?
    then Some(c.entries[ByHeight(height)].hash) else None
  }

  /** The cache after setting several headers in turn. */
  function SetAll(c: Cache, cacheSize: nat, p: Params, shs: seq<StoredHeader>): Cache
    decreases |shs|
  {
    if shs == [] then c else SetAll(SetHeader(c, cacheSize, p.hash(shs[0].header), shs[0]), cacheSize, p, shs[1..])
  }

  lemma {:induction false} SetOrdered(c: Cache, cacheSize: nat, hash: Hash, sh: StoredHeader)
    requires Ordered(c)
    ensures Ordered(SetHeader(c, cacheSize, hash, sh))
  {
    var room := if |c.keys| > cacheSize then DropOldest(c) else c;
    assert Ordered(room) by {
      if |c.keys| > cacheSize && c.keys != [] {
        assert c.keys == [c.keys[0]] + c.keys[1..];
      }
    }
    StoreOrdered(room, ByHash(hash), Record(sh));
    StoreOrdered(SetKey(room, ByHash(hash), Record(sh)), ByHeight(sh.height), HashAt(hash));
  }

  lemma StoreOrdered(c: Cache, k: Key, e: Entry)
    requires Ordered(c)
    ensures Ordered(SetKey(c, k, e))
  {
  }

  /** A set adds its own record and leaves every other that it does not pop. */
  lemma SetHeaderEntries(c: Cache, cacheSize: nat, hash: Hash, sh: StoredHeader)
    ensures forall k | ByHash(k) in SetHeader(c, cacheSize, hash, sh).entries && k != hash ::
      ByHash(k) in c.entries && SetHeader(c, cacheSize, hash, sh).entries[ByHash(k)] == c.entries[ByHash(k)]
    ensures ByHash(hash) in SetHeader(c, cacheSize, hash, sh).entries
    ensures SetHeader(c, cacheSize, hash, sh).entries[ByHash(hash)] == Record(sh)
  {
  }

  /** With room left, a set pops nothing. */
  lemma SetGets(c: Cache, cacheSize: nat, hash: Hash, sh: StoredHeader)
    requires Ordered(c) && |c.keys| <= cacheSize && forall k | ByHash(k) in c.entries :: Get(c, k).Some?
    ensures var c' := SetHeader(c, cacheSize, hash, sh);
      && |c'.keys| <= |c.keys| + 2
      && forall k :: Get(c', k) == (if k == hash then Some(sh) else Get(c, k)) && (ByHash(k) in c'.entries ==> Get(c', k).Some?)
  {
  }

  /** Key k sits at index a, with at most n keys behind it. */
  ghost predicate Held(c: Cache, k: Key, a: nat, n: int) {
    a < |c.keys| && c.keys[a] == k && |c.keys| - 1 - a <= n
  }

  lemma SetHolds(c: Cache, cacheSize: nat, hash: Hash, sh: StoredHeader, k: Key, a: nat, n: int) returns (a': nat)
    requires Ordered(c) && Held(c, k, a, n) && n < cacheSize
    ensures Held(SetHeader(c, cacheSize, hash, sh), k, a', n + 2)
  {
    a' := if |c.keys| > cacheSize then a - 1 else a;
    var room := if |c.keys| > cacheSize then DropOldest(c) else c;
    assert Held(room, k, a', n);
    assert Held(SetKey(room, ByHash(hash), Record(sh)), k, a', n + 1);
  }

  lemma {:induction false} SetAllHolds(c: Cache, cacheSize: nat, p: Params, shs: seq<StoredHeader>, k: Key, a: nat, n: int)
    requires Ordered(c) && Held(c, k, a, n) && n + 2 * |shs| <= cacheSize + 1
    ensures k in SetAll(c, cacheSize, p, shs).entries
    decreases |shs|
  {
    if shs != [] {
      var hash := p.hash(shs[0].header);
      SetOrdered(c, cacheSize, hash, shs[0]);
      var a' := SetHolds(c, cacheSize, hash, shs[0], k, a, n);
      SetAllHolds(SetHeader(c, cacheSize, hash, shs[0]), cacheSize, p, shs[1..], k, a', n + 2);
    }
  }

  /** A hash that was not there when set stays through cacheSize / 2 further sets, however full the cache was. */
  lemma {:induction false} KeyStays(c: Cache, cacheSize: nat, p: Params, sh: StoredHeader, later: seq<StoredHeader>)
    requires Ordered(c) && ByHash(p.hash(sh.header)) !in c.entries
    requires |later| <= cacheSize / 2
    ensures ByHash(p.hash(sh.header)) in SetAll(c, cacheSize, p, [sh] + later).entries
  {
    var hash := p.hash(sh.header);
    var k := ByHash(hash);
    var c' := SetHeader(c, cacheSize, hash, sh);
    SetOrdered(c, cacheSize, hash, sh);
    var room := if |c.keys| > cacheSize then DropOldest(c) else c;
    assert k !in room.entries;
    assert Held(SetKey(room, k, Record(sh)), k, |room.keys|, 0);
    assert Held(c', k, |room.keys|, 1);
    SetAllHolds(c', cacheSize, p, later, k, |room.keys|, 1);
    assert ([sh] + later)[1..] == later;
  }

  /** A hash set with one record only is found with that record, if at all. */
  lemma {:induction false} SetAllKeeps(c: Cache, cacheSize: nat, p: Params, shs: seq<StoredHeader>, sh: StoredHeader)
    requires var k := ByHash(p.hash(sh.header)); k in c.entries ==> c.entries[k] == Record(sh)
    requires forall other | other in shs && p.hash(other.header) == p.hash(sh.header) :: other == sh
    ensures var c', k := SetAll(c, cacheSize, p, shs), ByHash(p.hash(sh.header));
      k in c'.entries ==> c'.entries[k] == Record(sh)
    decreases |shs|
  {
    hide SetHeader;
    if shs != [] {
      assert shs[0] in shs;
      SetHeaderEntries(c, cacheSize, p.hash(shs[0].header), shs[0]);
      SetAllKeeps(SetHeader(c, cacheSize, p.hash(shs[0].header), shs[0]), cacheSize, p, shs[1..], sh);
    }
  }

  /** So a header set under a fresh hash, and under no other record, is found through cacheSize / 2 further sets. */
  lemma Retention(c: Cache, cacheSize: nat, p: Params, sh: StoredHeader, later: seq<StoredHeader>)
    requires Ordered(c) && ByHash(p.hash(sh.header)) !in c.entries
    requires |later| <= cacheSize / 2
    requires forall other | other in later && p.hash(other.header) == p.hash(sh.header) :: other == sh
    ensures Get(SetAll(c, cacheSize, p, [sh] + later), p.hash(sh.header)) == Some(sh)
  {
    KeyStays(c, cacheSize, p, sh, later);
    SetAllKeeps(c, cacheSize, p, [sh] + later, sh);
  }

  lemma {:induction false} SetAllJoin(c: Cache, cacheSize: nat, p: Params, a: seq<StoredHeader>, b: seq<StoredHeader>)
    ensures SetAll(c, cacheSize, p, a + b) == SetAll(SetAll(c, cacheSize, p, a), cacheSize, p, b)
    decreases |a|
  {
    hide SetHeader;
    if a == [] {
      assert a + b == b;
    } else {
      assert (a + b)[1..] == a[1..] + b;
      SetAllJoin(SetHeader(c, cacheSize, p.hash(a[0].header), a[0]), cacheSize, p, a[1..], b);
    }
  }

  lemma SetAllSnoc(c: Cache, cacheSize: nat, p: Params, shs: seq<StoredHeader>, sh: StoredHeader)
    ensures SetAll(c, cacheSize, p, shs + [sh])
         == SetHeader(SetAll(c, cacheSize, p, shs), cacheSize, p.hash(sh.header), sh)
  {
    SetAllJoin(c, cacheSize, p, shs, [sh]);
    assert [sh][1..] == [];
  }

  lemma {:induction false} SetAllOrdered(c: Cache, cacheSize: nat, p: Params, shs: seq<StoredHeader>)
    requires Ordered(c)
    ensures Ordered(SetAll(c, cacheSize, p, shs))
    decreases |shs|
  {
    hide SetHeader, Ordered;
    if shs != [] {
      SetOrdered(c, cacheSize, p.hash(shs[0].header), shs[0]);
      SetAllOrdered(SetHeader(c, cacheSize, p.hash(shs[0].header), shs[0]), cacheSize, p, shs[1..]);
    }
  }

  /** A row of headers: number i has hash and height i. */
  ghost predicate InRow(p: Params, shs: seq<StoredHeader>) {
    forall i | 0 <= i < |shs| :: p.hash(shs[i].header) == i && shs[i].height == i
  }

  /** Until it overflows, a cache fed with a row holds two keys for each header, the first one's in front. */
  ghost predicate Filled(c: Cache, n: nat) {
    && |c.keys| == 2 * n > 0 && c.keys[0] == ByHash(0)
    && (forall k: Hash :: ByHash(k) in c.entries ==> k < n)
    && (forall g: uint32 :: ByHeight(g) in c.entries ==> g < n)
  }

  lemma {:induction false} RowFills(cacheSize: nat, p: Params, shs: seq<StoredHeader>)
    requires InRow(p, shs) && 1 <= |shs| <= cacheSize / 2 + 1
    ensures Filled(SetAll(EMPTY, cacheSize, p, shs), |shs|)
    decreases |shs|
  {
    var init, last := shs[..|shs| - 1], shs[|shs| - 1];
    assert shs == init + [last];
    SetAllSnoc(EMPTY, cacheSize, p, init, last);
    if init != [] {
      RowFills(cacheSize, p, init);
      FilledGrows(SetAll(EMPTY, cacheSize, p, init), cacheSize, |init|, last);
    }
  }

  lemma FilledGrows(c: Cache, cacheSize: nat, n: nat, sh: StoredHeader)
    requires Filled(c, n) && 2 * n <= cacheSize && sh.height == n
    ensures Filled(SetHeader(c, cacheSize, n, sh), n + 1)
  {
  }

  lemma FilledEvicts(c: Cache, cacheSize: nat, n: nat, sh: StoredHeader)
    requires Filled(c, n) && 2 * n > cacheSize
    ensures Get(SetHeader(c, cacheSize, n, sh), 0) == None
  {
  }

  /** The set after half a cache of further ones evicts the first header of a row. */
  lemma RowEvicts(cacheSize: nat, p: Params, shs: seq<StoredHeader>)
    requires InRow(p, shs) && |shs| == cacheSize / 2 + 2
    ensures Get(SetAll(EMPTY, cacheSize, p, shs), 0) == None
  {
    hide SetAll, SetHeader, Filled;
    var n := |shs| - 1;
    assert shs == shs[..n] + [shs[n]];
    RowFills(cacheSize, p, shs[..n]);
    SetAllSnoc(EMPTY, cacheSize, p, shs[..n], shs[n]);
    FilledEvicts(SetAll(EMPTY, cacheSize, p, shs[..n]), cacheSize, n, shs[n]);
  }

  /** One more set can evict a header, whatever the size of the cache, as long as there are heights enough. */
  lemma {:induction false} RetentionTight(cacheSize: nat) returns (p: Params, x: StoredHeader, later: seq<StoredHeader>)
    requires cacheSize / 2 + 2 <= TWO_32
    ensures |later| == cacheSize / 2 + 1 && forall sh | sh in later :: p.hash(sh.header) != p.hash(x.header)
    ensures Get(SetAll(EMPTY, cacheSize, p, [x] + later[..cacheSize / 2]), p.hash(x.header)) == Some(x)
    ensures Get(SetAll(EMPTY, cacheSize, p, [x] + later), p.hash(x.header)) == None
  {
    hide SetAll, SetHeader;
    var shs := seq(cacheSize / 2 + 2, (i: nat) requires i < TWO_32 => StoredHeader(Header(1, 0, i, 0, 0, 0), i, 0));
    p, x, later := Params((h: Header) => h.merkleRoot, 1, 0, false), shs[0], shs[1..];
    Retention(EMPTY, cacheSize, p, x, later[..cacheSize / 2]);
    assert [x] + later == shs;
    RowEvicts(cacheSize, p, shs);
  }

  class HeaderCache {
    var keys: seq<Key>
    var entries: map<Key, Entry>
    const cacheSize: nat
    const params: Params

    function View(): Cache
      reads this
    {
      Cache(keys, entries)
    }

    constructor (params: Params, cacheSize: nat)
      ensures View() == EMPTY && this.cacheSize == cacheSize && this.params == params
    {
      keys, entries := [], map[];
      this.cacheSize := cacheSize;
      this.params := params;
    }

    /** Drops the oldest key and nothing else, so what is left keeps its order and its entries. */
    method Pop()
      modifies this
      ensures View() == DropOldest(old(View()))
      ensures Ordered(old(View())) ==> Ordered(View())
      ensures Ordered(old(View())) && old(keys) != [] ==>
        keys == old(keys)[1..] && forall k :: k in entries <==> k in old(entries) && k != old(keys)[0]
      ensures forall k | k in entries :: k in old(entries) && entries[k] == old(entries)[k]
    {
      ghost var before := View();
      assert Ordered(before) && keys != [] ==> keys == [keys[0]] + keys[1..];
      if |keys| > 0 {
        entries := entries - {keys[0]};
        keys := keys[1..];
      }
    }

    method Put(k: Key, e: Entry)
      modifies this
      ensures View() == SetKey(old(View()), k, e)
      ensures Ordered(old(View())) ==> Ordered(View())
      ensures keys == if k in old(entries) then old(keys) else old(keys) + [k]
      ensures entries == old(entries)[k := e]
    {
      if k !in entries {
        keys := keys + [k];
      }
      entries := entries[k := e];
    }

    method Set(sh: StoredHeader)
      modifies this
      ensures View() == SetHeader(old(View()), cacheSize, params.hash(sh.header), sh)
      ensures Ordered(old(View())) ==> Ordered(View())
      ensures |keys| <= |old(keys)| + 2 && (|old(keys)| > cacheSize ==> |keys| <= |old(keys)| + 1)
      ensures |old(keys)| <= cacheSize && ByHash(params.hash(sh.header)) in old(entries) && ByHeight(sh.height) in old(entries) ==>
        keys == old(keys)
      ensures Get(View(), params.hash(sh.header)) == Some(sh)
      ensures GetHashByHeight(View(), sh.height) == Some(params.hash(sh.header))
    {
      if |keys| > cacheSize {
        Pop();
      }
      var hash := params.hash(sh.header);
      Put(ByHash(hash), Record(sh));
      Put(ByHeight(sh.height), HashAt(hash));
    }
  }
}
