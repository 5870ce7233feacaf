/** Proofs that wait for confirmations, and the transactions already voted for. */
module WaitingDb {
  import opened Headers

  type TxId = seq<nat>

  /** A cross-chain proof; the transaction id is the hash of the transaction it carries. */
  datatype BtcProof = BtcProof(txid: TxId, height: uint32, blocksToWait: nat, body: nat)

  /** A stored value either decodes to a proof or does not decode. */
  datatype Encoded = Proof(p: BtcProof) | Corrupt

  type Waiting = map<TxId, Encoded>

  predicate Eligible(w: Waiting, height: int, k: TxId)
    requires k in w
  {
    w[k].Proof? && w[k].p.height <= height
  }

  ghost function EligibleKeys(w: Waiting, height: int): set<TxId> {
    set k | k in w && Eligible(w, height, k)
  }

  /** The bucket is visited in some order, each key once. */
  ghost predicate Enumerates(order: seq<TxId>, w: Waiting) {
    && (forall k :: k in order <==> k in w)
    && (forall i, j | 0 <= i < j < |order| :: order[i] != order[j])
  }

  /** The keys one scan takes: eligible ones in order, up to and including the one that passes the byte limit; none if a
      value met on the way does not decode. */
  function Scan(w: Waiting, order: seq<TxId>, height: int, limit: int, total: int): (r: Option<seq<TxId>>)
    requires forall k | k in order :: k in w
    decreases |order|
  {
    if order == [] then Some([]) else
    var k := order[0];
    if w[k].Corrupt? then None
    else if !Eligible(w, height, k) then Scan(w, order[1..], height, limit, total)
    else if total + |k| > limit then Some([k])
    else
      var rest := Scan(w, order[1..], height, limit, total + |k|);
      if rest.None? then None else Some([k] + rest.value)
  }

  function KeyBytes(keys: seq<TxId>): (r: nat)
    ensures keys == [] ==> r == 0
  {
    if keys == [] then 0 else |keys[0]| + KeyBytes(keys[1..])
  }

  ghost predicate Intact(w: Waiting) {
    forall k | k in w :: w[k].Proof?
  }

  /** What a scan takes is eligible and taken once; it can only fail on a value that does not decode. */
  lemma {:induction false} ScanSound(w: Waiting, order: seq<TxId>, height: int, limit: int, total: int)
    requires forall k | k in order :: k in w
    requires forall i, j | 0 <= i < j < |order| :: order[i] != order[j]
    ensures match Scan(w, order, height, limit, total)
      case None => exists k :: k in order && w[k].Corrupt?
      case Some(keys) =>
        && (forall k | k in keys :: k in order && w[k].Proof? && w[k].p.height <= height)
        && (forall i, j | 0 <= i < j < |keys| :: keys[i] != keys[j])
    decreases |order|
  {
    if order != [] {
      var k := order[0];
      assert order == [k] + order[1..];
      if w[k].Proof? {
        ScanSound(w, order[1..], height, limit, if Eligible(w, height, k) then total + |k| else total);
      }
    }
  }

  /** A scan leaves nothing eligible behind unless it went over the limit; it goes over by its last key alone, and it
      never comes back empty-handed while something is eligible. */
  lemma {:induction false} ScanComplete(w: Waiting, order: seq<TxId>, height: int, limit: int, total: int)
    requires forall k | k in order :: k in w
    requires Scan(w, order, height, limit, total).Some?
    ensures var keys := Scan(w, order, height, limit, total).value;
      && (keys == [] <==> forall k | k in order :: !(w[k].Proof? && w[k].p.height <= height))
      && (|keys| > 1 ==> total + KeyBytes(keys[..|keys| - 1]) <= limit)
      && (total + KeyBytes(keys) > limit || forall k | k in order && w[k].Proof? && w[k].p.height <= height :: k in keys)
    decreases |order|
  {
    if order != [] {
      var k := order[0];
      assert order == [k] + order[1..];
      if !Eligible(w, height, k) {
        ScanComplete(w, order[1..], height, limit, total);
      } else if total + |k| <= limit {
        ScanComplete(w, order[1..], height, limit, total + |k|);
        KeyBytesCons(k, Scan(w, order[1..], height, limit, total + |k|).value);
      } else {
        KeyBytesCons(k, []);
      }
    }
  }

  lemma {:induction false} KeyBytesCons(k: TxId, rest: seq<TxId>)
    ensures KeyBytes([k] + rest) == |k| + KeyBytes(rest)
    ensures |rest| > 0 ==> KeyBytes(([k] + rest)[..|rest|]) == |k| + KeyBytes(rest[..|rest| - 1])
  {
    assert ([k] + rest)[1..] == rest;
    if |rest| > 0 {
      assert ([k] + rest)[..|rest|] == [k] + rest[..|rest| - 1];
      assert ([k] + rest[..|rest| - 1])[1..] == rest[..|rest| - 1];
    }
  }

  /** What is left after a scan. */
  function Left(w: Waiting, order: seq<TxId>, height: int, limit: int): Waiting
    requires forall k | k in order :: k in w
  {
    match Scan(w, order, height, limit, 0)
    case None => w
    case Some(keys) => w - (set k | k in keys)
  }

  /** Each of several scans visits, in any order, what the scans before it left. */
  ghost predicate Rounds(w: Waiting, height: int, limit: int, orders: seq<seq<TxId>>)
    decreases |orders|
  {
    orders == [] || (Enumerates(orders[0], w) && Rounds(Left(w, orders[0], height, limit), height, limit, orders[1..]))
  }

  ghost function AfterRounds(w: Waiting, height: int, limit: int, orders: seq<seq<TxId>>): Waiting
    requires Rounds(w, height, limit, orders)
    decreases |orders|
  {
    if orders == [] then w else AfterRounds(Left(w, orders[0], height, limit), height, limit, orders[1..])
  }

  lemma RoundShrinks(w: Waiting, order: seq<TxId>, height: int, limit: int)
    requires Intact(w) && Enumerates(order, w)
    ensures var w' := Left(w, order, height, limit);
      && Intact(w')
      && EligibleKeys(w', height) <= EligibleKeys(w, height)
      && (EligibleKeys(w, height) == {} || |EligibleKeys(w', height)| < |EligibleKeys(w, height)|)
  {
    ScanSound(w, order, height, limit, 0);
    ScanComplete(w, order, height, limit, 0);
    var keys := Scan(w, order, height, limit, 0).value;
    var all, rest := EligibleKeys(w, height), EligibleKeys(Left(w, order, height, limit), height);
    if some :| some in all {
      assert some in order && Eligible(w, height, some);
      assert keys[0] in all && keys[0] !in rest;
      ProperSubsetSmaller(rest, all, keys[0]);
    }
  }

  /** Every scan takes at least one eligible proof, whatever the limit, so as many scans as there are drain them all. */
  lemma {:induction false} RoundsDrain(w: Waiting, height: int, limit: int, orders: seq<seq<TxId>>)
    requires Intact(w) && Rounds(w, height, limit, orders) && |EligibleKeys(w, height)| <= |orders|
    ensures AfterRounds(w, height, limit, orders) == map k | k in w && w[k].p.height > height :: w[k]
    decreases |orders|
  {
    if orders == [] {
      assert EligibleKeys(w, height) == {};
      forall k | k in w ensures !Eligible(w, height, k) {
        assert k !in EligibleKeys(w, height);
      }
    } else {
      RoundShrinks(w, orders[0], height, limit);
      RoundLeaves(w, orders[0], height, limit);
      RoundsDrain(Left(w, orders[0], height, limit), height, limit, orders[1..]);
    }
  }

  lemma RoundLeaves(w: Waiting, order: seq<TxId>, height: int, limit: int)
    requires Intact(w) && Enumerates(order, w)
    ensures var w' := Left(w, order, height, limit);
      && (forall k | k in w' :: k in w && w'[k] == w[k])
      && (forall k | k in w && w[k].p.height > height :: k in w')
  {
    ScanSound(w, order, height, limit, 0);
  }

  lemma ProperSubsetSmaller(a: set<TxId>, b: set<TxId>, x: TxId)
    requires a <= b && x in b && x !in a
    ensures |a| < |b|
  {
    CardinalityMonotone(a, b - {x});
  }

  lemma {:induction false} CardinalityMonotone(a: set<TxId>, b: set<TxId>)
    requires a <= b
    ensures |a| <= |b|
  {
    if a != {} {
      var x :| x in a;
      CardinalityMonotone(a - {x}, b - {x});
    }
  }

  function Prepend(keys: seq<TxId>, rest: Option<seq<TxId>>): Option<seq<TxId>> {
    if rest.None? then None else Some(keys + rest.value)
  }

  /** One key of a scan that has already taken some. */
  lemma ScanAt(w: Waiting, order: seq<TxId>, i: nat, height: int, limit: int, total: int, keys: seq<TxId>)
    requires i < |order| && forall k | k in order :: k in w
    ensures var k := order[i];
      Prepend(keys, Scan(w, order[i..], height, limit, total))
      == if w[k].Corrupt? then None
         else if !Eligible(w, height, k) then Prepend(keys, Scan(w, order[i + 1..], height, limit, total))
         else if total + |k| > limit then Some(keys + [k])
         else Prepend(keys + [k], Scan(w, order[i + 1..], height, limit, total + |k|))
  {
    var k := order[i];
    assert order[i..][0] == k && order[i..][1..] == order[i + 1..];
    var rest := Scan(w, order[i + 1..], height, limit, total + |k|);
    if rest.Some? {
      assert keys + ([k] + rest.value) == keys + [k] + rest.value;
    }
  }

  lemma ScanNothing(w: Waiting, height: int, limit: int, total: int)
    ensures Scan(w, [], height, limit, total) == Some([])
  {
  }

  /** One scan from the start, and what it leaves. */
  lemma ScanLeaves(w: Waiting, order: seq<TxId>, h: int, limit: int)
    requires Enumerates(order, w)
    ensures match Scan(w, order, h, limit, 0)
      case None => Left(w, order, h, limit) == w && exists k | k in w :: w[k].Corrupt?
      case Some(keys) =>
        && Left(w, order, h, limit) == w - (set k | k in keys)
        && (forall i, j | 0 <= i < j < |keys| :: keys[i] != keys[j])
        && (KeyBytes(keys) <= limit ==> forall k | k in w && k !in keys :: !(w[k].Proof? && w[k].p.height <= h))
        && (|keys| > 1 ==> KeyBytes(keys[..|keys| - 1]) <= limit)
        && (keys == [] ==> forall k | k in w :: !(w[k].Proof? && w[k].p.height <= h))
  {
    ScanSound(w, order, h, limit, 0);
    if Scan(w, order, h, limit, 0).Some? {
      ScanComplete(w, order, h, limit, 0);
    }
  }

  class WaitingDB {
    const maxReadSize: int
    var waiting: Waiting
    var voted: set<TxId>
    var height: Option<uint32>

    constructor (maxReadSize: int)
      ensures waiting == map[] && voted == {} && height == None && this.maxReadSize == maxReadSize
    {
      waiting, voted, height := map[], {}, None;
      this.maxReadSize := maxReadSize;
    }

    method SetHeight(h: uint32)
      modifies this`height
      ensures height == Some(h)
    {
      height := Some(h);
    }

    function GetHeight(): uint32
      reads this
    {
      if height.Some? then height.value else 0
    }

    method Put(txid: TxId, item: BtcProof)
      modifies this`waiting
      ensures waiting == old(waiting)[txid := Proof(item)]
    {
      waiting := waiting[txid := Proof(item)];
    }

    method MarkVotedTx(txid: TxId)
      modifies this`voted
      ensures voted == old(voted) + {txid}
    {
      voted := voted + {txid};
    }

    method DelIfExist(txid: TxId) returns (exist: bool)
      modifies this`waiting
      ensures exist == (txid in old(waiting)) && waiting == old(waiting) - {txid}
    {
      exist := txid in waiting;
      waiting := waiting - {txid};
    }

    /** Takes the proofs at or below the height out of the waiting map, within the byte limit; on a value that does not
        decode, nothing changes. */
    method GetUnderHeightAndDelete(h: uint32, order: seq<TxId>) returns (ok: bool, arr: seq<BtcProof>, keys: seq<TxId>)
      requires Enumerates(order, waiting)
      modifies this`waiting
      ensures ok == Scan(old(waiting), order, h, maxReadSize, 0).Some?
      ensures ok ==> keys == Scan(old(waiting), order, h, maxReadSize, 0).value
      ensures ok ==> |arr| == |keys| && forall i | 0 <= i < |keys| ::
        keys[i] in old(waiting) && old(waiting)[keys[i]] == Proof(arr[i]) && arr[i].height <= h
      ensures waiting == Left(old(waiting), order, h, maxReadSize)
      ensures ok ==> waiting == old(waiting) - set k | k in keys
      ensures ok ==> forall i, j | 0 <= i < j < |keys| :: keys[i] != keys[j]
      ensures ok && KeyBytes(keys) <= maxReadSize ==> forall k | k in waiting :: !(waiting[k].Proof? && waiting[k].p.height <= h)
      ensures ok && |keys| > 1 ==> KeyBytes(keys[..|keys| - 1]) <= maxReadSize
      ensures ok && keys == [] ==> forall k | k in old(waiting) :: !(old(waiting)[k].Proof? && old(waiting)[k].p.height <= h)
      ensures !ok ==> exists k | k in old(waiting) :: old(waiting)[k].Corrupt?
      ensures !ok ==> arr == [] && keys == [] && waiting == old(waiting)
    {
      hide Scan, KeyBytes, Left;
      ghost var before := waiting;
      arr, keys := [], [];
      var total := 0;
      var i := 0;
      ghost var full := Scan(waiting, order, h, maxReadSize, 0);
      assert order[0..] == order && (full.Some? ==> [] + full.value == full.value);
      while i < |order|
        invariant 0 <= i <= |order| && waiting == old(waiting)
        invariant |arr| == |keys| && forall j | 0 <= j < |keys| ::
          keys[j] in waiting && waiting[keys[j]] == Proof(arr[j]) && arr[j].height <= h
        invariant full == Prepend(keys, Scan(waiting, order[i..], h, maxReadSize, total))
      {
        var k := order[i];
        ScanAt(waiting, order, i, h, maxReadSize, total, keys);
        if waiting[k].Corrupt? {
          ScanLeaves(before, order, h, maxReadSize);
          return false, [], [];
        }
        var p := waiting[k].p;
        if p.height <= h {
          arr, keys := arr + [p], keys + [k];
          total := total + |k|;
          if total > maxReadSize {
            break;
          }
        }
        i := i + 1;
      }
      assert full == Some(keys) by {
        assert i == |order| ==> order[i..] == [] && keys + [] == keys;
        ScanNothing(waiting, h, maxReadSize, total);
      }
      ScanLeaves(before, order, h, maxReadSize);
      DeleteAll(keys);
      ok := true;
    }

    method DeleteAll(keys: seq<TxId>)
      modifies this`waiting
      ensures waiting == old(waiting) - set k | k in keys
    {
      for j := 0 to |keys|
        invariant waiting == old(waiting) - set k | k in keys[..j]
      {
        assert keys[..j + 1] == keys[..j] + [keys[j]];
        waiting := waiting - {keys[j]};
      }
      assert keys[..|keys|] == keys;
    }
  }

  /** The confirmation test of verify, in the source's 64- and 32-bit arithmetic. */
  predicate Confirmed(best: uint32, p: BtcProof) {
    best >= p.height && best - p.height >= (p.blocksToWait - 1) % 0x1_0000_0000_0000_0000 % TWO_32
  }

  /** The height WaitingRetry selects up to when the chain reaches newh. */
  function RetryHeight(newh: uint32, blksToWait: nat): uint32 {
    (newh - blksToWait % TWO_32 + 1) % TWO_32
  }

  /** Selection for retry and the confirmation test agree at every proof height exactly when the chain is at least
      blksToWait - 1 blocks long, in 32 bits; below that the threshold wraps around. */
  lemma RetryAgreesIff(newh: uint32, blksToWait: nat)
    requires blksToWait < 0x1_0000_0000_0000_0000
    ensures (forall p: BtcProof | p.blocksToWait == blksToWait :: p.height <= RetryHeight(newh, blksToWait) <==> Confirmed(newh, p))
       <==> (blksToWait - 1) % 0x1_0000_0000_0000_0000 % TWO_32 <= newh
  {
    var c := (blksToWait - 1) % 0x1_0000_0000_0000_0000 % TWO_32;
    assert RetryHeight(newh, blksToWait) == (newh - c) % TWO_32;
    if c > newh {
      var p := BtcProof([], 0, blksToWait, 0);
      assert !Confirmed(newh, p) && p.height <= RetryHeight(newh, blksToWait);
    }
  }
}
