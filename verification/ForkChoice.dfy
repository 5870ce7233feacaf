/** What a header must satisfy, and what committing one does to the stored headers and the tip. */
module ForkChoice {
  import opened Headers
  import opened Compact
  import opened Difficulty
  import opened HeaderTree

  /** The flushed header store: every header by its hash, and the best one. */
  datatype Chain = Chain(headers: Bucket, tip: StoredHeader)

  /** What each stored header carries, besides its place in the tree. */
  ghost predicate Entry(s: Bucket, root: Hash, p: Params, k: Hash)
    requires k in s
  {
    && p.hash(s[k].header) == k
    && TargetInRange(s[k].header.bits, p)
    && (k != root ==> CheckProofOfWork(s[k].header, p))
    && (k != root && s[k].header.prev in s ==> s[k].work == s[s[k].header.prev].work + CalcWork(s[k].header.bits))
    && (k != root && s[k].header.prev in s && !p.reduceMinDifficulty && s[k].height % EPOCH_LENGTH != 0 ==>
          s[k].header.bits == s[s[k].header.prev].header.bits)
  }

  ghost predicate Valid(c: Chain, root: Hash, p: Params) {
    && ValidLimits(p)
    && Tree(c.headers, root)
    && (forall k {:trigger Entry(c.headers, root, p, k)} | k in c.headers :: Entry(c.headers, root, p, k))
    && p.hash(c.tip.header) in c.headers
    && c.headers[p.hash(c.tip.header)] == c.tip
  }

  ghost predicate TipMaximal(c: Chain) {
    forall k | k in c.headers :: c.headers[k].work <= c.tip.work
  }

  /** SHA-256 collisions aside: a header hashing to a stored key is that header, and none hashes below the root. */
  ghost predicate NoCollision(s: Bucket, root: Hash, p: Params, header: Header)
    requires root in s
  {
    && (p.hash(header) in s ==> s[p.hash(header)].header == header)
    && p.hash(header) != s[root].header.prev
  }

  /** The header 2015 below the tip, which the adjustment takes for the first of the epoch. */
  ghost function EpochStart(c: Chain): Option<StoredHeader> {
    Back(c.headers, c.tip, EPOCH_LENGTH - 1)
  }

  /** The testnet rule walks back over headers that used the minimum difficulty, as far as the store leads down. */
  function LastOrdinary(s: Bucket, p: Params, sh: StoredHeader): StoredHeader
    decreases sh.height
  {
    var prev := sh.header.prev;
    if sh.height % EPOCH_LENGTH != 0 && sh.header.bits == p.powLimitBits && prev in s && s[prev].height < sh.height
    then LastOrdinary(s, p, s[prev]) else sh
  }

  /** The bits a header above `prev` must carry while `best` is the best header; none if the adjustment cannot be made. */
  function RequiredBits(s: Bucket, best: StoredHeader, p: Params, header: Header, prev: StoredHeader): Option<uint32> {
    if (prev.height + 1) % EPOCH_LENGTH != 0 then
      if !p.reduceMinDifficulty then Some(prev.header.bits)
      else if (header.time - prev.header.time) * NANOS_PER_SECOND > 2 * TARGET_SPACING then Some(p.powLimitBits)
      else Some(LastOrdinary(s, p, prev).header.bits)
    else
      var epoch := Back(s, best, EPOCH_LENGTH - 1);
      if epoch.Some? && CompactToBig(prev.header.bits) >= 0 && p.powLimit < TWO_256
      then Some(CalcDiffAdjust(epoch.value.header, prev.header, p)) else None
  }

  predicate MeetsRules(s: Bucket, best: StoredHeader, p: Params, header: Header, prev: StoredHeader) {
    && p.hash(prev.header) == header.prev
    && (p.reduceMinDifficulty || RequiredBits(s, best, p, header, prev) == Some(header.bits))
    && CheckProofOfWork(header, p)
  }

  ghost predicate Accepts(c: Chain, root: Hash, p: Params, header: Header)
    requires Valid(c, root, p)
  {
    header.prev in c.headers && MeetsRules(c.headers, c.tip, p, header, c.headers[header.prev])
  }

  /** The record that stores `header` on top of its stored parent; heights have room below 2^31. */
  ghost function Extension(s: Bucket, header: Header): StoredHeader
    requires header.prev in s && s[header.prev].height < TWO_31 - 1
  {
    StoredHeader(header, s[header.prev].height + 1, s[header.prev].work + CalcWork(header.bits))
  }

  ghost predicate HasRoom(s: Bucket) {
    forall k | k in s :: s[k].height < TWO_31 - 1
  }

  ghost function Commit(c: Chain, root: Hash, p: Params, header: Header): Chain
    requires Valid(c, root, p) && HasRoom(c.headers)
  {
    if !Accepts(c, root, p, header) || p.hash(header) == p.hash(c.tip.header) then c else
    var sh := Extension(c.headers, header);
    Chain(c.headers[p.hash(header) := sh], if sh.work > c.tip.work then sh else c.tip)
  }

  /** A header is accepted exactly when its parent is stored, its hash meets its own target and that target is allowed,
      and, where difficulty is checked, its bits are its parent's or, at a multiple of 2016, those of the adjustment
      from the tip's ancestor 2015 below. */
  lemma {:induction false} AcceptsIff(c: Chain, root: Hash, p: Params, header: Header)
    requires Valid(c, root, p)
    ensures var s, tip, target := c.headers, p.hash(c.tip.header), CompactToBig(header.bits);
      Accepts(c, root, p, header) <==>
        && header.prev in s
        && 0 < target <= p.powLimit && p.hash(header) <= target
        && (p.reduceMinDifficulty ||
             if (s[header.prev].height + 1) % 2016 != 0 then header.bits == s[header.prev].header.bits
             else
               assert Entry(s, root, p, header.prev);
               && s[root].height <= c.tip.height - 2015
               && header.bits == CalcDiffAdjust(s[Ancestor(s, root, tip, c.tip.height - 2015)].header, s[header.prev].header, p))
  {
    hide CompactToBig;
    BackIsAncestor(c.headers, root, p.hash(c.tip.header), 2015);
    if header.prev in c.headers {
      assert Entry(c.headers, root, p, header.prev);
    }
  }

  lemma ExtensionAttaches(c: Chain, root: Hash, p: Params, header: Header)
    requires Valid(c, root, p) && HasRoom(c.headers) && NoCollision(c.headers, root, p, header)
    requires header.prev in c.headers
    ensures Attaches(c.headers, root, p.hash(header), Extension(c.headers, header))
  {
    var k := p.hash(header);
    if k in c.headers {
      assert Linked(c.headers, root, k);
    }
  }

  /** A stored header's record is the one committing it again would make. */
  lemma StoredIsExtension(c: Chain, root: Hash, p: Params, header: Header)
    requires Valid(c, root, p) && HasRoom(c.headers) && NoCollision(c.headers, root, p, header)
    requires p.hash(header) in c.headers && header.prev in c.headers
    ensures c.headers[p.hash(header)] == Extension(c.headers, header)
  {
    assert Linked(c.headers, root, p.hash(header));
    assert Entry(c.headers, root, p, p.hash(header));
  }

  /** Every commit keeps the tree and what is in it, and leaves a tip that no stored header outweighs. */
  lemma {:induction false} CommitKeeps(c: Chain, root: Hash, p: Params, header: Header)
    requires Valid(c, root, p) && HasRoom(c.headers) && NoCollision(c.headers, root, p, header)
    ensures Valid(Commit(c, root, p, header), root, p)
    ensures forall k | k in c.headers :: k in Commit(c, root, p, header).headers
                                      && Commit(c, root, p, header).headers[k] == c.headers[k]
    ensures Extends(c.headers, Commit(c, root, p, header).headers)
    ensures TipMaximal(c) ==> TipMaximal(Commit(c, root, p, header))
  {
    var c' := Commit(c, root, p, header);
    if Accepts(c, root, p, header) && p.hash(header) != p.hash(c.tip.header) {
      var k, s, s' := p.hash(header), c.headers, c'.headers;
      ExtensionAttaches(c, root, p, header);
      TreeInsert(s, root, k, Extension(s, header));
      if k in s {
        StoredIsExtension(c, root, p, header);
      }
      forall x {:trigger Entry(s', root, p, x)} | x in s' ensures Entry(s', root, p, x) {
        if x in s {
          assert Entry(s, root, p, x) && Linked(s, root, x);
        }
      }
    }
  }

  /** Committing a header that is already stored changes nothing. */
  lemma {:induction false} RecommitIsNothing(c: Chain, root: Hash, p: Params, header: Header)
    requires Valid(c, root, p) && TipMaximal(c) && HasRoom(c.headers) && NoCollision(c.headers, root, p, header)
    requires p.hash(header) in c.headers
    ensures Commit(c, root, p, header) == c
  {
    if header.prev in c.headers {
      StoredIsExtension(c, root, p, header);
    }
  }

  /** Work grows strictly from ancestor to descendant. */
  lemma {:induction false} WorkGrows(c: Chain, root: Hash, p: Params, a: Hash, k: Hash)
    requires Valid(c, root, p) && k in c.headers && IsAncestor(c.headers, root, a, k)
    ensures a == k || c.headers[a].work < c.headers[k].work
    decreases c.headers[k].height
  {
    assert Linked(c.headers, root, a) && Linked(c.headers, root, k) && Entry(c.headers, root, p, k);
    if a != k {
      CalcWorkPositive(c.headers[k].header.bits);
      WorkGrows(c, root, p, a, c.headers[k].header.prev);
    }
  }

  /** A new tip that is not a child of the old one does not descend from it either. */
  lemma {:induction false} ReorgDrops(c: Chain, root: Hash, p: Params, header: Header)
    requires Valid(c, root, p) && TipMaximal(c) && HasRoom(c.headers) && NoCollision(c.headers, root, p, header)
    requires Accepts(c, root, p, header) && header.prev != p.hash(c.tip.header)
    requires Extension(c.headers, header).work > c.tip.work
    ensures p.hash(header) !in c.headers
    ensures var s := Commit(c, root, p, header).headers;
      Tree(s, root) && p.hash(header) in s && !IsAncestor(s, root, p.hash(c.tip.header), p.hash(header))
  {
    if p.hash(header) in c.headers {
      StoredIsExtension(c, root, p, header);
    }
    CommitKeeps(c, root, p, header);
    var s, x, tip := Commit(c, root, p, header).headers, p.hash(header), p.hash(c.tip.header);
    if IsAncestor(s, root, tip, x) {
      assert Linked(s, root, x) && Linked(c.headers, root, tip);
      assert IsAncestor(s, root, tip, header.prev);
      AncestorExtends(c.headers, s, root, header.prev, c.tip.height);
      WorkGrows(c, root, p, tip, header.prev);
    }
  }

  /** The reported ancestor is the highest one the new tip and the old tip have in common; it lies strictly below an
      old tip that nothing outweighed, so the reorganisation drops at least one block. */
  ghost predicate ReorgReport(c: Chain, root: Hash, p: Params, header: Header, ancestor: StoredHeader)
    requires Valid(c, root, p) && HasRoom(c.headers)
  {
    var s, x, tip, a := Commit(c, root, p, header).headers, p.hash(header), p.hash(c.tip.header), p.hash(ancestor.header);
    && Tree(s, root) && x in s && tip in s && a in s
    && s[a].header == ancestor.header && s[a].height == ancestor.height
    && HighestCommonAncestor(s, root, x, tip, a)
    && (TipMaximal(c) ==> ancestor.height < c.tip.height)
  }

  lemma {:induction false} ReorgReported(c: Chain, root: Hash, p: Params, header: Header, ancestor: StoredHeader)
    requires Valid(c, root, p) && HasRoom(c.headers) && NoCollision(c.headers, root, p, header)
    requires Accepts(c, root, p, header) && p.hash(header) != p.hash(c.tip.header) && header.prev != p.hash(c.tip.header)
    requires Extension(c.headers, header).work > c.tip.work
    requires var s := c.headers[p.hash(header) := Extension(c.headers, header).(work := 0)];
      && Tree(s, root)
      && p.hash(ancestor.header) in s && s[p.hash(ancestor.header)] == ancestor
      && HighestCommonAncestor(s, root, p.hash(header), p.hash(c.tip.header), p.hash(ancestor.header))
    ensures ReorgReport(c, root, p, header, ancestor)
  {
    var x, tip, a := p.hash(header), p.hash(c.tip.header), p.hash(ancestor.header);
    var s, s' := c.headers[x := Extension(c.headers, header).(work := 0)], Commit(c, root, p, header).headers;
    CommitKeeps(c, root, p, header);
    CommonAncestorReshape(s, s', root, x, tip, a);
    if TipMaximal(c) {
      ReorgDrops(c, root, p, header);
      assert IsAncestor(s', root, a, tip);
      assert Linked(s', root, tip);
    }
  }
}
