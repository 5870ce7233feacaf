/** Where Rollback stops, and what stopping there leaves of the header tree. */
module Rollback {
  import opened Arithmetic
  import opened Headers
  import opened Compact
  import opened Difficulty
  import opened HeaderTree
  import opened ForkChoice
  import opened Epochs

  predicate Stops(p: Params, sh: StoredHeader, t: int, checkpoint: Hash) {
    p.hash(sh.header) == checkpoint || sh.header.time < t
  }

  /** The first header from sh downward that the rollback to time t may stop at, as far as the store leads down. */
  function StopAt(s: Bucket, p: Params, sh: StoredHeader, t: int, checkpoint: Hash): Option<StoredHeader>
    decreases sh.height
  {
    var prev := sh.header.prev;
    if Stops(p, sh, t, checkpoint) then Some(sh)
    else if prev in s && s[prev].height < sh.height then StopAt(s, p, s[prev], t, checkpoint)
    else None
  }

  /** The headers a deletion after `height` leaves. */
  function KeptUpTo(s: Bucket, height: int): Bucket {
    map k | k in s && s[k].height <= height :: s[k]
  }

  /** The chain after rolling back to time t; unchanged if the tip may stay, or if there is nowhere to stop. */
  ghost function RolledBack(c: Chain, root: Hash, p: Params, t: int, checkpoint: Hash): Chain
    requires Valid(c, root, p)
  {
    match StopAt(c.headers, p, c.tip, t, checkpoint)
    case None => c
    case Some(sh) =>
      if p.hash(sh.header) == p.hash(c.tip.header) then c else Chain(KeptUpTo(c.headers, sh.height), sh)
  }

  /** The rollback stops at the nearest ancestor-or-self of the tip that may be stopped at, if there is any. */
  lemma {:induction false} StopIsNearest(c: Chain, root: Hash, p: Params, k: Hash, t: int, checkpoint: Hash)
    requires Valid(c, root, p) && k in c.headers
    ensures match StopAt(c.headers, p, c.headers[k], t, checkpoint)
      case None => forall a :: IsAncestor(c.headers, root, a, k) ==> !Stops(p, c.headers[a], t, checkpoint)
      case Some(sh) =>
        && IsAncestor(c.headers, root, p.hash(sh.header), k) && c.headers[p.hash(sh.header)] == sh
        && Stops(p, sh, t, checkpoint)
        && forall a :: IsAncestor(c.headers, root, a, k) && Stops(p, c.headers[a], t, checkpoint) ==>
             c.headers[a].height <= sh.height
    decreases c.headers[k].height
  {
    var s := c.headers;
    assert Linked(s, root, k) && Entry(s, root, p, k);
    if !Stops(p, s[k], t, checkpoint) {
      if k != root {
        var prev := s[k].header.prev;
        StopIsNearest(c, root, p, prev, t, checkpoint);
        forall a | IsAncestor(s, root, a, k) && a != k ensures IsAncestor(s, root, a, prev) {
          assert Linked(s, root, a);
        }
      } else {
        forall a | IsAncestor(s, root, a, k) ensures a == k {
          assert Linked(s, root, a);
        }
      }
    }
  }

  /** Some header from k downward was made before t or is the checkpoint. */
  ghost predicate MayStop(s: Bucket, root: Hash, k: Hash, t: int, checkpoint: Hash)
    requires Tree(s, root) && k in s
  {
    exists a :: IsAncestor(s, root, a, k) && (s[a].header.time < t || a == checkpoint)
  }

  /** c' is c rolled back: nothing changes if the tip was made before t or is the checkpoint, or if no ancestor of it
      was or is; otherwise the tip is the highest such ancestor, and exactly the headers no higher than it remain. */
  ghost predicate IsRollback(c: Chain, root: Hash, p: Params, t: int, checkpoint: Hash, c': Chain)
    requires Valid(c, root, p)
  {
    var s, tip, r := c.headers, p.hash(c.tip.header), p.hash(c'.tip.header);
    if s[tip].header.time < t || tip == checkpoint || !MayStop(s, root, tip, t, checkpoint) then c' == c
    else
      && IsAncestor(s, root, r, tip) && c'.tip == s[r] && (s[r].header.time < t || r == checkpoint)
      && (forall a :: IsAncestor(s, root, a, tip) && (s[a].header.time < t || a == checkpoint) ==> s[a].height <= s[r].height)
      && forall k :: if k in s && s[k].height <= s[r].height then k in c'.headers && c'.headers[k] == s[k] else k !in c'.headers
  }

  lemma {:induction false} RollbackMeans(c: Chain, root: Hash, p: Params, t: int, checkpoint: Hash)
    requires Valid(c, root, p)
    ensures IsRollback(c, root, p, t, checkpoint, RolledBack(c, root, p, t, checkpoint))
    ensures StopAt(c.headers, p, c.tip, t, checkpoint).Some? <==> MayStop(c.headers, root, p.hash(c.tip.header), t, checkpoint)
  {
    hide StopAt;
    var s, tip := c.headers, p.hash(c.tip.header);
    StopIsNearest(c, root, p, tip, t, checkpoint);
    forall a | IsAncestor(s, root, a, tip) ensures Stops(p, s[a], t, checkpoint) <==> s[a].header.time < t || a == checkpoint {
      assert Entry(s, root, p, a);
    }
    assert IsAncestor(s, root, tip, tip);
    var stop := StopAt(s, p, c.tip, t, checkpoint);
    if stop.Some? && p.hash(stop.value.header) != tip {
      HighestIsBelow(c, root, p, p.hash(stop.value.header));
    }
  }

  lemma HighestIsBelow(c: Chain, root: Hash, p: Params, a: Hash)
    requires Valid(c, root, p) && IsAncestor(c.headers, root, a, p.hash(c.tip.header)) && a != p.hash(c.tip.header)
    ensures c.headers[a].height < c.tip.height
  {
    assert Linked(c.headers, root, p.hash(c.tip.header));
  }

  lemma TreeKept(s: Bucket, root: Hash, height: int)
    requires Tree(s, root) && s[root].height <= height
    ensures Tree(KeptUpTo(s, height), root)
  {
    var s' := KeptUpTo(s, height);
    forall x {:trigger Linked(s', root, x)} | x in s' ensures Linked(s', root, x) {
      assert Linked(s, root, x);
    }
  }

  /** Rolling back keeps the invariant of the store. */
  lemma RollbackKeeps(c: Chain, root: Hash, p: Params, t: int, checkpoint: Hash)
    requires Valid(c, root, p)
    ensures Valid(RolledBack(c, root, p, t, checkpoint), root, p)
  {
    var c' := RolledBack(c, root, p, t, checkpoint);
    if c' != c {
      StopIsNearest(c, root, p, p.hash(c.tip.header), t, checkpoint);
      assert Linked(c.headers, root, p.hash(c'.tip.header));
      TreeKept(c.headers, root, c'.tip.height);
      forall x {:trigger Entry(c'.headers, root, p, x)} | x in c'.headers ensures Entry(c'.headers, root, p, x) {
        assert Entry(c.headers, root, p, x) && Linked(c.headers, root, x);
      }
    }
  }

  /** Rolling back twice to one time and checkpoint is rolling back once. */
  lemma RollbackIdempotent(c: Chain, root: Hash, p: Params, t: int, checkpoint: Hash)
    requires Valid(c, root, p)
    ensures var c' := RolledBack(c, root, p, t, checkpoint);
      Valid(c', root, p) && RolledBack(c', root, p, t, checkpoint) == c'
  {
    RollbackKeeps(c, root, p, t, checkpoint);
    StopIsNearest(c, root, p, p.hash(c.tip.header), t, checkpoint);
  }

  ghost predicate EqualBitsAbove(s: Bucket, root: Hash, bits: nat) {
    forall k | k in s && k != root :: s[k].header.bits == bits
  }

  lemma {:induction false} WorkByHeight(c: Chain, root: Hash, p: Params, bits: nat, k: Hash)
    requires Valid(c, root, p) && EqualBitsAbove(c.headers, root, bits) && k in c.headers
    ensures c.headers[k].work == c.headers[root].work + (c.headers[k].height - c.headers[root].height) * CalcWork(bits)
    decreases c.headers[k].height
  {
    assert Linked(c.headers, root, k) && Entry(c.headers, root, p, k);
    if k != root {
      WorkByHeight(c, root, p, bits, c.headers[k].header.prev);
      Successor(c.headers[k].height - 1 - c.headers[root].height, CalcWork(bits));
    } else {
      assert 0 * CalcWork(bits) == 0;
    }
  }

  /** If what a rollback keeps above the root has equal bits, the new tip again carries maximal work. */
  lemma RollbackTipMaximal(c: Chain, root: Hash, p: Params, t: int, checkpoint: Hash, bits: nat)
    requires Valid(c, root, p) && TipMaximal(c)
    requires EqualBitsAbove(RolledBack(c, root, p, t, checkpoint).headers, root, bits)
    ensures TipMaximal(RolledBack(c, root, p, t, checkpoint))
  {
    RollbackKeeps(c, root, p, t, checkpoint);
    var c' := RolledBack(c, root, p, t, checkpoint);
    if c' != c {
      WorkByHeight(c', root, p, bits, p.hash(c'.tip.header));
      forall k | k in c'.headers ensures c'.headers[k].work <= c'.tip.work {
        WorkByHeight(c', root, p, bits, k);
        ScaleMonotone(c'.headers[k].height - c'.headers[root].height, c'.tip.height - c'.headers[root].height, CalcWork(bits));
      }
    }
  }

  /** x lies below y, or the two share the first header of their epoch. */
  ghost predicate BelowOrSameEpoch(c: Chain, root: Hash, p: Params, x: Hash, y: Hash)
    requires Valid(c, root, p) && x in c.headers && y in c.headers && c.headers[root].height % EPOCH_LENGTH == 0
  {
    IsAncestor(c.headers, root, x, y) || EpochFirst(c, root, p, x) == EpochFirst(c, root, p, y)
  }

  /** With difficulty checked, a rollback also ends at a tip of maximal work if all it keeps lies below that tip or
      shares the first header of its epoch. */
  lemma RollbackTipMaximalInEpoch(c: Chain, root: Hash, p: Params, t: int, checkpoint: Hash)
    requires Valid(c, root, p) && TipMaximal(c) && !p.reduceMinDifficulty && c.headers[root].height % EPOCH_LENGTH == 0
    requires var c' := RolledBack(c, root, p, t, checkpoint);
      && Valid(c', root, p) && c'.headers[root].height % EPOCH_LENGTH == 0
      && forall k {:trigger BelowOrSameEpoch(c', root, p, k, p.hash(c'.tip.header))} | k in c'.headers ::
           BelowOrSameEpoch(c', root, p, k, p.hash(c'.tip.header))
    ensures TipMaximal(RolledBack(c, root, p, t, checkpoint))
  {
    var c' := RolledBack(c, root, p, t, checkpoint);
    var tip := p.hash(c'.tip.header);
    if c' != c {
      forall k | k in c'.headers ensures c'.headers[k].work <= c'.tip.work {
        assert BelowOrSameEpoch(c', root, p, k, tip);
        if IsAncestor(c'.headers, root, k, tip) {
          WorkGrows(c', root, p, k, tip);
        } else {
          LongestIsHeaviest(c', root, p, tip, k);
        }
      }
    }
  }
}
