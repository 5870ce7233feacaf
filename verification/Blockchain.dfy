/** The chain operations as they run over the flushed header store. */
module Blockchain {
  import opened Headers
  import opened Compact
  import opened Difficulty
  import opened HeaderTree
  import opened ForkChoice
  import opened Checkpoints
  import opened Locator
  import opened Rollback

  datatype CommitError = NoError | NoTip | OrphanHeader | NoAncestor

  const LOCATOR_CAP := 500
  const ROLLBACK_CAP := 1_000_000_000

  class Blockchain {
    const params: Params
    const isOpen: bool
    ghost const root: Hash
    var headers: Bucket
    var best: Option<StoredHeader>
    var headerUpdate: seq<uint32>

    ghost function State(): Chain
      requires best.Some?
      reads this
    {
      Chain(headers, best.value)
    }

    ghost predicate Consistent()
      reads this
    {
      best.Some? ==> Valid(State(), root, params)
    }

    constructor (params: Params, isOpen: bool, checkpoint: Checkpoint)
      requires ValidLimits(params) && TargetInRange(checkpoint.header.bits, params)
      requires params.hash(checkpoint.header) != checkpoint.header.prev
      ensures this.params == params && this.isOpen == isOpen && root == params.hash(checkpoint.header)
      ensures Consistent() && best.Some? && TipMaximal(State()) && headerUpdate == []
      ensures State() == Chain(map[root := StoredHeader(checkpoint.header, checkpoint.height, 0)],
                               StoredHeader(checkpoint.header, checkpoint.height, 0))
    {
      this.params := params;
      this.isOpen := isOpen;
      root := params.hash(checkpoint.header);
      var sh := StoredHeader(checkpoint.header, checkpoint.height, 0);
      headers := map[params.hash(checkpoint.header) := sh];
      best := Some(sh);
      headerUpdate := [];
      new;
      assert Linked(headers, root, root) && Entry(headers, root, params, root);
    }

    function GetPreviousHeader(header: Header): Option<StoredHeader>
      reads this
    {
      if header.prev in headers then Some(headers[header.prev]) else None
    }

    /** Writes the record, and the tip if it is the new best. */
    method Put(sh: StoredHeader, newBestHeader: bool)
      modifies this`headers, this`best
      ensures headers == old(headers)[params.hash(sh.header) := sh]
      ensures best == if newBestHeader then Some(sh) else old(best)
    {
      headers := headers[params.hash(sh.header) := sh];
      if newBestHeader {
        best := Some(sh);
      }
    }

    method DeleteAfter(height: uint32)
      modifies this`headers
      ensures headers == KeptUpTo(old(headers), height)
    {
      headers := map k | k in headers && !(headers[k].height > height) :: headers[k];
    }

    /** n steps back from a header that itself need not be stored. */
    method StepBack(sh: StoredHeader, n: nat) returns (r: Option<StoredHeader>)
      ensures r == Back(headers, sh, n)
    {
      var parent := sh;
      for i := 0 to n
        invariant Back(headers, sh, n) == Back(headers, parent, n - i)
      {
        var prev := GetPreviousHeader(parent.header);
        if prev.None? {
          return None;
        }
        parent := prev.value;
      }
      return Some(parent);
    }

    method GetEpoch() returns (r: Option<StoredHeader>)
      ensures r == if best.None? then None else EpochStart(State())
    {
      if best.None? {
        return None;
      }
      var sh := best.value;
      for i := 0 to 2015
        invariant Back(headers, best.value, 2015) == Back(headers, sh, 2015 - i)
      {
        var prev := GetPreviousHeader(sh.header);
        if prev.None? {
          return None;
        }
        sh := prev.value;
      }
      return Some(sh);
    }

    method CalcRequiredWork(header: Header, height: uint32, prevHeader: StoredHeader) returns (r: Option<uint32>)
      requires best.Some? && Consistent()
      requires params.hash(prevHeader.header) in headers && headers[params.hash(prevHeader.header)] == prevHeader
      requires height == prevHeader.height + 1
      ensures r == RequiredBits(headers, best.value, params, header, prevHeader)
    {
      ghost var parent := params.hash(prevHeader.header);
      if height % EPOCH_LENGTH != 0 {
        if params.reduceMinDifficulty {
          if header.time * NANOS_PER_SECOND > prevHeader.header.time * NANOS_PER_SECOND + 2 * TARGET_SPACING {
            return Some(params.powLimitBits);
          }
          var sh := prevHeader;
          var more := true;
          assert Entry(headers, root, params, parent);
          while more && sh.height % EPOCH_LENGTH != 0 && sh.header.bits == params.powLimitBits
            invariant params.hash(sh.header) in headers && headers[params.hash(sh.header)] == sh
            invariant LastOrdinary(headers, params, sh) == LastOrdinary(headers, params, prevHeader)
            invariant !more ==> sh.header.prev !in headers
            decreases sh.height, more
          {
            var prev := GetPreviousHeader(sh.header);
            more := prev.Some?;
            assert Linked(headers, root, params.hash(sh.header));
            if prev.Some? {
              assert Entry(headers, root, params, sh.header.prev);
              sh := prev.value;
            }
          }
          return Some(sh.header.bits);
        }
        return Some(prevHeader.header.bits);
      }
      var epoch := GetEpoch();
      if epoch.None? {
        return None;
      }
      assert Entry(headers, root, params, parent);
      return Some(CalcDiffAdjust(epoch.value.header, prevHeader.header, params));
    }

    method CheckHeader(header: Header, prevHeader: StoredHeader) returns (r: bool)
      requires best.Some? && Consistent() && HasRoom(headers)
      requires params.hash(prevHeader.header) in headers && headers[params.hash(prevHeader.header)] == prevHeader
      ensures r == MeetsRules(headers, best.value, params, header, prevHeader)
    {
      if params.hash(prevHeader.header) != header.prev {
        return false;
      }
      if !params.reduceMinDifficulty {
        var diffTarget := CalcRequiredWork(header, prevHeader.height + 1, prevHeader);
        if diffTarget.None? {
          return false;
        }
        if header.bits != diffTarget.value {
          return false;
        }
      }
      return CheckProofOfWork(header, params);
    }

    /** The highest common ancestor of a header that need not be stored yet and the best one. */
    method GetCommonAncestor(bestHeader: StoredHeader, prevBestHeader: StoredHeader) returns (r: Option<StoredHeader>)
      requires best.Some? && Consistent()
      requires params.hash(prevBestHeader.header) in headers
      requires headers[params.hash(prevBestHeader.header)] == prevBestHeader
      requires Attaches(headers, root, params.hash(bestHeader.header), bestHeader)
      ensures var s := headers[params.hash(bestHeader.header) := bestHeader];
        && Tree(s, root)
        && r.Some?
        && params.hash(r.value.header) in s && s[params.hash(r.value.header)] == r.value
        && HighestCommonAncestor(s, root, params.hash(bestHeader.header), params.hash(prevBestHeader.header),
             params.hash(r.value.header))
    {
      ghost var x, y := params.hash(bestHeader.header), params.hash(prevBestHeader.header);
      TreeInsert(headers, root, x, bestHeader);
      KeysAreHashes(x, bestHeader);
      WalksStart(headers, root, x, bestHeader, y);
      var majority, minority := bestHeader, prevBestHeader;
      if bestHeader.height > prevBestHeader.height {
        var back := StepBack(majority, bestHeader.height - prevBestHeader.height);
        if back.None? {
          return None;
        }
        majority := back.value;
      } else if prevBestHeader.height > bestHeader.height {
        var back := StepBack(minority, prevBestHeader.height - bestHeader.height);
        if back.None? {
          return None;
        }
        minority := back.value;
      }
      ghost var h: int := if bestHeader.height > prevBestHeader.height then prevBestHeader.height else bestHeader.height;
      while params.hash(majority.header) != params.hash(minority.header)
        invariant WalksAt(headers, root, x, bestHeader, y, h, majority, minority)
        decreases h
      {
        WalksStep(headers, root, x, bestHeader, y, h, majority, minority);
        var prev := GetPreviousHeader(majority.header);
        if prev.None? {
          return None;
        }
        majority := prev.value;
        prev := GetPreviousHeader(minority.header);
        if prev.None? {
          return None;
        }
        minority := prev.value;
        h := h - 1;
      }
      WalksMeet(headers, root, x, bestHeader, y, h, majority, minority);
      return Some(majority);
    }

    lemma KeysAreHashes(x: Hash, sh: StoredHeader)
      requires best.Some? && Consistent() && x == params.hash(sh.header)
      ensures forall k | k in headers :: params.hash(headers[k].header) == k
      ensures var s := headers[x := sh]; forall k | k in s :: params.hash(s[k].header) == k
    {
      forall k | k in headers ensures params.hash(headers[k].header) == k {
        assert Entry(headers, root, params, k);
      }
    }

    /** Stores a header that meets the rules on top of its stored parent, and makes it the tip if it has more work. */
    method CommitHeader(header: Header) returns (newTip: bool, ancestor: Option<StoredHeader>, height: uint32, err: CommitError)
      requires Consistent()
      requires best.Some? ==> HasRoom(headers) && NoCollision(headers, root, params, header)
      modifies this
      ensures Consistent()
      ensures best.None? <==> old(best.None?)
      ensures err == if old(best.None?) then NoTip else if header.prev !in old(headers) then OrphanHeader else NoError
      ensures err == NoTip ==> headers == old(headers)
      ensures err != NoTip ==> State() == Commit(old(State()), root, params, header)
      ensures var stored := old(best.Some? && Accepts(State(), root, params, header)
                                && params.hash(header) != params.hash(best.value.header));
        && (!stored ==> !newTip && ancestor.None? && height == 0 && headers == old(headers) && best == old(best))
        && (stored ==>
              && header.prev in old(headers)
              && height == old(headers)[header.prev].height + 1
              && (var sh := StoredHeader(header, height, old(headers)[header.prev].work + CalcWork(header.bits));
                  headers == old(headers)[params.hash(header) := sh] && best == if newTip then Some(sh) else old(best))
              && (newTip <==> old(headers)[header.prev].work + CalcWork(header.bits) > old(best.value.work))
              && (ancestor.Some? <==> newTip && header.prev != params.hash(old(best.value.header)))
              && (ancestor.Some? ==> old(ReorgReport(State(), root, params, header, ancestor.value))))
      ensures headerUpdate == if isOpen && newTip then old(headerUpdate) + [height] else old(headerUpdate)
    {
      hide Entry, Tree, HighestCommonAncestor, ReorgReport, TipMaximal, Extends, MeetsRules, CalcWork;
      newTip, ancestor, height, err := false, None, 0, NoError;
      if best.None? {
        return false, None, 0, NoTip;
      }
      var bestHeader := best.value;
      var tipHash := params.hash(bestHeader.header);
      var parentHeader;
      if header.prev == tipHash {
        parentHeader := bestHeader;
      } else {
        var parent := GetPreviousHeader(header);
        if parent.None? {
          return false, None, 0, OrphanHeader;
        }
        parentHeader := parent.value;
      }
      KeysAreHashes(tipHash, bestHeader);
      var valid := CheckHeader(header, parentHeader);
      if !valid {
        return false, None, 0, NoError;
      }
      var headerHash := params.hash(header);
      if tipHash == headerHash {
        return newTip, None, 0, NoError;
      }
      var cumulativeWork := parentHeader.work + CalcWork(header.bits);
      CommitKeeps(State(), root, params, header);
      ExtensionAttaches(State(), root, params, header);
      if cumulativeWork > bestHeader.work {
        newTip := true;
        var prevHash := params.hash(parentHeader.header);
        if tipHash != prevHash {
          ancestor := GetCommonAncestor(StoredHeader(header, parentHeader.height + 1, 0), bestHeader);
          if ancestor.None? {
            err := NoAncestor;
            return;
          }
          ReorgReported(State(), root, params, header, ancestor.value);
        }
      }
      var newHeight := parentHeader.height + 1;
      Put(StoredHeader(header, newHeight, cumulativeWork), newTip);
      if isOpen && newTip {
        headerUpdate := headerUpdate + [newHeight];
      }
      return newTip, ancestor, newHeight, NoError;
    }

    /** Hashes from the tip downward, ever sparser, as far as the store reaches. */
    method GetBlockLocator() returns (r: seq<Hash>)
      requires Consistent()
      ensures best.None? ==> r == []
      ensures best.Some? ==>
        && Entries(headers, root, params.hash(best.value.header), r)
        && 0 < |r| <= 261
        && Depth(|r|) > best.value.height - headers[root].height
    {
      hide Entry, Entries, EntryAt, Depth;
      r := [];
      if best.None? {
        return;
      }
      var parent := best.value;
      ghost var tip := params.hash(parent.header);
      FirstEntry(headers, root, tip);
      KeysAreHashes(tip, parent);
      var step := 1;
      var start := 0;
      ghost var n: nat := 0;
      while true
        invariant start <= 9 && step == Pow2(n) && |r| == 9 * n + start
        invariant params.hash(parent.header) in headers && headers[params.hash(parent.header)] == parent
        invariant EntryAt(headers, root, tip, |r|, params.hash(parent.header))
        invariant Entries(headers, root, tip, r)
        decreases LOCATOR_CAP - |r|
      {
        if start >= 9 {
          step := step * 2;
          start := 0;
          n := n + 1;
        }
        EntriesShort(headers, root, tip, |r|, params.hash(parent.header));
        NextEntry(headers, root, tip, |r|, params.hash(parent.header), n, start);
        EntriesSnoc(headers, root, tip, r, params.hash(parent.header));
        var hash := params.hash(parent.header);
        r := r + [hash];
        if |r| == LOCATOR_CAP {
          break;
        }
        var back := StepBack(parent, step);
        if back.None? {
          break;
        }
        parent := back.value;
        start := start + 1;
      }
    }

    /** Rolls the chain back to the last header before time t, but not past the checkpoint. */
    method RollbackTo(t: int, checkpoint: Checkpoint) returns (ok: bool)
      requires Consistent()
      requires params.hash(checkpoint.header) in headers ==>
        headers[params.hash(checkpoint.header)].height == checkpoint.height
      modifies this`headers, this`best
      ensures old(best.None?) ==> !ok && headers == old(headers) && best == old(best)
      ensures old(best.Some? && best.value.height - ROLLBACK_CAP < headers[root].height) ==>
        && best.Some?
        && Consistent()
        && State() == RolledBack(old(State()), root, params, t, params.hash(checkpoint.header))
        && IsRollback(old(State()), root, params, t, params.hash(checkpoint.header), State())
        && (ok <==> old(MayStop(headers, root, params.hash(best.value.header), t, params.hash(checkpoint.header))))
    {
      hide IsRollback, MayStop;
      var checkPointHash := params.hash(checkpoint.header);
      if best.None? {
        return false;
      }
      RollbackMeans(State(), root, params, t, checkPointHash);
      var sh := best.value;
      ghost var tip := params.hash(sh.header);
      assert Linked(headers, root, tip);
      KeysAreHashes(tip, sh);
      if sh.header.time < t {
        return true;
      }
      if params.hash(sh.header) == checkPointHash {
        return true;
      }
      RollbackKeeps(State(), root, params, t, checkPointHash);
      var rollbackHeight := 0;
      var i := 0;
      ghost var stopped := false;
      while i < ROLLBACK_CAP
        invariant 0 <= i <= ROLLBACK_CAP
        invariant params.hash(sh.header) in headers && headers[params.hash(sh.header)] == sh
        invariant sh.height + i == best.value.height
        invariant headers[root].height <= sh.height
        invariant !Stops(params, sh, t, checkPointHash)
        invariant StopAt(headers, params, sh, t, checkPointHash) == StopAt(headers, params, best.value, t, checkPointHash)
      {
        assert Linked(headers, root, params.hash(sh.header));
        var prev := GetPreviousHeader(sh.header);
        if prev.None? {
          return false;
        }
        sh := prev.value;
        assert Linked(headers, root, params.hash(sh.header));
        i := i + 1;
        if params.hash(sh.header) == checkPointHash {
          rollbackHeight := checkpoint.height;
          stopped := true;
          break;
        }
        if sh.header.time < t {
          rollbackHeight := sh.height;
          stopped := true;
          break;
        }
      }
      ghost var before := State();
      DeleteAfter(rollbackHeight);
      Put(sh, true);
      if stopped {
        assert headers == KeptUpTo(before.headers, sh.height);
        assert State() == RolledBack(before, root, params, t, checkPointHash);
      }
      ok := true;
    }
  }
}
