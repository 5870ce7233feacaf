/** The wire service itself: one goroutine whose handlers update its fields. */
module WireService {
  import opened Headers
  import opened WireProtocol
  import opened WireAnswers

  class WireService {
    const cfg: Config
    var syncPeer: Option<Peer>
    var peerStates: map<Peer, PeerState>
    var requestedBlocks: set<Hash>
    var log: seq<Event>

    function View(): Wire
      reads this
    {
      Wire(syncPeer, peerStates, requestedBlocks, log)
    }

    constructor (cfg: Config)
      ensures this.cfg == cfg && View() == INITIAL && Sound(cfg, View())
    {
      this.cfg := cfg;
      syncPeer, peerStates, requestedBlocks, log := None, map[], {}, [];
      new;
      assert cfg.regtest || forall p, h :: Covered(View(), p, h);
    }

    method Send(e: Event)
      modifies this`log
      ensures log == old(log) + [e]
    {
      log := log + [e];
    }

    /** Looks for a sync peer unless one is wanted, in the order the peers happen to be walked. */
    method Sync(wanted: Option<Peer>, env: Env)
      requires Walks(env.order, peerStates)
      modifies this
      ensures View() == StartSync(cfg, old(View()), env, wanted)
      ensures wanted.None? && |old(peerStates)| >= cfg.minPeersForSync && env.best.Some? ==>
        PickedGreatest(old(View()), env, View())
      ensures wanted.Some? ==> wanted.value in old(peerStates) ==> Sound(cfg, old(View())) ==> Sound(cfg, View())
      ensures wanted.None? ==> Sound(cfg, old(View())) ==> Sound(cfg, View())
      ensures NoCommits(old(log), log)
    {
      ghost var before := View();
      if wanted.None? && |peerStates| >= cfg.minPeersForSync && env.best.Some? {
        StartSyncPicksGreatest(cfg, before, env);
      }
      if Sound(cfg, before) && (wanted.Some? ==> wanted.value in peerStates) {
        StartSyncSound(cfg, before, env, wanted);
      }
      StartSyncCommitsNothing(cfg, before, env, wanted);
      hide Sound, PickedGreatest, NoCommits;
      if |peerStates| < cfg.minPeersForSync {
        return;
      }
      if env.best.None? {
        return;
      }
      var bestBlock := env.best.value;
      var bestPeer: Option<Peer> := None;
      if wanted.None? {
        bestPeer := PickPeer(env, bestBlock.height);
      } else {
        bestPeer := wanted;
      }
      if bestPeer.Some? {
        syncPeer := bestPeer;
        requestedBlocks := {};
        if bestBlock.time < env.now - NINETY_MINUTES {
          Send(GetHeaders(bestPeer.value));
        } else {
          Send(GetBlocks(bestPeer.value));
        }
      }
    }

    /** Walks the peers once, dropping candidates that lag and keeping the one that reports the greatest height. */
    method PickPeer(env: Env, height: int) returns (bestPeer: Option<Peer>)
      requires Walks(env.order, peerStates)
      modifies this`peerStates
      ensures peerStates == DropLaggards(old(peerStates), env, height, env.order)
      ensures bestPeer == Choice(old(peerStates), env, height, |env.order|)
    {
      hide DropLaggards, Choice;
      bestPeer := None;
      var bestPeerHeight := 0;
      ghost var before := peerStates;
      assert env.order[..0] == [] && Choice(before, env, height, 0) == None by { NoChoice(before, env, height); }
      DropMeans(before, env, height, [], 0);
      for i := 0 to |env.order|
        invariant peerStates == DropLaggards(before, env, height, env.order[..i])
        invariant bestPeer == Choice(before, env, height, i)
        invariant bestPeerHeight == if bestPeer.None? then 0 else env.lastBlock(bestPeer.value)
      {
        var peer := env.order[i];
        assert peer in before && env.order[..i + 1] == env.order[..i] + [peer];
        DropOne(before, env, height, env.order[..i], peer);
        DropMeans(before, env, height, env.order[..i], peer);
        ChoiceStep(before, env, height, i);
        var state := peerStates[peer];
        if state.syncCandidate {
          if env.lastBlock(peer) < height {
            peerStates := peerStates[peer := state.(syncCandidate := false)];
          } else if env.lastBlock(peer) > bestPeerHeight {
            bestPeer := Some(peer);
            bestPeerHeight := env.lastBlock(peer);
          }
        }
      }
      assert env.order[..|env.order|] == env.order;
    }

    method HandleNewPeer(peer: Peer, candidate: bool, env: Env)
      requires Fits(View(), env, NewPeer(peer, candidate))
      modifies this
      ensures View() == OnNewPeer(cfg, old(View()), env, peer, candidate)
      ensures var joined := old(View()).(peers := old(peerStates)[peer := PeerState(candidate, [], {}, 0)]);
        if old(syncPeer).None? && !env.current(0) then Searched(cfg, joined, env, View()) else View() == joined
      ensures Sound(cfg, old(View())) ==> Sound(cfg, View())
      ensures NoCommits(old(log), log)
      ensures peerStates.Keys == old(peerStates).Keys + {peer} && Idle(peerStates[peer])
      ensures forall q | q in old(peerStates) && q != peer ::
        peerStates[q].requestedBlocks == old(peerStates)[q].requestedBlocks
    {
      hide Sound, StartSync, NoCommits, PickedGreatest, Searched;
      NewPeerAnswer(cfg, View(), env, peer, candidate);
      NewPeerEffects(cfg, View(), env, peer, candidate);
      if Sound(cfg, View()) {
        HandleSound(cfg, View(), env, NewPeer(peer, candidate));
      }
      peerStates := peerStates[peer := PeerState(candidate, [], {}, 0)];
      if syncPeer.None? && !env.current(0) {
        Sync(None, env);
      }
    }

    method HandleDonePeer(peer: Peer, env: Env)
      requires Fits(View(), env, DonePeer(peer))
      modifies this
      ensures View() == OnDonePeer(cfg, old(View()), env, peer)
      ensures old(syncPeer) == Some(peer) && peer in old(peerStates) && !env.current(0) ==>
        Searched(cfg, Wire(None, old(peerStates) - {peer}, old(requestedBlocks) - old(peerStates)[peer].requestedBlocks, old(log)),
                 env, View())
      ensures Sound(cfg, old(View())) ==> Sound(cfg, View())
      ensures Sound(cfg, old(View())) ==>
        NoCommits(old(log), log) && peerStates.Keys == old(peerStates).Keys - {peer} && syncPeer != Some(peer)
    {
      hide StartSync, Covered, NoCommits, PickedGreatest, Searched;
      DonePeerAnswer(cfg, View(), env, peer);
      if Sound(cfg, View()) {
        HandleSound(cfg, View(), env, DonePeer(peer));
        DonePeerEffects(cfg, View(), env, peer);
      }
      if peer !in peerStates {
        assert peerStates - {peer} == peerStates;
        return;
      }
      var state := peerStates[peer];
      peerStates := peerStates - {peer};
      requestedBlocks := requestedBlocks - state.requestedBlocks;
      if syncPeer == Some(peer) {
        syncPeer := None;
        if !env.current(0) {
          Sync(None, env);
        }
      }
    }

    method HandleHeaders(peer: Peer, headers: seq<HeaderMsg>, env: Env)
      modifies this`log
      ensures View() == OnHeaders(old(View()), env, peer, headers)
      ensures Sound(cfg, old(View())) ==> Sound(cfg, View())
      ensures Gated(old(View()), env, HeadersMsg(peer, headers), log)
      ensures if syncPeer != Some(peer) || peer !in peerStates then log == old(log) + [Disconnect(peer)]
              else if headers == [] then log == old(log)
              else exists n: nat :: HeadersAnswered(old(log), log, peer, headers, env.now, n)
    {
      hide Sound, Gated, HeadersAnswered;
      HeadersAnswer(View(), env, peer, headers);
      HeadersGated(View(), env, peer, headers);
      if Sound(cfg, View()) {
        OnHeadersSound(cfg, View(), env, peer, headers);
      }
      if Some(peer) != syncPeer {
        Send(Disconnect(peer));
        return;
      }
      if peer !in peerStates {
        Send(Disconnect(peer));
        return;
      }
      if |headers| == 0 {
        return;
      }
      var badHeaders := 0;
      var timePoint := env.now - NINETY_MINUTES;
      ghost var commits := CommitOld(peer, headers, timePoint);
      assert headers[0..] == headers && old(log) + commits == old(log) + [] + commits;
      CommitOldQuiet(peer, headers, timePoint);
      for i := 0 to |headers|
        invariant log + CommitOld(peer, headers[i..], timePoint) == old(log) + commits
        invariant badHeaders + BadHeaders(headers[i..]) == BadHeaders(headers)
        invariant |CommitOld(peer, headers[i..], timePoint)| + i == |commits|
      {
        var header := headers[i];
        assert headers[i..][0] == header && headers[i..][1..] == headers[i + 1..];
        if header.time < timePoint {
          ghost var rest := CommitOld(peer, headers[i + 1..], timePoint);
          assert log + ([HeaderCommit(peer, header.hash)] + rest) == log + [HeaderCommit(peer, header.hash)] + rest;
          Send(HeaderCommit(peer, header.hash));
          if header.fails {
            badHeaders := badHeaders + 1;
          }
        } else {
          assert log + [] == log;
          Send(GetBlocks(peer));
          return;
        }
      }
      assert headers[|headers|..] == [] && log + [] == log;
      if badHeaders > 1 {
        Send(Disconnect(peer));
        return;
      }
      Send(GetHeaders(peer));
    }

    method HandleMerkleBlock(peer: Peer, hash: Hash, result: CommitResult, env: Env)
      requires Walks(env.order, peerStates)
      modifies this
      ensures View() == OnMerkleBlock(cfg, old(View()), env, peer, hash, result)
      ensures Sound(cfg, old(View())) ==> Sound(cfg, View())
      ensures Gated(old(View()), env, MerkleBlock(peer, hash, result), log)
      ensures if Admitted(cfg, old(View()), env, peer, hash) then old(log) + [BlockCommit(peer, hash)] <= log
              else if old(syncPeer) == Some(peer) || env.current(0) then View() == old(View()).(log := old(log) + [Disconnect(peer)])
              else View() == old(View())
    {
      hide Sound, Gated, StartSync, Admitted;
      MerkleBlockAdmitted(cfg, View(), env, peer, hash, result);
      MerkleBlockGated(cfg, View(), env, peer, hash, result);
      if Sound(cfg, View()) {
        OnMerkleBlockSound(cfg, View(), env, peer, hash, result);
      }
      if Some(peer) != syncPeer && !env.current(0) {
        return;
      }
      if peer !in peerStates {
        Send(Disconnect(peer));
        return;
      }
      var state := peerStates[peer];
      if hash !in state.requestedBlocks {
        if !cfg.regtest {
          Send(Disconnect(peer));
          return;
        }
      }
      state := state.(requestedBlocks := state.requestedBlocks - {hash});
      peerStates := peerStates[peer := state];
      requestedBlocks := requestedBlocks - {hash};
      Send(BlockCommit(peer, hash));
      if result.Orphan? {
        HandleOrphan(peer, env);
      } else if result.Committed? {
        FinishBlock(peer, result.newBlock, result.height, env);
      }
    }

    /** After an orphan: starts over with the peer once current, and holds it against the peer before. */
    method HandleOrphan(peer: Peer, env: Env)
      requires peer in peerStates && Walks(env.order, peerStates)
      modifies this
      ensures View() == OnCommitted(cfg, old(View()), env, peer, Orphan)
    {
      hide Sound, StartSync, NoCommits, PickedGreatest;
      var state := peerStates[peer];
      if env.current(1) {
        peerStates := peerStates[peer := state.(requestQueue := [], requestedBlocks := {})];
        requestedBlocks := {};
        Sync(Some(peer), env);
      } else if !env.current(2) {
        state := state.(blockScore := state.blockScore - 1);
        peerStates := peerStates[peer := state];
        if state.blockScore < 0 {
          Send(Disconnect(peer));
        }
      }
    }

    /** After a commit that succeeded: scores the peer and asks for what comes next. */
    method FinishBlock(peer: Peer, newBlock: bool, newHeight: int, env: Env)
      requires peer in peerStates && Walks(env.order, peerStates)
      modifies this
      ensures View() == OnCommitted(cfg, old(View()), env, peer, Committed(newBlock, newHeight))
    {
      var state := peerStates[peer].(blockScore := peerStates[peer].blockScore + 1);
      peerStates := peerStates[peer := state];
      assert log + [] == log;
      if env.current(3) {
        Send(LastBlock(peer, newHeight));
      }
      if !newBlock {
        return;
      }
      if !env.current(4) && |state.requestQueue| == 0 {
        Send(GetBlocks(peer));
      } else if !env.current(5) && |state.requestQueue| > 0 {
        var iv := state.requestQueue[0];
        state := state.(requestQueue := state.requestQueue[1..], requestedBlocks := state.requestedBlocks + {iv.hash});
        peerStates := peerStates[peer := state];
        Send(GetData(peer, iv.hash));
      }
    }

    /** The hash of the last block in the list. */
    method FindLastBlock(list: seq<InvVect>) returns (r: Option<Hash>)
      ensures r == LastAnnounced(list)
    {
      var i := |list|;
      assert list[..|list|] == list;
      while i > 0
        invariant 0 <= i <= |list|
        invariant LastAnnounced(list[..i]) == LastAnnounced(list)
      {
        i := i - 1;
        assert list[..i + 1][..i] == list[..i];
        if list[i].kind.Block? {
          return Some(list[i].hash);
        }
      }
      return None;
    }

    method HandleInv(peer: Peer, list: seq<InvVect>, env: Env)
      modifies this`peerStates, this`log
      ensures View() == OnInv(old(View()), env, peer, list)
      ensures Sound(cfg, old(View())) ==> Sound(cfg, View())
      ensures Gated(old(View()), env, Inv(peer, list), log)
    {
      hide Sound, Gated, LastAnnounced, HaveInventory;
      InvGated(View(), env, peer, list);
      if Sound(cfg, View()) {
        OnInvSound(cfg, View(), env, peer, list);
      }
      if peer !in peerStates {
        return;
      }
      var state := peerStates[peer];
      var lastBlock := FindLastBlock(list);
      ghost var notes := Notes(View(), env, peer, list);
      assert log + [] == log;
      if lastBlock.Some? && (Some(peer) != syncPeer || env.current(0)) {
        Send(Announced(peer, lastBlock.value));
      }
      if Some(peer) != syncPeer && !env.current(1) {
        assert log == old(log) + notes;
        return;
      }
      if lastBlock.Some? && env.current(2) {
        var sh := env.known(lastBlock.value);
        if sh.Some? {
          Send(LastBlock(peer, sh.value));
        }
      }
      assert log == old(log) + notes;
      var queue := state.requestQueue;
      assert queue + [] == queue;
      for i := 0 to |list|
        invariant queue == state.requestQueue + Queued(old(View()), env, list, i)
        invariant log == old(log) + notes && peerStates == old(peerStates)
      {
        var iv := list[i];
        var haveInv := HaveInventory(env, iv);
        if (iv.kind.FilteredBlock? || iv.kind.Block?)
           && ((!env.current(3 + 2 * i) && iv.hash !in requestedBlocks && !haveInv) || env.current(4 + 2 * i))
        {
          queue := queue + [InvVect(FilteredBlock, iv.hash)];
        }
      }
      if |queue| > 0 {
        var iv := queue[0];
        peerStates := peerStates[peer := state.(requestQueue := queue[1..], requestedBlocks := state.requestedBlocks + {iv.hash})];
        Send(GetData(peer, iv.hash));
      }
    }
  }
}
