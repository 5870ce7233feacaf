/** What the wire service answers to each kind of message, told from what peers and the chain see of it. */
module WireAnswers {
  import opened Headers
  import opened WireProtocol

  /** The first n headers, those more than ninety minutes old, are committed in order; then one reply: blocks, if that
      left some header; or goodbye, if two of them failed; or else more headers. */
  ghost predicate HeadersAnswered(log: seq<Event>, log': seq<Event>, peer: Peer, headers: seq<HeaderMsg>, now: int, n: nat) {
    && n <= |headers|
    && (forall i | 0 <= i < n :: headers[i].time < now - 5400)
    && (n < |headers| ==> headers[n].time >= now - 5400)
    && |log'| == |log| + n + 1 && log <= log'
    && (forall i | |log| <= i < |log| + n :: log'[i] == HeaderCommit(peer, headers[i - |log|].hash))
    && log'[|log| + n] == if n < |headers| then GetBlocks(peer) else if TwoFail(headers) then Disconnect(peer) else GetHeaders(peer)
  }

  ghost predicate TwoFail(headers: seq<HeaderMsg>) {
    exists i, j | 0 <= i < j < |headers| :: headers[i].fails && headers[j].fails
  }

  lemma {:induction false} CommitOldMeans(peer: Peer, headers: seq<HeaderMsg>, timePoint: int)
    ensures var commits := CommitOld(peer, headers, timePoint);
      && |commits| <= |headers|
      && (forall i | 0 <= i < |commits| :: headers[i].time < timePoint && commits[i] == HeaderCommit(peer, headers[i].hash))
      && (|commits| < |headers| ==> headers[|commits|].time >= timePoint)
  {
    if headers != [] && headers[0].time < timePoint {
      CommitOldMeans(peer, headers[1..], timePoint);
    }
  }

  lemma {:induction false} BadHeadersMeans(headers: seq<HeaderMsg>)
    ensures BadHeaders(headers) >= 1 <==> exists i | 0 <= i < |headers| :: headers[i].fails
    ensures BadHeaders(headers) >= 2 <==> TwoFail(headers)
  {
    if headers != [] {
      var rest := headers[1..];
      BadHeadersMeans(rest);
      if i, j :| 0 <= i < j < |headers| && headers[i].fails && headers[j].fails {
        assert rest[j - 1].fails && (i > 0 ==> rest[i - 1].fails);
      }
      if i :| 0 <= i < |rest| && rest[i].fails {
        assert headers[i + 1].fails;
      }
      if i, j :| 0 <= i < j < |rest| && rest[i].fails && rest[j].fails {
        assert headers[i + 1].fails && headers[j + 1].fails;
      }
      if i :| 0 <= i < |headers| && headers[i].fails {
        assert i > 0 ==> rest[i - 1].fails;
      }
    }
  }

  /** Headers of the sync peer are committed and answered; any other sender is sent away, and nothing said to nothing. */
  lemma {:induction false} HeadersAnswer(w: Wire, env: Env, peer: Peer, headers: seq<HeaderMsg>)
    ensures var w' := OnHeaders(w, env, peer, headers);
      && w'.(log := w.log) == w
      && if w.syncPeer != Some(peer) || peer !in w.peers then w'.log == w.log + [Disconnect(peer)]
         else if headers == [] then w'.log == w.log
         else exists n: nat :: HeadersAnswered(w.log, w'.log, peer, headers, env.now, n)
  {
    var w', commits := OnHeaders(w, env, peer, headers), CommitOld(peer, headers, env.now - NINETY_MINUTES);
    if w.syncPeer == Some(peer) && peer in w.peers && headers != [] {
      CommitOldMeans(peer, headers, env.now - NINETY_MINUTES);
      BadHeadersMeans(headers);
      assert HeadersAnswered(w.log, w'.log, peer, headers, env.now, |commits|);
    }
  }

  /** Whether looking for a sync peer gets as far as looking. */
  ghost predicate Looks(cfg: Config, w: Wire, env: Env) {
    |w.peers| >= cfg.minPeersForSync && env.best.Some?
  }

  /** w' differs from w by a search for a sync peer. */
  ghost predicate Searched(cfg: Config, w: Wire, env: Env, w': Wire) {
    if Looks(cfg, w, env) then PickedGreatest(w, env, w') else w' == w
  }

  lemma SyncSearches(cfg: Config, w: Wire, env: Env)
    requires Walks(env.order, w.peers)
    ensures Searched(cfg, w, env, StartSync(cfg, w, env, None))
  {
    if Looks(cfg, w, env) {
      StartSyncPicksGreatest(cfg, w, env);
    }
  }

  /** A new peer joins with nothing asked of it; a search for a sync peer follows exactly if there is none and the chain
      is not current. */
  lemma NewPeerAnswer(cfg: Config, w: Wire, env: Env, peer: Peer, candidate: bool)
    requires Fits(w, env, NewPeer(peer, candidate))
    ensures var joined, w' := w.(peers := w.peers[peer := PeerState(candidate, [], {}, 0)]), OnNewPeer(cfg, w, env, peer, candidate);
      if w.syncPeer.None? && !env.current(0) then Searched(cfg, joined, env, w') else w' == joined
  {
    hide StartSync;
    var joined := w.(peers := w.peers[peer := PeerState(candidate, [], {}, 0)]);
    SyncSearches(cfg, joined, env);
  }

  /** A lost peer leaves with what was asked of it; a search for another sync peer follows exactly if it was the sync peer
      and the chain is not current. */
  lemma DonePeerAnswer(cfg: Config, w: Wire, env: Env, peer: Peer)
    requires Fits(w, env, DonePeer(peer))
    ensures var w' := OnDonePeer(cfg, w, env, peer);
      if peer !in w.peers then w' == w else
        var left := Wire(if w.syncPeer == Some(peer) then None else w.syncPeer, w.peers - {peer},
                         w.requested - w.peers[peer].requestedBlocks, w.log);
        if w.syncPeer == Some(peer) && !env.current(0) then Searched(cfg, left, env, w') else w' == left
  {
    hide StartSync;
    if peer in w.peers && w.syncPeer == Some(peer) {
      SyncSearches(cfg, Wire(None, w.peers - {peer}, w.requested - w.peers[peer].requestedBlocks, w.log), env);
    }
  }

  /** The events of a log after the first n. */
  function Since(log: seq<Event>, n: nat): seq<Event>
    requires n <= |log|
  {
    log[n..]
  }

  /** When a merkle block gets its header committed: its sender is known, and is the sync peer or the chain current, and it
      was asked for, except on regtest. */
  ghost predicate Admitted(cfg: Config, w: Wire, env: Env, peer: Peer, hash: Hash) {
    && (w.syncPeer == Some(peer) || env.current(0)) && peer in w.peers
    && (hash in w.peers[peer].requestedBlocks || cfg.regtest)
  }

  /** A merkle block that is not admitted changes nothing but that its sender is sent away, unless the chain is behind and
      the sender not the sync peer. One that is admitted has its header committed exactly once, first of all. */
  lemma {:induction false} MerkleBlockAdmitted(cfg: Config, w: Wire, env: Env, peer: Peer, hash: Hash, result: CommitResult)
    requires Walks(env.order, w.peers)
    ensures var w' := OnMerkleBlock(cfg, w, env, peer, hash, result);
      if Admitted(cfg, w, env, peer, hash) then
        && w.log + [BlockCommit(peer, hash)] <= w'.log
        && forall i | |w.log| < i < |w'.log| :: !Commits(w'.log[i])
      else if w.syncPeer == Some(peer) || env.current(0) then w' == w.(log := w.log + [Disconnect(peer)])
      else w' == w
  {
    if Admitted(cfg, w, env, peer, hash) {
      OnCommittedCommitsNothing(cfg, Taken(w, peer, hash), env, peer, result);
    }
  }

  /** The state once an admitted block is off the request maps and its header committed. */
  function Taken(w: Wire, peer: Peer, hash: Hash): Wire
    requires peer in w.peers
  {
    var state := w.peers[peer];
    w.(peers := w.peers[peer := state.(requestedBlocks := state.requestedBlocks - {hash})],
       requested := w.requested - {hash}, log := w.log + [BlockCommit(peer, hash)])
  }

  /** The score of a peer rises by one for a header that commits, falls by one for an orphan while the chain is behind, and
      is otherwise left alone; no other peer's score changes. */
  lemma {:induction false} ScoreAnswer(cfg: Config, w: Wire, env: Env, peer: Peer, hash: Hash, result: CommitResult)
    requires Walks(env.order, w.peers) && Admitted(cfg, w, env, peer, hash)
    ensures var w' := OnMerkleBlock(cfg, w, env, peer, hash, result);
      && w'.peers.Keys == w.peers.Keys
      && w'.peers[peer].blockScore == w.peers[peer].blockScore
           + (if result.Committed? then 1 else if result.Orphan? && !env.current(1) && !env.current(2) then -1 else 0)
      && forall q | q in w.peers && q != peer :: w'.peers[q] == w.peers[q]
  {
  }

  /** What is sent after an admitted block. An orphan restarts the sync with its sender once the chain is current, and
      ends in goodbye when its sender's score falls below zero. A new block is followed by one request while the chain is
      behind: for the next block in the queue, or for more blocks if the queue is empty. */
  lemma {:induction false} MerkleBlockReplies(cfg: Config, w: Wire, env: Env, peer: Peer, hash: Hash, result: CommitResult)
    requires Walks(env.order, w.peers) && Admitted(cfg, w, env, peer, hash)
    ensures var w', state := OnMerkleBlock(cfg, w, env, peer, hash, result), w.peers[peer];
      && |w'.log| > |w.log|
      && var sent := Since(w'.log, |w.log| + 1);
         match result
         case Failed => sent == [] && w' == Taken(w, peer, hash)
         case Orphan =>
           if env.current(1) then
             && w'.peers[peer].requestQueue == [] && w'.peers[peer].requestedBlocks == {} && w'.requested == {}
             && (if Looks(cfg, w, env) then w'.syncPeer == Some(peer) && |sent| == 1 && FirstAsked(env, peer, sent[0])
                 else w'.syncPeer == w.syncPeer && sent == [])
           else
             && w'.syncPeer == w.syncPeer && w'.requested == w.requested - {hash}
             && sent == if !env.current(2) && state.blockScore <= 0 then [Disconnect(peer)] else []
         case Committed(newBlock, height) =>
           var asks := newBlock && state.requestQueue != [] && !env.current(5);
           && w'.syncPeer == w.syncPeer && w'.requested == w.requested - {hash}
           && w'.peers[peer].requestQueue == (if asks then state.requestQueue[1..] else state.requestQueue)
           && w'.peers[peer].requestedBlocks
              == state.requestedBlocks - {hash} + (if asks then {state.requestQueue[0].hash} else {})
           && sent == (if env.current(3) then [LastBlock(peer, height)] else [])
                    + (if asks then [GetData(peer, state.requestQueue[0].hash)]
                       else if newBlock && state.requestQueue == [] && !env.current(4) then [GetBlocks(peer)]
                       else [])
  {
    hide Choice, DropLaggards;
    var taken, state := Taken(w, peer, hash), w.peers[peer];
    match result {
      case Failed =>
      case Orphan =>
      case Committed(newBlock, height) =>
        var notes := if env.current(3) then [LastBlock(peer, height)] else [];
        var w' := OnMerkleBlock(cfg, w, env, peer, hash, result);
        assert w'.log == w.log + [BlockCommit(peer, hash)] + Since(w'.log, |w.log| + 1);
    }
  }

  /** A block of the announcement joins the queue if the chain is current, or if it is behind and the block is announced
      as such, is unknown, and has not been asked for; Current is asked anew each time. */
  ghost predicate Wanted(w: Wire, env: Env, list: seq<InvVect>, i: nat)
    requires i < |list|
  {
    var iv := list[i];
    || (iv.kind.Block? && !env.current(3 + 2 * i) && iv.hash !in w.requested && env.known(iv.hash).None?)
    || ((iv.kind.Block? || iv.kind.FilteredBlock?) && env.current(4 + 2 * i))
  }

  /** The wanted ones among the first n, each once and in order, to be asked for as filtered blocks. */
  lemma {:induction false} QueuedMeans(w: Wire, env: Env, list: seq<InvVect>, n: nat) returns (at: seq<nat>)
    requires n <= |list|
    ensures |at| == |Queued(w, env, list, n)|
    ensures forall j | 0 <= j < |at| ::
      at[j] < n && Wanted(w, env, list, at[j]) && Queued(w, env, list, n)[j] == InvVect(FilteredBlock, list[at[j]].hash)
    ensures forall j, k | 0 <= j < k < |at| :: at[j] < at[k]
    ensures forall i | 0 <= i < n && Wanted(w, env, list, i) :: i in at
  {
    if n == 0 {
      at := [];
    } else {
      var before := QueuedMeans(w, env, list, n - 1);
      at := before + if Wanted(w, env, list, n - 1) then [n - 1] else [];
      forall i | 0 <= i < n && Wanted(w, env, list, i) ensures i in at {
        assert i < n - 1 ==> i in before;
      }
    }
  }

  /** The hash of the last block announced as such. */
  ghost predicate LastBlockOf(list: seq<InvVect>, hash: Hash) {
    exists i | 0 <= i < |list| :: list[i] == InvVect(Block, hash) && forall j | i < j < |list| :: !list[j].kind.Block?
  }

  lemma {:induction false} LastAnnouncedMeans(list: seq<InvVect>)
    ensures match LastAnnounced(list)
      case None => forall i | 0 <= i < |list| :: !list[i].kind.Block?
      case Some(hash) => LastBlockOf(list, hash)
    decreases |list|
  {
    if list != [] {
      var init, last := list[..|list| - 1], list[|list| - 1];
      LastAnnouncedMeans(init);
      if last.kind.Block? {
        assert list[|list| - 1] == InvVect(Block, last.hash);
      } else if LastAnnounced(init).Some? {
        var hash := LastAnnounced(init).value;
        var i :| 0 <= i < |init| && init[i] == InvVect(Block, hash) && forall j | i < j < |init| :: !init[j].kind.Block?;
        assert list[i] == init[i];
      }
    }
  }

  /** The notes an announcement leaves: the last block announced, unless it comes from the sync peer while the chain is
      behind; and its height, once the chain is current and knows it. */
  ghost predicate Noted(w: Wire, env: Env, peer: Peer, list: seq<InvVect>, notes: seq<Event>) {
    && ((exists i | 0 <= i < |list| :: list[i].kind.Block?) || notes == [])
    && forall hash: Hash | LastBlockOf(list, hash) ::
         notes == (if w.syncPeer != Some(peer) || env.current(0) then [Announced(peer, hash)] else [])
                + (if (w.syncPeer == Some(peer) || env.current(1)) && env.current(2) && env.known(hash).Some?
                   then [LastBlock(peer, env.known(hash).value)] else [])
  }

  lemma LastBlockUnique(list: seq<InvVect>, hash: Hash, hash': Hash)
    requires LastBlockOf(list, hash) && LastBlockOf(list, hash')
    ensures hash == hash'
  {
  }

  lemma {:induction false} NotesMean(w: Wire, env: Env, peer: Peer, list: seq<InvVect>)
    ensures Noted(w, env, peer, list, Notes(w, env, peer, list))
  {
    hide LastAnnounced;
    LastAnnouncedMeans(list);
    forall hash: Hash | LastBlockOf(list, hash) ensures LastAnnounced(list) == Some(hash) {
      if LastAnnounced(list).Some? {
        LastBlockUnique(list, hash, LastAnnounced(list).value);
      }
    }
  }

  /** An announcement of a known peer is noted; if it comes from the sync peer or the chain is current, the blocks it adds
      join the queue behind what is there, and the head of the queue, if there is one, is asked for. Nothing else changes. */
  lemma {:induction false} InvAnswer(w: Wire, env: Env, peer: Peer, list: seq<InvVect>) returns (added: seq<InvVect>, at: seq<nat>)
    ensures var w', notes := OnInv(w, env, peer, list), Notes(w, env, peer, list);
      if peer !in w.peers then w' == w else
        && Noted(w, env, peer, list, notes)
        && if w.syncPeer != Some(peer) && !env.current(1) then w' == w.(log := w.log + notes)
           else
             var queue, asked := w.peers[peer].requestQueue + added, w.peers[peer].requestedBlocks;
             w' == if queue == [] then w.(log := w.log + notes) else
               w.(log := w.log + notes + [GetData(peer, queue[0].hash)],
                  peers := w.peers[peer := w.peers[peer].(requestQueue := queue[1..], requestedBlocks := asked + {queue[0].hash})])
    ensures |added| == |at| && forall j | 0 <= j < |at| ::
      at[j] < |list| && Wanted(w, env, list, at[j]) && added[j] == InvVect(FilteredBlock, list[at[j]].hash)
    ensures forall j, k | 0 <= j < k < |at| :: at[j] < at[k]
    ensures forall i | 0 <= i < |list| && Wanted(w, env, list, i) :: i in at
  {
    NotesMean(w, env, peer, list);
    added := Queued(w, env, list, |list|);
    at := QueuedMeans(w, env, list, |list|);
  }
}
