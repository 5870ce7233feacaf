/** The message handlers of the wire service as steps on its state, and what every run of them keeps. */
module WireProtocol {
  import opened Headers

  type Peer = nat

  datatype InvKind = Block | FilteredBlock | WitnessBlock | Tx | OtherKind

  datatype InvVect = InvVect(kind: InvKind, hash: Hash)

  datatype PeerState = PeerState(syncCandidate: bool, requestQueue: seq<InvVect>, requestedBlocks: set<Hash>, blockScore: int)

  /** What the service does to the outside, in order. */
  datatype Event =
    | HeaderCommit(peer: Peer, hash: Hash)     // CommitHeader for a header of a headers message
    | BlockCommit(peer: Peer, hash: Hash)      // CommitHeader for the header of a merkle block
    | GetData(peer: Peer, hash: Hash)
    | GetHeaders(peer: Peer)
    | GetBlocks(peer: Peer)
    | Disconnect(peer: Peer)
    | LastBlock(peer: Peer, height: int)
    | Announced(peer: Peer, hash: Hash)

  datatype Wire = Wire(syncPeer: Option<Peer>, peers: map<Peer, PeerState>, requested: set<Hash>, log: seq<Event>)

  const INITIAL := Wire(None, map[], {}, [])

  datatype Best = Best(height: int, time: int)

  /** What a handler reads from outside: the n-th answer of Current, the heights peers reported, the best block if there
      is one, the time, the order in which a map of peers is walked, and which blocks the chain knows. */
  datatype Env = Env(current: nat -> bool, lastBlock: Peer -> int, best: Option<Best>, now: int, order: seq<Peer>,
                     known: Hash -> Option<int>)

  datatype Config = Config(regtest: bool, minPeersForSync: int)

  datatype CommitResult = Committed(newBlock: bool, height: int) | Orphan | Failed

  const NINETY_MINUTES := 90 * 60

  /** A header of a headers message: its hash, its time, and whether committing it fails. */
  datatype HeaderMsg = HeaderMsg(hash: Hash, time: int, fails: bool)

  datatype Message =
    | NewPeer(peer: Peer, candidate: bool)
    | DonePeer(peer: Peer)
    | HeadersMsg(peer: Peer, headers: seq<HeaderMsg>)
    | MerkleBlock(peer: Peer, hash: Hash, result: CommitResult)
    | Inv(peer: Peer, list: seq<InvVect>)
    | Resync
    | ResyncWithNil

  /** Every peer of the service, once. */
  ghost predicate Walks(order: seq<Peer>, peers: map<Peer, PeerState>) {
    forall q :: q in order <==> q in peers
  }

  predicate Lags(env: Env, height: int, q: Peer) {
    env.lastBlock(q) < height
  }

  /** Candidates met on the walk and found to lag behind the best block stop being candidates. */
  function DropLaggards(peers: map<Peer, PeerState>, env: Env, height: int, met: seq<Peer>): map<Peer, PeerState> {
    map q | q in peers :: if q in met && Lags(env, height, q) then peers[q].(syncCandidate := false) else peers[q]
  }

  lemma DropOne(peers: map<Peer, PeerState>, env: Env, height: int, met: seq<Peer>, q: Peer)
    requires q in peers
    ensures DropLaggards(peers, env, height, met + [q])
         == var before := DropLaggards(peers, env, height, met);
            if peers[q].syncCandidate && Lags(env, height, q) then before[q := peers[q].(syncCandidate := false)] else before
  {
    assert forall x :: x in met + [q] <==> x in met || x == q;
  }

  lemma DropMeans(peers: map<Peer, PeerState>, env: Env, height: int, met: seq<Peer>, q: Peer)
    ensures DropLaggards(peers, env, height, []) == peers
    ensures q in peers ==>
      && q in DropLaggards(peers, env, height, met)
      && DropLaggards(peers, env, height, met)[q]
         == if q in met && Lags(env, height, q) then peers[q].(syncCandidate := false) else peers[q]
  {
  }

  /** The choice of StartSync after walking the first n peers of the order. */
  function Choice(peers: map<Peer, PeerState>, env: Env, height: int, n: nat): (r: Option<Peer>)
    requires n <= |env.order| && forall q | q in env.order :: q in peers
    ensures r.Some? ==> r.value in peers
  {
    if n == 0 then None else
    var best, q := Choice(peers, env, height, n - 1), env.order[n - 1];
    if peers[q].syncCandidate && !Lags(env, height, q) && env.lastBlock(q) > (if best.None? then 0 else env.lastBlock(best.value))
    then Some(q) else best
  }

  lemma NoChoice(peers: map<Peer, PeerState>, env: Env, height: int)
    requires forall q | q in env.order :: q in peers
    ensures Choice(peers, env, height, 0) == None
  {
  }

  lemma ChoiceStep(peers: map<Peer, PeerState>, env: Env, height: int, n: nat)
    requires n < |env.order| && forall q | q in env.order :: q in peers
    ensures var best, q := Choice(peers, env, height, n), env.order[n];
      Choice(peers, env, height, n + 1)
      == if peers[q].syncCandidate && !Lags(env, height, q) && env.lastBlock(q) > (if best.None? then 0 else env.lastBlock(best.value))
         then Some(q) else best
  {
  }

  ghost predicate Candidate(peers: map<Peer, PeerState>, env: Env, height: int, q: Peer) {
    q in peers && peers[q].syncCandidate && env.lastBlock(q) >= height && env.lastBlock(q) > 0
  }

  /** In whatever order the peers are walked, the choice is a candidate of greatest reported height; there is none only
      when no candidate reports a height above zero. */
  lemma {:induction false} ChoiceIsGreatest(peers: map<Peer, PeerState>, env: Env, height: int, n: nat)
    requires n <= |env.order| && forall q | q in env.order :: q in peers
    ensures match Choice(peers, env, height, n)
      case None => forall i | 0 <= i < n :: !Candidate(peers, env, height, env.order[i])
      case Some(r) =>
        && Candidate(peers, env, height, r)
        && forall i | 0 <= i < n && Candidate(peers, env, height, env.order[i]) :: env.lastBlock(env.order[i]) <= env.lastBlock(r)
  {
    if n > 0 {
      ChoiceIsGreatest(peers, env, height, n - 1);
    }
  }

  /** Makes p the sync peer, forgets what was requested, and asks it for headers or blocks. */
  function BeginSync(w: Wire, env: Env, best: Best, p: Peer): Wire {
    Wire(Some(p), w.peers, {}, w.log + [if best.time < env.now - NINETY_MINUTES then GetHeaders(p) else GetBlocks(p)])
  }

  ghost function StartSync(cfg: Config, w: Wire, env: Env, wanted: Option<Peer>): Wire
    requires Walks(env.order, w.peers)
  {
    if |w.peers| < cfg.minPeersForSync || env.best.None? then w else
    var best := env.best.value;
    match wanted
    case Some(p) => BeginSync(w, env, best, p)
    case None =>
      var w' := w.(peers := DropLaggards(w.peers, env, best.height, env.order));
      match Choice(w.peers, env, best.height, |env.order|)
      case None => w'
      case Some(p) => BeginSync(w', env, best, p)
  }

  /** The first thing asked of a sync peer: headers while the best one is more than ninety minutes old, else blocks. */
  ghost predicate FirstAsked(env: Env, p: Peer, e: Event)
    requires env.best.Some?
  {
    e == if env.best.value.time < env.now - 5400 then GetHeaders(p) else GetBlocks(p)
  }

  /** The sync peer is a candidate of greatest reported height, asked anew with nothing requested yet; without candidates
      the old one stays. Those that reported less than the best height are no candidates any more. */
  ghost predicate PickedGreatest(w: Wire, env: Env, w': Wire)
    requires env.best.Some?
  {
    var height := env.best.value.height;
    && w'.peers.Keys == w.peers.Keys
    && (forall q | q in w.peers ::
          w'.peers[q] == w.peers[q].(syncCandidate := w.peers[q].syncCandidate && env.lastBlock(q) >= height))
    && if exists q :: Candidate(w.peers, env, height, q) then
         && w'.syncPeer.Some? && Candidate(w.peers, env, height, w'.syncPeer.value)
         && (forall q | Candidate(w.peers, env, height, q) :: env.lastBlock(q) <= env.lastBlock(w'.syncPeer.value))
         && w'.requested == {}
         && |w'.log| == |w.log| + 1 && w.log <= w'.log && FirstAsked(env, w'.syncPeer.value, w'.log[|w.log|])
       else
         w'.syncPeer == w.syncPeer && w'.requested == w.requested && w'.log == w.log
  }

  /** Looking for a sync peer with enough peers and a best block: the new one is a candidate of greatest reported height,
      whatever the order of the walk; without candidates the old one stays. */
  lemma StartSyncPicksGreatest(cfg: Config, w: Wire, env: Env)
    requires Walks(env.order, w.peers) && |w.peers| >= cfg.minPeersForSync && env.best.Some?
    ensures PickedGreatest(w, env, StartSync(cfg, w, env, None))
  {
    var height := env.best.value.height;
    ChoiceIsGreatest(w.peers, env, height, |env.order|);
    forall q | Candidate(w.peers, env, height, q) ensures exists i :: 0 <= i < |env.order| && env.order[i] == q {
      assert q in env.order;
    }
  }

  /** Peers that report height 0 are never chosen, though the comment on the comparison means to allow it. */
  lemma HeightZeroNeverChosen(cfg: Config, w: Wire, env: Env)
    requires Walks(env.order, w.peers) && forall q | q in w.peers :: env.lastBlock(q) <= 0
    ensures StartSync(cfg, w, env, None).syncPeer == w.syncPeer
  {
    if env.best.Some? {
      ChoiceIsGreatest(w.peers, env, env.best.value.height, |env.order|);
    }
  }

  ghost function OnNewPeer(cfg: Config, w: Wire, env: Env, peer: Peer, candidate: bool): Wire
    requires Walks(env.order, w.peers[peer := PeerState(candidate, [], {}, 0)])
  {
    var w' := w.(peers := w.peers[peer := PeerState(candidate, [], {}, 0)]);
    if w.syncPeer.None? && !env.current(0) then StartSync(cfg, w', env, None) else w'
  }

  ghost function OnDonePeer(cfg: Config, w: Wire, env: Env, peer: Peer): Wire
    requires Walks(env.order, w.peers - {peer})
  {
    if peer !in w.peers then w else
    var w' := w.(peers := w.peers - {peer}, requested := w.requested - w.peers[peer].requestedBlocks);
    if w.syncPeer != Some(peer) then w'
    else if env.current(0) then w'.(syncPeer := None)
    else StartSync(cfg, w'.(syncPeer := None), env, None)
  }

  /** Commits the headers of a message while they are more than ninety minutes old. */
  function CommitOld(peer: Peer, headers: seq<HeaderMsg>, timePoint: int): seq<Event> {
    if headers == [] || headers[0].time >= timePoint then []
    else [HeaderCommit(peer, headers[0].hash)] + CommitOld(peer, headers[1..], timePoint)
  }

  function BadHeaders(headers: seq<HeaderMsg>): nat {
    if headers == [] then 0 else (if headers[0].fails then 1 else 0) + BadHeaders(headers[1..])
  }

  function OnHeaders(w: Wire, env: Env, peer: Peer, headers: seq<HeaderMsg>): Wire {
    if Some(peer) != w.syncPeer || peer !in w.peers then w.(log := w.log + [Disconnect(peer)])
    else if headers == [] then w
    else
      var commits := CommitOld(peer, headers, env.now - NINETY_MINUTES);
      var reply := if |commits| < |headers| then GetBlocks(peer)
                   else if BadHeaders(headers) > 1 then Disconnect(peer)
                   else GetHeaders(peer);
      w.(log := w.log + commits + [reply])
  }

  /** Asks the peer for one block and remembers that it was asked. */
  function Request(w: Wire, peer: Peer, state: PeerState, iv: InvVect, queue: seq<InvVect>): Wire {
    w.(peers := w.peers[peer := state.(requestQueue := queue, requestedBlocks := state.requestedBlocks + {iv.hash})],
       log := w.log + [GetData(peer, iv.hash)])
  }

  /** A merkle block that was asked for, or that regtest lets through, once its header has been committed. */
  ghost function OnCommitted(cfg: Config, w: Wire, env: Env, peer: Peer, result: CommitResult): Wire
    requires peer in w.peers && Walks(env.order, w.peers)
  {
    var state := w.peers[peer];
    match result
    case Orphan =>
      if env.current(1) then
        var cleared := w.(peers := w.peers[peer := state.(requestQueue := [], requestedBlocks := {})], requested := {});
        StartSync(cfg, cleared, env, Some(peer))
      else if !env.current(2) then
        var scored := w.(peers := w.peers[peer := state.(blockScore := state.blockScore - 1)]);
        if state.blockScore - 1 < 0 then scored.(log := w.log + [Disconnect(peer)]) else scored
      else w
    case Failed => w
    case Committed(newBlock, height) =>
      var scored := state.(blockScore := state.blockScore + 1);
      var w1 := w.(peers := w.peers[peer := scored], log := w.log + if env.current(3) then [LastBlock(peer, height)] else []);
      if !newBlock then w1
      else if !env.current(4) && scored.requestQueue == [] then w1.(log := w1.log + [GetBlocks(peer)])
      else if !env.current(5) && |scored.requestQueue| > 0 then
        Request(w1, peer, scored, InvVect(FilteredBlock, scored.requestQueue[0].hash), scored.requestQueue[1..])
      else w1
  }

  ghost function OnMerkleBlock(cfg: Config, w: Wire, env: Env, peer: Peer, hash: Hash, result: CommitResult): Wire
    requires Walks(env.order, w.peers)
  {
    if Some(peer) != w.syncPeer && !env.current(0) then w
    else if peer !in w.peers then w.(log := w.log + [Disconnect(peer)])
    else if hash !in w.peers[peer].requestedBlocks && !cfg.regtest then w.(log := w.log + [Disconnect(peer)])
    else
      var state := w.peers[peer];
      var taken := w.(peers := w.peers[peer := state.(requestedBlocks := state.requestedBlocks - {hash})],
                      requested := w.requested - {hash}, log := w.log + [BlockCommit(peer, hash)]);
      OnCommitted(cfg, taken, env, peer, result)
  }

  /** Whether the chain has the inventory already; kinds it does not know count as had. */
  function HaveInventory(env: Env, iv: InvVect): bool {
    match iv.kind
    case WitnessBlock => env.known(iv.hash).Some?
    case Tx => env.known(iv.hash).Some?
    case Block => env.known(iv.hash).Some?
    case _ => true
  }

  /** The blocks of the list that join the queue; Current is asked twice for each, after the three times before. */
  function Queued(w: Wire, env: Env, list: seq<InvVect>, n: nat): seq<InvVect>
    requires n <= |list|
  {
    if n == 0 then [] else
    var iv := list[n - 1];
    Queued(w, env, list, n - 1)
    + if (iv.kind.Block? || iv.kind.FilteredBlock?)
         && ((!env.current(1 + 2 * n) && iv.hash !in w.requested && !HaveInventory(env, iv)) || env.current(2 + 2 * n))
      then [InvVect(FilteredBlock, iv.hash)] else []
  }

  /** The last block announced by the list, if there is one. */
  function LastAnnounced(list: seq<InvVect>): Option<Hash>
    decreases |list|
  {
    if list == [] then None
    else if list[|list| - 1].kind.Block? then Some(list[|list| - 1].hash)
    else LastAnnounced(list[..|list| - 1])
  }

  /** The notes an announcement leaves on the peer. */
  function Notes(w: Wire, env: Env, peer: Peer, list: seq<InvVect>): seq<Event> {
    match LastAnnounced(list)
    case None => []
    case Some(hash) =>
      (if Some(peer) != w.syncPeer || env.current(0) then [Announced(peer, hash)] else [])
      + if !(Some(peer) != w.syncPeer && !env.current(1)) && env.current(2) && env.known(hash).Some?
        then [LastBlock(peer, env.known(hash).value)] else []
  }

  function OnInv(w: Wire, env: Env, peer: Peer, list: seq<InvVect>): Wire {
    if peer !in w.peers then w else
    var noted := w.(log := w.log + Notes(w, env, peer, list));
    if Some(peer) != w.syncPeer && !env.current(1) then noted
    else
      var state := w.peers[peer];
      var queue := state.requestQueue + Queued(w, env, list, |list|);
      if queue == [] then noted
      else Request(noted, peer, state, queue[0], queue[1..])
  }

  ghost predicate Fits(w: Wire, env: Env, m: Message) {
    match m
    case NewPeer(peer, candidate) => Walks(env.order, w.peers[peer := PeerState(candidate, [], {}, 0)])
    case DonePeer(peer) => Walks(env.order, w.peers - {peer})
    case _ => Walks(env.order, w.peers)
  }

  ghost function Handle(cfg: Config, w: Wire, env: Env, m: Message): Wire
    requires Fits(w, env, m)
  {
    match m
    case NewPeer(peer, candidate) => OnNewPeer(cfg, w, env, peer, candidate)
    case DonePeer(peer) => OnDonePeer(cfg, w, env, peer)
    case HeadersMsg(peer, headers) => OnHeaders(w, env, peer, headers)
    case MerkleBlock(peer, hash, result) => OnMerkleBlock(cfg, w, env, peer, hash, result)
    case Inv(peer, list) => OnInv(w, env, peer, list)
    case Resync => StartSync(cfg, w, env, w.syncPeer)
    case ResyncWithNil => StartSync(cfg, w, env, None)
  }

  predicate Asked(w: Wire, p: Peer, h: Hash) {
    p in w.peers && h in w.peers[p].requestedBlocks
  }

  /** Merkle-block commits of p for h, plus the request still open, are at most the getdata messages sent. */
  ghost predicate Covered(w: Wire, p: Peer, h: Hash) {
    multiset(w.log)[BlockCommit(p, h)] + (if Asked(w, p, h) then 1 else 0) <= multiset(w.log)[GetData(p, h)]
  }

  /** The sync peer is known, and off regtest no peer had more merkle blocks committed than it was asked for. */
  ghost predicate Sound(cfg: Config, w: Wire) {
    && (w.syncPeer.Some? ==> w.syncPeer.value in w.peers)
    && (cfg.regtest || forall p, h :: Covered(w, p, h))
  }

  /** The log grows by events that neither commit a merkle block nor ask for one. */
  ghost predicate Quiet(log: seq<Event>, log': seq<Event>) {
    forall p, h ::
      && multiset(log')[BlockCommit(p, h)] == multiset(log)[BlockCommit(p, h)]
      && multiset(log')[GetData(p, h)] == multiset(log)[GetData(p, h)]
  }

  lemma QuietAppend(log: seq<Event>, e: Event)
    requires !e.BlockCommit? && !e.GetData?
    ensures Quiet(log, log + [e])
  {
  }

  lemma {:induction false} QuietAll(log: seq<Event>, es: seq<Event>)
    requires forall e | e in es :: !e.BlockCommit? && !e.GetData?
    ensures Quiet(log, log + es)
    decreases |es|
  {
    if es == [] {
      assert log + es == log;
    } else {
      assert log + es == log + [es[0]] + es[1..];
      QuietAppend(log, es[0]);
      QuietAll(log + [es[0]], es[1..]);
    }
  }

  /** What was asked for only shrinks, and the log grows quietly. */
  lemma QuietSound(cfg: Config, w: Wire, w': Wire)
    requires Sound(cfg, w) && Quiet(w.log, w'.log)
    requires w'.syncPeer.Some? ==> w'.syncPeer.value in w'.peers
    requires forall p, h :: Asked(w', p, h) ==> Asked(w, p, h)
    ensures Sound(cfg, w')
  {
    if !cfg.regtest {
      forall p, h ensures Covered(w', p, h) {
        assert Covered(w, p, h);
      }
    }
  }

  lemma StartSyncSound(cfg: Config, w: Wire, env: Env, wanted: Option<Peer>)
    requires Sound(cfg, w) && Walks(env.order, w.peers) && (wanted.Some? ==> wanted.value in w.peers)
    ensures Sound(cfg, StartSync(cfg, w, env, wanted))
  {
    var w' := StartSync(cfg, w, env, wanted);
    if w'.log != w.log {
      QuietAppend(w.log, w'.log[|w.log|]);
      assert w'.log == w.log + [w'.log[|w.log|]];
    }
    QuietSound(cfg, w, w');
  }

  /** Asking for a block covers the commit that may follow. */
  lemma RequestSound(cfg: Config, w: Wire, peer: Peer, state: PeerState, iv: InvVect, queue: seq<InvVect>)
    requires Sound(cfg, w) && peer in w.peers && state.requestedBlocks == w.peers[peer].requestedBlocks
    ensures Sound(cfg, Request(w, peer, state, iv, queue))
  {
    var w' := Request(w, peer, state, iv, queue);
    if !cfg.regtest {
      forall p, h ensures Covered(w', p, h) {
        assert Covered(w, p, h);
      }
    }
  }

  lemma OnInvSound(cfg: Config, w: Wire, env: Env, peer: Peer, list: seq<InvVect>)
    requires Sound(cfg, w)
    ensures Sound(cfg, OnInv(w, env, peer, list))
  {
    if peer in w.peers {
      var noted := w.(log := w.log + Notes(w, env, peer, list));
      QuietAll(w.log, Notes(w, env, peer, list));
      QuietSound(cfg, w, noted);
      var queue := w.peers[peer].requestQueue + Queued(w, env, list, |list|);
      if queue != [] {
        RequestSound(cfg, noted, peer, w.peers[peer], queue[0], queue[1..]);
      }
    }
  }

  lemma {:induction false} CommitOldQuiet(peer: Peer, headers: seq<HeaderMsg>, timePoint: int)
    ensures |CommitOld(peer, headers, timePoint)| <= |headers|
    ensures forall e | e in CommitOld(peer, headers, timePoint) :: e.HeaderCommit? && e.peer == peer
  {
    if headers != [] {
      CommitOldQuiet(peer, headers[1..], timePoint);
    }
  }

  lemma OnHeadersSound(cfg: Config, w: Wire, env: Env, peer: Peer, headers: seq<HeaderMsg>)
    requires Sound(cfg, w)
    ensures Sound(cfg, OnHeaders(w, env, peer, headers))
  {
    var w' := OnHeaders(w, env, peer, headers);
    if w'.log == w.log + [Disconnect(peer)] {
      QuietAppend(w.log, Disconnect(peer));
    } else if w'.log != w.log {
      var commits := CommitOld(peer, headers, env.now - NINETY_MINUTES);
      CommitOldQuiet(peer, headers, env.now - NINETY_MINUTES);
      QuietAll(w.log, commits);
      QuietAppend(w.log + commits, w'.log[|w'.log| - 1]);
      assert w'.log == w.log + commits + [w'.log[|w'.log| - 1]];
    }
    QuietSound(cfg, w, w');
  }

  /** A commit uses up the request it answers. */
  lemma TakenSound(cfg: Config, w: Wire, peer: Peer, hash: Hash)
    requires Sound(cfg, w) && peer in w.peers && (cfg.regtest || hash in w.peers[peer].requestedBlocks)
    ensures var state := w.peers[peer];
      Sound(cfg, w.(peers := w.peers[peer := state.(requestedBlocks := state.requestedBlocks - {hash})],
                    requested := w.requested - {hash}, log := w.log + [BlockCommit(peer, hash)]))
  {
    if !cfg.regtest {
      var state := w.peers[peer];
      var w' := w.(peers := w.peers[peer := state.(requestedBlocks := state.requestedBlocks - {hash})],
                   requested := w.requested - {hash}, log := w.log + [BlockCommit(peer, hash)]);
      forall p, h ensures Covered(w', p, h) {
        assert Covered(w, p, h);
      }
    }
  }

  /** Scoring a peer and noting its height touches neither requests nor commits. */
  lemma ScoreSound(cfg: Config, w: Wire, peer: Peer, score: int, notes: seq<Event>)
    requires Sound(cfg, w) && peer in w.peers && forall e | e in notes :: e.LastBlock?
    ensures Sound(cfg, w.(peers := w.peers[peer := w.peers[peer].(blockScore := score)], log := w.log + notes))
  {
    QuietAll(w.log, notes);
    QuietSound(cfg, w, w.(peers := w.peers[peer := w.peers[peer].(blockScore := score)], log := w.log + notes));
  }

  lemma NewBlockSound(cfg: Config, w: Wire, env: Env, peer: Peer, newBlock: bool, height: int)
    requires Sound(cfg, w) && peer in w.peers && Walks(env.order, w.peers)
    ensures Sound(cfg, OnCommitted(cfg, w, env, peer, Committed(newBlock, height)))
  {
    hide Sound;
    var scored := w.peers[peer].(blockScore := w.peers[peer].blockScore + 1);
    var notes := if env.current(3) then [LastBlock(peer, height)] else [];
    var w1 := w.(peers := w.peers[peer := scored], log := w.log + notes);
    ScoreSound(cfg, w, peer, scored.blockScore, notes);
    if scored.requestQueue == [] {
      AskSound(cfg, w1, peer);
    } else {
      RequestSound(cfg, w1, peer, scored, InvVect(FilteredBlock, scored.requestQueue[0].hash), scored.requestQueue[1..]);
    }
  }

  lemma AskSound(cfg: Config, w: Wire, peer: Peer)
    requires Sound(cfg, w)
    ensures Sound(cfg, w.(log := w.log + [GetBlocks(peer)]))
  {
    QuietAppend(w.log, GetBlocks(peer));
    QuietSound(cfg, w, w.(log := w.log + [GetBlocks(peer)]));
  }

  lemma OnCommittedSound(cfg: Config, w: Wire, env: Env, peer: Peer, result: CommitResult)
    requires Sound(cfg, w) && peer in w.peers && Walks(env.order, w.peers)
    ensures Sound(cfg, OnCommitted(cfg, w, env, peer, result))
  {
    var state := w.peers[peer];
    match result {
      case Failed =>
      case Orphan =>
        if env.current(1) {
          var cleared := w.(peers := w.peers[peer := state.(requestQueue := [], requestedBlocks := {})], requested := {});
          QuietSound(cfg, w, cleared);
          StartSyncSound(cfg, cleared, env, Some(peer));
        } else {
          QuietAppend(w.log, Disconnect(peer));
          QuietSound(cfg, w, OnCommitted(cfg, w, env, peer, result));
        }
      case Committed(newBlock, height) =>
        NewBlockSound(cfg, w, env, peer, newBlock, height);
    }
  }

  lemma OnMerkleBlockSound(cfg: Config, w: Wire, env: Env, peer: Peer, hash: Hash, result: CommitResult)
    requires Sound(cfg, w) && Walks(env.order, w.peers)
    ensures Sound(cfg, OnMerkleBlock(cfg, w, env, peer, hash, result))
  {
    if Some(peer) != w.syncPeer && !env.current(0) {
    } else if peer !in w.peers || (hash !in w.peers[peer].requestedBlocks && !cfg.regtest) {
      QuietAppend(w.log, Disconnect(peer));
      QuietSound(cfg, w, w.(log := w.log + [Disconnect(peer)]));
    } else {
      TakenSound(cfg, w, peer, hash);
      var state := w.peers[peer];
      var taken := w.(peers := w.peers[peer := state.(requestedBlocks := state.requestedBlocks - {hash})],
                      requested := w.requested - {hash}, log := w.log + [BlockCommit(peer, hash)]);
      OnCommittedSound(cfg, taken, env, peer, result);
    }
  }

  lemma PeersSound(cfg: Config, w: Wire, env: Env, m: Message)
    requires Sound(cfg, w) && Fits(w, env, m) && (m.NewPeer? || m.DonePeer?)
    ensures Sound(cfg, Handle(cfg, w, env, m))
  {
    match m {
      case NewPeer(peer, candidate) =>
        var w' := w.(peers := w.peers[peer := PeerState(candidate, [], {}, 0)]);
        QuietSound(cfg, w, w');
        if w.syncPeer.None? && !env.current(0) {
          StartSyncSound(cfg, w', env, None);
        }
      case DonePeer(peer) =>
        if peer in w.peers {
          var sync := if w.syncPeer == Some(peer) then None else w.syncPeer;
          var w' := w.(peers := w.peers - {peer}, requested := w.requested - w.peers[peer].requestedBlocks, syncPeer := sync);
          QuietSound(cfg, w, w');
          if w.syncPeer == Some(peer) && !env.current(0) {
            StartSyncSound(cfg, w', env, None);
          }
        }
    }
  }

  lemma HandleSound(cfg: Config, w: Wire, env: Env, m: Message)
    requires Sound(cfg, w) && Fits(w, env, m)
    ensures Sound(cfg, Handle(cfg, w, env, m))
  {
    match m
    case NewPeer(_, _) => PeersSound(cfg, w, env, m);
    case DonePeer(_) => PeersSound(cfg, w, env, m);
    case HeadersMsg(peer, headers) => OnHeadersSound(cfg, w, env, peer, headers);
    case MerkleBlock(peer, hash, result) => OnMerkleBlockSound(cfg, w, env, peer, hash, result);
    case Inv(peer, list) => OnInvSound(cfg, w, env, peer, list);
    case Resync => StartSyncSound(cfg, w, env, w.syncPeer);
    case ResyncWithNil => StartSyncSound(cfg, w, env, None);
  }

  /** The service after any sequence of messages; one whose walk does not match the peers is not handled. */
  ghost function Run(cfg: Config, steps: seq<(Env, Message)>): Wire
    decreases |steps|
  {
    if steps == [] then INITIAL
    else
      var w := Run(cfg, steps[..|steps| - 1]);
      var (env, m) := steps[|steps| - 1];
      if Fits(w, env, m) then Handle(cfg, w, env, m) else w
  }

  /** Over every run the sync peer is nil or a known peer, and off regtest the merkle blocks of a peer committed for a
      block never exceed the getdata messages sent to it for that block. */
  lemma {:induction false} RunSound(cfg: Config, steps: seq<(Env, Message)>)
    ensures var w := Run(cfg, steps);
      && (w.syncPeer.Some? ==> w.syncPeer.value in w.peers)
      && (cfg.regtest || forall p, h :: multiset(w.log)[BlockCommit(p, h)] <= multiset(w.log)[GetData(p, h)])
    ensures Sound(cfg, Run(cfg, steps))
    decreases |steps|
  {
    if steps != [] {
      var w := Run(cfg, steps[..|steps| - 1]);
      var (env, m) := steps[|steps| - 1];
      RunSound(cfg, steps[..|steps| - 1]);
      if Fits(w, env, m) {
        HandleSound(cfg, w, env, m);
      }
    }
    var w := Run(cfg, steps);
    if !cfg.regtest {
      forall p, h ensures multiset(w.log)[BlockCommit(p, h)] <= multiset(w.log)[GetData(p, h)] {
        assert Covered(w, p, h);
      }
    }
  }

  predicate Commits(e: Event) {
    e.HeaderCommit? || e.BlockCommit?
  }

  /** The log grows by events that commit nothing. */
  ghost predicate NoCommits(log: seq<Event>, log': seq<Event>) {
    log <= log' && forall i | |log| <= i < |log'| :: !Commits(log'[i])
  }

  lemma StartSyncCommitsNothing(cfg: Config, w: Wire, env: Env, wanted: Option<Peer>)
    requires Walks(env.order, w.peers)
    ensures NoCommits(w.log, StartSync(cfg, w, env, wanted).log)
  {
  }

  lemma OnCommittedCommitsNothing(cfg: Config, w: Wire, env: Env, peer: Peer, result: CommitResult)
    requires peer in w.peers && Walks(env.order, w.peers)
    ensures NoCommits(w.log, OnCommitted(cfg, w, env, peer, result).log)
  {
    if result.Orphan? && env.current(1) {
      var cleared := w.(peers := w.peers[peer := w.peers[peer].(requestQueue := [], requestedBlocks := {})], requested := {});
      StartSyncCommitsNothing(cfg, cleared, env, Some(peer));
    }
  }

  /** The only headers a message can commit are its sender's, if the sender is known and is the sync peer or the chain
      is current. */
  ghost predicate Gated(w: Wire, env: Env, m: Message, log': seq<Event>) {
    && w.log <= log'
    && forall i | |w.log| <= i < |log'| && Commits(log'[i]) ::
         && (m.HeadersMsg? || m.MerkleBlock?)
         && log'[i].peer == m.peer && m.peer in w.peers
         && (w.syncPeer == Some(m.peer) || (m.MerkleBlock? && env.current(0)))
  }

  lemma MerkleBlockGated(cfg: Config, w: Wire, env: Env, peer: Peer, hash: Hash, result: CommitResult)
    requires Walks(env.order, w.peers)
    ensures Gated(w, env, MerkleBlock(peer, hash, result), OnMerkleBlock(cfg, w, env, peer, hash, result).log)
  {
    if !(Some(peer) != w.syncPeer && !env.current(0)) && peer in w.peers
       && (hash in w.peers[peer].requestedBlocks || cfg.regtest)
    {
      var state := w.peers[peer];
      var taken := w.(peers := w.peers[peer := state.(requestedBlocks := state.requestedBlocks - {hash})],
                      requested := w.requested - {hash}, log := w.log + [BlockCommit(peer, hash)]);
      OnCommittedCommitsNothing(cfg, taken, env, peer, result);
      assert OnMerkleBlock(cfg, w, env, peer, hash, result) == OnCommitted(cfg, taken, env, peer, result);
    }
  }

  lemma HeadersGated(w: Wire, env: Env, peer: Peer, headers: seq<HeaderMsg>)
    ensures Gated(w, env, HeadersMsg(peer, headers), OnHeaders(w, env, peer, headers).log)
  {
    CommitOldQuiet(peer, headers, env.now - NINETY_MINUTES);
  }

  lemma InvGated(w: Wire, env: Env, peer: Peer, list: seq<InvVect>)
    ensures Gated(w, env, Inv(peer, list), OnInv(w, env, peer, list).log)
  {
    assert forall e | e in Notes(w, env, peer, list) :: !Commits(e);
  }

  /** Looking for a sync peer changes nobody's requests. */
  lemma StartSyncKeepsPeers(cfg: Config, w: Wire, env: Env, wanted: Option<Peer>)
    requires Walks(env.order, w.peers)
    ensures var peers := StartSync(cfg, w, env, wanted).peers;
      && peers.Keys == w.peers.Keys
      && forall q | q in w.peers :: peers[q].requestQueue == w.peers[q].requestQueue
                                 && peers[q].requestedBlocks == w.peers[q].requestedBlocks
  {
    if env.best.Some? {
      assert DropLaggards(w.peers, env, env.best.value.height, env.order).Keys == w.peers.Keys;
    }
  }

  /** A new peer is known afterwards with nothing requested of it; no other peer's requests change. */
  lemma NewPeerEffects(cfg: Config, w: Wire, env: Env, peer: Peer, candidate: bool)
    requires Fits(w, env, NewPeer(peer, candidate))
    ensures var w' := OnNewPeer(cfg, w, env, peer, candidate);
      && NoCommits(w.log, w'.log)
      && w'.peers.Keys == w.peers.Keys + {peer} && Idle(w'.peers[peer])
      && forall q | q in w.peers && q != peer :: w'.peers[q].requestedBlocks == w.peers[q].requestedBlocks
  {
    hide StartSync;
    var w' := w.(peers := w.peers[peer := PeerState(candidate, [], {}, 0)]);
    StartSyncCommitsNothing(cfg, w', env, None);
    StartSyncKeepsPeers(cfg, w', env, None);
  }

  predicate Idle(state: PeerState) {
    state.requestQueue == [] && state.requestedBlocks == {}
  }

  /** A lost peer is forgotten, also as the sync peer; no other is. */
  lemma DonePeerEffects(cfg: Config, w: Wire, env: Env, peer: Peer)
    requires Fits(w, env, DonePeer(peer)) && (w.syncPeer.Some? ==> w.syncPeer.value in w.peers)
    ensures var w' := OnDonePeer(cfg, w, env, peer);
      && NoCommits(w.log, w'.log)
      && w'.peers.Keys == w.peers.Keys - {peer} && w'.syncPeer != Some(peer)
  {
    if peer in w.peers && w.syncPeer == Some(peer) {
      StartSyncCommitsNothing(cfg, Wire(None, w.peers - {peer}, w.requested - w.peers[peer].requestedBlocks, w.log), env, None);
    }
  }

  /** While the chain is not current only the sync peer can change the store; unknown peers never can. */
  lemma CommitsAreGated(cfg: Config, w: Wire, env: Env, m: Message)
    requires Fits(w, env, m)
    ensures Gated(w, env, m, Handle(cfg, w, env, m).log)
  {
    match m {
      case NewPeer(peer, candidate) =>
        if w.syncPeer.None? && !env.current(0) {
          StartSyncCommitsNothing(cfg, w.(peers := w.peers[peer := PeerState(candidate, [], {}, 0)]), env, None);
        }
      case DonePeer(peer) =>
        if peer in w.peers && w.syncPeer == Some(peer) {
          StartSyncCommitsNothing(cfg, Wire(None, w.peers - {peer}, w.requested - w.peers[peer].requestedBlocks, w.log), env, None);
        }
      case HeadersMsg(peer, headers) => HeadersGated(w, env, peer, headers);
      case MerkleBlock(peer, hash, result) => MerkleBlockGated(cfg, w, env, peer, hash, result);
      case Inv(peer, list) => InvGated(w, env, peer, list);
      case Resync => StartSyncCommitsNothing(cfg, w, env, w.syncPeer);
      case ResyncWithNil => StartSyncCommitsNothing(cfg, w, env, None);
    }
  }
}
