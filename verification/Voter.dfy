/** The vote pipeline: the Vote loop, the WaitingRetry loop and the goroutines they leave behind, in any interleaving. */
module Voter {
  import opened Headers
  import opened WaitingDb

  /** Where the Vote loop stands with the proof in hand. */
  datatype Hand = Idle | Voting(item: BtcProof) | Marking(item: BtcProof) | Deleting(item: BtcProof)

  /** A goroutine that parks a proof in the waiting database; it first checks, then writes. */
  datatype Parking = Parking(item: BtcProof, checked: bool)

  datatype Outcome = Accepted | PostError | OtherError

  /** The shared state, with the history of successful votes and of dropped transactions beside it. */
  datatype State = State(
    channel: seq<BtcProof>,
    hand: Hand,
    parking: seq<Parking>,
    reposting: seq<BtcProof>,
    retrying: seq<BtcProof>,
    waiting: Waiting,
    voted: set<TxId>,
    seen: set<TxId>,
    votes: seq<BtcProof>,
    dropped: set<TxId>)

  const START := State([], Idle, [], [], [], map[], {}, {}, [], {})

  datatype Action =
    | Arrive(item: BtcProof)                       // the observer sends a proof
    | Receive(best: Option<uint32>, sound: bool)   // the Vote loop takes a proof and verifies it
    | Vote(outcome: Outcome)                       // the contract call returns
    | Mark                                         // MarkVotedTx
    | Delete                                       // DelIfExist
    | CheckParked(i: nat)                          // a goroutine looks whether the transaction waits already
    | WriteParked(i: nat)                          // and otherwise writes it
    | Repost(i: nat)                               // a goroutine sends a proof again
    | NewHeight(height: uint32, limit: int, order: seq<TxId>)  // WaitingRetry takes proofs out of the database
    | Resend                                       // and sends them one by one

  function Without<T>(s: seq<T>, i: nat): seq<T>
    requires i < |s|
  {
    s[..i] + s[i + 1..]
  }

  ghost predicate Enabled(s: State, a: Action) {
    match a
    case Arrive(_) => true
    case Receive(_, _) => s.hand.Idle? && s.channel != []
    case Vote(_) => s.hand.Voting?
    case Mark => s.hand.Marking?
    case Delete => s.hand.Deleting?
    case CheckParked(i) => i < |s.parking| && !s.parking[i].checked
    case WriteParked(i) => i < |s.parking| && s.parking[i].checked
    case Repost(i) => i < |s.reposting|
    case NewHeight(_, _, order) => s.retrying == [] && Enumerates(order, s.waiting)
    case Resend => s.retrying != []
  }

  function ProofsAt(w: Waiting, keys: seq<TxId>): seq<BtcProof>
    requires forall k | k in keys :: k in w && w[k].Proof?
  {
    seq(|keys|, i requires 0 <= i < |keys| => w[keys[i]].p)
  }

  /** The decision of verify and what the loop does about it: a voted transaction is rejected, and any
      while the best block is unknown; one short of confirmations is parked, an unsound one is rejected, any other goes
      to the vote. */
  function ReceiveStep(s: State, best: Option<uint32>, sound: bool): State
    requires s.channel != []
  {
    var item, rest := s.channel[0], s.(channel := s.channel[1..]);
    if item.txid in s.voted then rest.(dropped := s.dropped + {item.txid})
    else if best.None? then rest.(dropped := s.dropped + {item.txid})
    else if !Confirmed(best.value, item) then rest.(parking := s.parking + [Parking(item, false)])
    else if !sound then rest.(dropped := s.dropped + {item.txid})
    else rest.(hand := Voting(item))
  }

  function VoteStep(s: State, outcome: Outcome): State
    requires s.hand.Voting?
  {
    var item := s.hand.item;
    match outcome
    case Accepted => s.(hand := Marking(item), votes := s.votes + [item])
    case PostError => s.(hand := Idle, reposting := s.reposting + [item])
    case OtherError => s.(hand := Idle, dropped := s.dropped + {item.txid})
  }

  ghost predicate KeysMatch(w: Waiting) {
    forall k | k in w :: w[k].Proof? && w[k].p.txid == k
  }

  lemma ScanKeys(w: Waiting, order: seq<TxId>, height: int, limit: int)
    requires Enumerates(order, w)
    ensures var keys := Scan(w, order, height, limit, 0);
      && (KeysMatch(w) ==> keys.Some?)
      && (keys.Some? ==> forall k | k in keys.value :: k in w && w[k].Proof?)
  {
    ScanSound(w, order, height, limit, 0);
  }

  ghost function Next(s: State, a: Action): State {
    if !Enabled(s, a) then s else
    match a
    case Arrive(item) => s.(channel := s.channel + [item], seen := s.seen + {item.txid})
    case Receive(best, sound) => ReceiveStep(s, best, sound)
    case Vote(outcome) => VoteStep(s, outcome)
    case Mark => s.(hand := Deleting(s.hand.item), voted := s.voted + {s.hand.item.txid})
    case Delete => s.(hand := Idle, waiting := s.waiting - {s.hand.item.txid})
    case CheckParked(i) =>
      var item := s.parking[i].item;
      if item.txid in s.waiting then s.(parking := Without(s.parking, i))
      else s.(parking := s.parking[i := Parking(item, true)])
    case WriteParked(i) =>
      var item := s.parking[i].item;
      s.(parking := Without(s.parking, i), waiting := s.waiting[item.txid := Proof(item)])
    case Repost(i) => s.(channel := s.channel + [s.reposting[i]], reposting := Without(s.reposting, i))
    case NewHeight(height, limit, order) =>
      ScanKeys(s.waiting, order, height, limit);
      var keys := Scan(s.waiting, order, height, limit, 0);
      if keys.None? then s
      else s.(retrying := ProofsAt(s.waiting, keys.value), waiting := Left(s.waiting, order, height, limit))
    case Resend => s.(channel := s.channel + [s.retrying[0]], retrying := s.retrying[1..])
  }

  ghost predicate Carries(items: seq<BtcProof>, t: TxId) {
    exists i | 0 <= i < |items| :: items[i].txid == t
  }

  ghost predicate Parked(items: seq<Parking>, t: TxId) {
    exists i | 0 <= i < |items| :: items[i].item.txid == t
  }

  /** Some proof of t is in the channel, in hand, in a goroutine, on its way back, or in the waiting database. */
  ghost predicate Present(s: State, t: TxId) {
    || Carries(s.channel, t)
    || (s.hand.Voting? && s.hand.item.txid == t)
    || Parked(s.parking, t)
    || Carries(s.reposting, t)
    || Carries(s.retrying, t)
    || t in s.waiting
  }

  /** t has been voted for successfully, and that is settled or about to be marked. */
  ghost predicate VoteRecorded(s: State, t: TxId) {
    t in s.voted || (s.hand.Marking? && s.hand.item.txid == t)
  }

  ghost predicate Inv(s: State) {
    && KeysMatch(s.waiting)
    && (forall i, j | 0 <= i < j < |s.votes| :: s.votes[i].txid != s.votes[j].txid)
    && (forall i | 0 <= i < |s.votes| :: VoteRecorded(s, s.votes[i].txid))
    && (forall t | t in s.voted :: Carries(s.votes, t))
    && (s.hand.Marking? ==> Carries(s.votes, s.hand.item.txid) && s.hand.item.txid !in s.voted)
    && (s.hand.Deleting? ==> s.hand.item.txid in s.voted)
    && (s.hand.Voting? ==> s.hand.item.txid !in s.voted)
    && (forall t | t in s.seen :: Carries(s.votes, t) || t in s.dropped || Present(s, t))
  }

  lemma CarriesGrows(items: seq<BtcProof>, item: BtcProof, t: TxId)
    ensures Carries(items + [item], t) <==> Carries(items, t) || item.txid == t
  {
    var more := items + [item];
    assert more[|items|] == item;
    if Carries(items, t) {
      var i :| 0 <= i < |items| && items[i].txid == t;
      assert more[i].txid == t;
    }
  }

  lemma CarriesShrinks(items: seq<BtcProof>, i: nat, t: TxId)
    requires i < |items| && Carries(items, t)
    ensures items[i].txid == t || Carries(Without(items, i), t)
  {
    var j :| 0 <= j < |items| && items[j].txid == t;
    if j != i {
      assert Without(items, i)[if j < i then j else j - 1] == items[j];
    }
  }

  lemma ParkedGrows(items: seq<Parking>, item: Parking, t: TxId)
    ensures Parked(items, t) || item.item.txid == t ==> Parked(items + [item], t)
  {
    var more := items + [item];
    assert more[|items|] == item;
    if Parked(items, t) {
      var i :| 0 <= i < |items| && items[i].item.txid == t;
      assert more[i].item.txid == t;
    }
  }

  lemma ParkedShrinks(items: seq<Parking>, i: nat, t: TxId)
    requires i < |items| && Parked(items, t)
    ensures items[i].item.txid == t || Parked(Without(items, i), t)
  {
    var j :| 0 <= j < |items| && items[j].item.txid == t;
    if j != i {
      assert Without(items, i)[if j < i then j else j - 1] == items[j];
    }
  }

  /** t is accounted for: voted for, dropped, or still present. */
  ghost predicate Settled(s: State, t: TxId) {
    Carries(s.votes, t) || t in s.dropped || Present(s, t)
  }

  lemma ReceiveKeeps(s: State, best: Option<uint32>, sound: bool, t: TxId)
    requires s.channel != [] && s.hand.Idle? && Settled(s, t)
    ensures Settled(ReceiveStep(s, best, sound), t)
  {
    var item := s.channel[0];
    if Carries(s.channel, t) {
      CarriesShrinks(s.channel, 0, t);
      assert Without(s.channel, 0) == s.channel[1..];
    }
    ParkedGrows(s.parking, Parking(item, false), t);
  }

  lemma VoteKeeps(s: State, outcome: Outcome, t: TxId)
    requires s.hand.Voting? && Settled(s, t)
    ensures Settled(VoteStep(s, outcome), t)
  {
    CarriesGrows(s.votes, s.hand.item, t);
    CarriesGrows(s.reposting, s.hand.item, t);
  }

  lemma ParkingKeeps(s: State, a: Action, t: TxId)
    requires (a.CheckParked? || a.WriteParked?) && Enabled(s, a) && Settled(s, t)
    ensures Settled(Next(s, a), t)
  {
    if Parked(s.parking, t) {
      var i := a.i;
      ParkedShrinks(s.parking, i, t);
      var j :| 0 <= j < |s.parking| && s.parking[j].item.txid == t;
      var marked := s.parking[i := Parking(s.parking[i].item, true)];
      assert marked[j].item.txid == t;
    }
  }

  lemma ResendKeeps(s: State, a: Action, t: TxId)
    requires (a.Repost? || a.Resend?) && Enabled(s, a) && Settled(s, t)
    ensures Settled(Next(s, a), t)
  {
    var items, i := if a.Repost? then s.reposting else s.retrying, if a.Repost? then a.i else 0;
    CarriesGrows(s.channel, items[i], t);
    if Carries(items, t) {
      CarriesShrinks(items, i, t);
      assert a.Resend? ==> Without(s.retrying, 0) == s.retrying[1..];
    }
  }

  lemma NewHeightKeeps(s: State, a: Action, t: TxId)
    requires KeysMatch(s.waiting) && a.NewHeight? && Enabled(s, a) && Settled(s, t)
    ensures Settled(Next(s, a), t)
  {
    if t in s.waiting {
      ScanKeys(s.waiting, a.order, a.height, a.limit);
      var keys := Scan(s.waiting, a.order, a.height, a.limit, 0).value;
      if t in keys {
        var i :| 0 <= i < |keys| && keys[i] == t;
        assert ProofsAt(s.waiting, keys)[i].txid == t;
      }
    }
  }

  /** No step loses the last proof of a transaction that is neither voted for nor dropped. */
  lemma StepSettles(s: State, a: Action, t: TxId)
    requires Inv(s) && Settled(s, t)
    ensures Settled(Next(s, a), t)
  {
    if Enabled(s, a) {
      match a
      case Arrive(item) => CarriesGrows(s.channel, item, t);
      case Receive(best, sound) => ReceiveKeeps(s, best, sound, t);
      case Vote(outcome) => VoteKeeps(s, outcome, t);
      case Mark =>
      case Delete =>
      case CheckParked(_) => ParkingKeeps(s, a, t);
      case WriteParked(_) => ParkingKeeps(s, a, t);
      case Repost(_) => ResendKeeps(s, a, t);
      case NewHeight(_, _, _) => NewHeightKeeps(s, a, t);
      case Resend => ResendKeeps(s, a, t);
    }
  }

  lemma VotesKeep(s: State, outcome: Outcome)
    requires Inv(s) && s.hand.Voting?
    ensures var s' := VoteStep(s, outcome);
      && (forall i, j | 0 <= i < j < |s'.votes| :: s'.votes[i].txid != s'.votes[j].txid)
      && (forall i | 0 <= i < |s'.votes| :: VoteRecorded(s', s'.votes[i].txid))
      && (forall t | t in s'.voted :: Carries(s'.votes, t))
      && (s'.hand.Marking? ==> Carries(s'.votes, s'.hand.item.txid) && s'.hand.item.txid !in s'.voted)
  {
    var s' := VoteStep(s, outcome);
    forall i | 0 <= i < |s.votes| ensures s.votes[i].txid in s.voted && s.votes[i].txid != s.hand.item.txid {
      assert VoteRecorded(s, s.votes[i].txid);
    }
    forall t ensures Carries(s.votes, t) ==> Carries(s.votes + [s.hand.item], t) {
      CarriesGrows(s.votes, s.hand.item, t);
    }
    CarriesGrows(s.votes, s.hand.item, s.hand.item.txid);
  }

  lemma StepKeeps(s: State, a: Action)
    requires Inv(s)
    ensures Inv(Next(s, a))
  {
    var s' := Next(s, a);
    forall t | t in s'.seen ensures Settled(s', t) {
      if t in s.seen {
        assert Settled(s, t);
        StepSettles(s, a, t);
      } else {
        CarriesGrows(s.channel, a.item, t);
      }
    }
    if Enabled(s, a) && a.Vote? {
      VotesKeep(s, a.outcome);
    } else {
      forall i | 0 <= i < |s'.votes| ensures VoteRecorded(s', s'.votes[i].txid) {
        assert VoteRecorded(s, s.votes[i].txid);
      }
    }
  }

  ghost function RunFrom(s: State, actions: seq<Action>): State
    decreases |actions|
  {
    if actions == [] then s else Next(RunFrom(s, actions[..|actions| - 1]), actions[|actions| - 1])
  }

  ghost function Run(actions: seq<Action>): State {
    RunFrom(START, actions)
  }

  lemma {:induction false} RunKeeps(actions: seq<Action>)
    ensures Inv(Run(actions))
    decreases |actions|
  {
    if actions != [] {
      RunKeeps(actions[..|actions| - 1]);
      StepKeeps(Run(actions[..|actions| - 1]), actions[|actions| - 1]);
    }
  }

  /** In every interleaving each transaction gets at most one successful vote. */
  lemma AtMostOneVote(actions: seq<Action>, i: nat, j: nat)
    requires i < j < |Run(actions).votes|
    ensures Run(actions).votes[i].txid != Run(actions).votes[j].txid
  {
    RunKeeps(actions);
  }

  /** In every interleaving, until a transaction is voted for or dropped, some proof of it is still on its way. */
  lemma NoProofLost(actions: seq<Action>, t: TxId)
    requires t in Run(actions).seen && !Carries(Run(actions).votes, t) && t !in Run(actions).dropped
    ensures Present(Run(actions), t)
  {
    RunKeeps(actions);
  }

  /** Action m of the run took the proof from the channel. */
  ghost predicate ReceivedAt(actions: seq<Action>, m: nat, item: BtcProof) {
    m < |actions| && actions[m].Receive? &&
    var s := Run(actions[..m]); s.hand.Idle? && s.channel != [] && s.channel[0] == item
  }

  /** Enough blocks have been built on the proof's, counted in 64 and 32 bits. */
  ghost predicate Deep(best: uint32, item: BtcProof) {
    best - item.height >= (item.blocksToWait - 1) % 0x1_0000_0000_0000_0000 % 0x1_0000_0000
  }

  /** Then its transaction had not been voted for, the best block was known and deep enough, and the proof was sound. */
  ghost predicate PassedAt(actions: seq<Action>, m: nat, item: BtcProof) {
    && ReceivedAt(actions, m, item) && item.txid !in Run(actions[..m]).voted
    && actions[m].best.Some? && Deep(actions[m].best.value, item) && actions[m].sound
  }

  /** Or the best block was known but not deep enough. */
  ghost predicate ShortAt(actions: seq<Action>, m: nat, item: BtcProof) {
    && ReceivedAt(actions, m, item) && item.txid !in Run(actions[..m]).voted
    && actions[m].best.Some? && !Deep(actions[m].best.value, item)
  }

  ghost predicate HasPassed(actions: seq<Action>, item: BtcProof) {
    exists m: nat :: PassedAt(actions, m, item)
  }

  ghost predicate WasShort(actions: seq<Action>, item: BtcProof) {
    exists m: nat :: ShortAt(actions, m, item)
  }

  /** How every proof got where it is. */
  ghost predicate Explained(actions: seq<Action>) {
    var s := Run(actions);
    && (!s.hand.Idle? ==> HasPassed(actions, s.hand.item))
    && (forall i | 0 <= i < |s.votes| :: HasPassed(actions, s.votes[i]))
    && (forall i | 0 <= i < |s.reposting| :: HasPassed(actions, s.reposting[i]))
    && (forall i | 0 <= i < |s.parking| :: WasShort(actions, s.parking[i].item))
    && (forall i | 0 <= i < |s.retrying| :: WasShort(actions, s.retrying[i]))
    && (forall k | k in s.waiting && s.waiting[k].Proof? :: WasShort(actions, s.waiting[k].p))
  }

  /** What happened earlier has happened. */
  lemma HistoryGrows(actions: seq<Action>, a: Action, item: BtcProof)
    ensures HasPassed(actions, item) ==> HasPassed(actions + [a], item)
    ensures WasShort(actions, item) ==> WasShort(actions + [a], item)
  {
    if HasPassed(actions, item) {
      var m: nat :| PassedAt(actions, m, item);
      assert (actions + [a])[..m] == actions[..m];
      assert PassedAt(actions + [a], m, item);
    }
    if WasShort(actions, item) {
      var m: nat :| ShortAt(actions, m, item);
      assert (actions + [a])[..m] == actions[..m];
      assert ShortAt(actions + [a], m, item);
    }
  }

  /** A proof in hand passed just now or before; one that was parked just now fell short. */
  lemma ReceiveExplained(actions: seq<Action>, a: Action)
    requires a.Receive? && Enabled(Run(actions), a)
    ensures var s, s', more := Run(actions), Next(Run(actions), a), actions + [a];
      && (s'.hand.Idle? || (s'.hand.Voting? && HasPassed(more, s'.hand.item)))
      && (s'.parking == s.parking || (s'.parking == s.parking + [Parking(s.channel[0], false)] && WasShort(more, s.channel[0])))
  {
    var s, more, item := Run(actions), actions + [a], Run(actions).channel[0];
    assert more[|actions|] == a && more[..|actions|] == actions;
    assert ReceivedAt(more, |actions|, item);
    if Next(s, a).hand.Voting? {
      assert PassedAt(more, |actions|, item);
    }
    if Next(s, a).parking != s.parking {
      assert ShortAt(more, |actions|, item);
    }
  }

  lemma ExplainedStep(actions: seq<Action>, a: Action)
    requires Explained(actions)
    ensures Explained(actions + [a])
  {
    hide HasPassed, WasShort, ReceiveStep, Inv, Scan, Left, ProofsAt, Enumerates, RunFrom;
    RunStep(START, actions, a);
    var s, s' := Run(actions), Run(actions + [a]);
    forall item ensures HasPassed(actions, item) ==> HasPassed(actions + [a], item)
      ensures WasShort(actions, item) ==> WasShort(actions + [a], item)
    {
      HistoryGrows(actions, a, item);
    }
    if Enabled(s, a) && a.Receive? {
      ReceiveExplained(actions, a);
      ReceiveLeaves(s, a.best, a.sound);
    } else if Enabled(s, a) && a.NewHeight? {
      NewHeightMoves(s, a);
    }
  }

  lemma ReceiveLeaves(s: State, best: Option<uint32>, sound: bool)
    requires s.channel != []
    ensures var s' := ReceiveStep(s, best, sound);
      s'.votes == s.votes && s'.reposting == s.reposting && s'.retrying == s.retrying && s'.waiting == s.waiting
  {
  }

  lemma NewHeightMoves(s: State, a: Action)
    requires a.NewHeight? && Enabled(s, a)
    ensures var s' := Next(s, a);
      && s'.(retrying := s.retrying, waiting := s.waiting) == s
      && (forall k | k in s'.waiting :: k in s.waiting && s'.waiting[k] == s.waiting[k])
      && (forall i | 0 <= i < |s'.retrying| :: exists k | k in s.waiting :: s.waiting[k] == Proof(s'.retrying[i]))
  {
    ScanKeys(s.waiting, a.order, a.height, a.limit);
    var keys := Scan(s.waiting, a.order, a.height, a.limit, 0);
    if keys.Some? {
      var found := ProofsAt(s.waiting, keys.value);
      forall i | 0 <= i < |found| ensures exists k | k in s.waiting :: s.waiting[k] == Proof(found[i]) {
        assert keys.value[i] in keys.value;
        assert s.waiting[keys.value[i]] == Proof(found[i]);
      }
    }
  }

  lemma {:induction false} RunExplained(actions: seq<Action>)
    ensures Explained(actions)
    decreases |actions|
  {
    if actions != [] {
      var init, last := actions[..|actions| - 1], actions[|actions| - 1];
      RunExplained(init);
      ExplainedStep(init, last);
      assert init + [last] == actions;
    }
  }

  /** Every vote was cast for a proof taken from the channel when its transaction had not been voted for, the best block
      was known and deep enough, and the proof passed every check. */
  lemma {:induction false} VotesAreVerified(actions: seq<Action>, i: nat)
    requires i < |Run(actions).votes|
    ensures exists m: nat :: PassedAt(actions, m, Run(actions).votes[i])
  {
    RunExplained(actions);
    assert HasPassed(actions, Run(actions).votes[i]);
  }

  /** Every proof that waits, or is about to, or is on its way back from waiting, was short of confirmations once. */
  lemma {:induction false} WaitingWasShort(actions: seq<Action>, item: BtcProof)
    requires var s := Run(actions);
      || (exists i | 0 <= i < |s.parking| :: s.parking[i].item == item)
      || item in s.retrying
      || (exists k | k in s.waiting :: s.waiting[k] == Proof(item))
    ensures exists m: nat :: ShortAt(actions, m, item)
  {
    RunExplained(actions);
    assert WasShort(actions, item);
  }

  /** What a proof taken from the channel leads to: one that passed is voted for next, one that fell short is parked. */
  lemma ReceivedProofs(actions: seq<Action>, a: Action, item: BtcProof)
    ensures PassedAt(actions + [a], |actions|, item) ==>
      Run(actions + [a]) == Run(actions).(channel := Run(actions).channel[1..], hand := Voting(item))
    ensures ShortAt(actions + [a], |actions|, item) ==>
      Run(actions + [a]) == Run(actions).(channel := Run(actions).channel[1..],
                                          parking := Run(actions).parking + [Parking(item, false)])
  {
    RunStep(START, actions, a);
    assert (actions + [a])[..|actions|] == actions;
  }

  /** An accepted vote is counted, and in two further actions of the loop its transaction is marked and waits no more; a
      vote that could not be posted leaves the proof to a goroutine that sends it again. */
  lemma VoteLeads(s: State)
    requires s.hand.Voting?
    ensures RunFrom(s, [Vote(Accepted), Mark, Delete])
         == s.(hand := Idle, votes := s.votes + [s.hand.item], voted := s.voted + {s.hand.item.txid},
               waiting := s.waiting - {s.hand.item.txid})
    ensures RunFrom(s, [Vote(PostError), Repost(|s.reposting|)])
         == s.(hand := Idle, channel := s.channel + [s.hand.item])
  {
    hide RunFrom;
    RunNothing(s);
    RunStep(s, [], Vote(Accepted));
    RunStep(s, [] + [Vote(Accepted)], Mark);
    RunStep(s, [] + [Vote(Accepted)] + [Mark], Delete);
    assert [] + [Vote(Accepted)] + [Mark] + [Delete] == [Vote(Accepted), Mark, Delete];
    RunStep(s, [], Vote(PostError));
    RunStep(s, [] + [Vote(PostError)], Repost(|s.reposting|));
    assert [] + [Vote(PostError)] + [Repost(|s.reposting|)] == [Vote(PostError), Repost(|s.reposting|)];
    assert Without(s.reposting + [s.hand.item], |s.reposting|) == s.reposting;
  }

  /** A parked proof comes to wait unless its transaction waits already, and then the one that waits stays. */
  lemma ParkedLeads(s: State, i: nat)
    requires i < |s.parking| && !s.parking[i].checked
    ensures var item, left := s.parking[i].item, s.parking[..i] + s.parking[i + 1..];
      if item.txid in s.waiting then RunFrom(s, [CheckParked(i)]) == s.(parking := left)
      else RunFrom(s, [CheckParked(i), WriteParked(i)]) == s.(parking := left, waiting := s.waiting[item.txid := Proof(item)])
  {
    hide RunFrom;
    RunNothing(s);
    RunStep(s, [], CheckParked(i));
    RunStep(s, [] + [CheckParked(i)], WriteParked(i));
    assert [] + [CheckParked(i)] == [CheckParked(i)] && [CheckParked(i)] + [WriteParked(i)] == [CheckParked(i), WriteParked(i)];
    var marked := s.parking[i := Parking(s.parking[i].item, true)];
    assert Without(marked, i) == Without(s.parking, i);
  }

  /** A proof found at a new height leaves the database and, sent one by one, comes back to the channel. */
  lemma RetryLeads(s: State, a: Action)
    requires Inv(s) && a.NewHeight? && Enabled(s, a)
    ensures var s' := Next(s, a);
      && s'.(retrying := [], waiting := s.waiting) == s
      && (forall k :: k in s.waiting <==> k in s'.waiting || Carries(s'.retrying, k))
      && (forall k :: !(k in s'.waiting && Carries(s'.retrying, k)))
      && (forall k | k in s'.waiting :: s'.waiting[k] == s.waiting[k])
      && (forall i | 0 <= i < |s'.retrying| :: s'.retrying[i].height <= a.height
            && s'.retrying[i].txid in s.waiting && s.waiting[s'.retrying[i].txid] == Proof(s'.retrying[i]))
      && (s'.retrying == [] ==> forall k | k in s.waiting :: s.waiting[k].p.height > a.height)
  {
    ScanKeys(s.waiting, a.order, a.height, a.limit);
    ScanSound(s.waiting, a.order, a.height, a.limit, 0);
    ScanComplete(s.waiting, a.order, a.height, a.limit, 0);
    var keys := Scan(s.waiting, a.order, a.height, a.limit, 0).value;
    var s' := Next(s, a);
    assert forall i | 0 <= i < |keys| :: keys[i] in keys && s'.retrying[i].txid == keys[i];
    forall k ensures Carries(s'.retrying, k) <==> k in keys {
      if k in keys {
        var i :| 0 <= i < |keys| && keys[i] == k;
        assert s'.retrying[i].txid == k;
      }
    }
  }

  /** What was taken out is sent again in order, one by one. */
  lemma {:induction false} ResendLeads(s: State, n: nat)
    requires n <= |s.retrying|
    ensures RunFrom(s, seq(n, _ => Resend)) == s.(channel := s.channel + s.retrying[..n], retrying := s.retrying[n..])
  {
    if n == 0 {
      assert s.channel + s.retrying[..0] == s.channel && s.retrying[0..] == s.retrying;
    } else {
      ResendLeads(s, n - 1);
      var actions := seq(n - 1, _ => Resend);
      assert seq(n, _ => Resend) == actions + [Resend];
      RunStep(s, actions, Resend);
      assert s.channel + s.retrying[..n] == s.channel + s.retrying[..n - 1] + [s.retrying[n - 1]];
      assert s.retrying[n - 1..][1..] == s.retrying[n..];
    }
  }

  /** Action m of the run dropped t: a proof of it came after its vote, while the best block was unknown, or deep enough
      but unsound; or its vote failed for another reason than the connection. */
  ghost predicate DroppedAt(actions: seq<Action>, m: nat, t: TxId) {
    m < |actions| &&
    var s := Run(actions[..m]);
    match actions[m]
    case Receive(best, sound) =>
      s.hand.Idle? && s.channel != [] && s.channel[0].txid == t
      && (t in s.voted || best.None? || (Deep(best.value, s.channel[0]) && !sound))
    case Vote(outcome) => s.hand.Voting? && s.hand.item.txid == t && outcome == OtherError
    case _ => false
  }

  lemma DropStep(actions: seq<Action>, a: Action, t: TxId)
    ensures t in Run(actions + [a]).dropped <==> t in Run(actions).dropped || DroppedAt(actions + [a], |actions|, t)
  {
    RunStep(START, actions, a);
    assert (actions + [a])[..|actions|] == actions;
  }

  /** A transaction is dropped exactly when one of these happened; falling short of confirmations, or failing to reach
      the alliance chain, never drops it. */
  lemma {:induction false} DroppedIff(actions: seq<Action>, t: TxId)
    ensures t in Run(actions).dropped <==> exists m: nat :: DroppedAt(actions, m, t)
    decreases |actions|
  {
    if actions != [] {
      var init, last := actions[..|actions| - 1], actions[|actions| - 1];
      assert init + [last] == actions;
      DroppedIff(init, t);
      DropStep(init, last, t);
      forall m: nat | m < |init| ensures DroppedAt(init, m, t) <==> DroppedAt(actions, m, t) {
        assert init[..m] == actions[..m];
      }
    }
  }

  /** t has been voted for, and no proof of it waits or is about to. */
  ghost predicate Done(s: State, t: TxId) {
    Inv(s) && t in s.voted && t !in s.waiting && !Parked(s.parking, t)
  }

  lemma DoneStays(s: State, a: Action, t: TxId)
    requires Done(s, t)
    ensures Done(Next(s, a), t)
  {
    hide Inv;
    StepKeeps(s, a);
    assert forall i | 0 <= i < |s.parking| :: s.parking[i].item.txid != t;
  }

  lemma {:induction false} DoneForEver(s: State, actions: seq<Action>, t: TxId)
    requires Done(s, t)
    ensures Done(RunFrom(s, actions), t)
    decreases |actions|
  {
    if actions != [] {
      DoneForEver(s, actions[..|actions| - 1], t);
      DoneStays(RunFrom(s, actions[..|actions| - 1]), actions[|actions| - 1], t);
    }
  }

  /** A goroutine that holds a proof of t can bring it into the database. */
  lemma ParkedComesToWait(s: State, t: TxId) returns (actions: seq<Action>)
    requires t in s.waiting || Parked(s.parking, t)
    ensures t in RunFrom(s, actions).waiting
  {
    hide RunFrom;
    RunNothing(s);
    actions := [];
    if t !in s.waiting {
      var i :| 0 <= i < |s.parking| && s.parking[i].item.txid == t;
      var check, write := CheckParked(i), WriteParked(i);
      if s.parking[i].checked {
        RunStep(s, [], write);
        actions := [] + [write];
      } else {
        RunStep(s, [], check);
        RunStep(s, [] + [check], write);
        actions := [] + [check] + [write];
      }
    }
  }

  lemma RunNothing(s: State)
    ensures RunFrom(s, []) == s
  {
  }

  /** From any state of the pipeline, a voted transaction comes to wait in some continuation exactly when it waits now
      or a goroutine still holds a proof of it. */
  lemma VotedWaitsIff(s: State, t: TxId)
    requires Inv(s) && t in s.voted
    ensures (exists actions :: t in RunFrom(s, actions).waiting) <==> t in s.waiting || Parked(s.parking, t)
  {
    if t in s.waiting || Parked(s.parking, t) {
      var actions := ParkedComesToWait(s, t);
    } else {
      forall actions ensures t !in RunFrom(s, actions).waiting {
        DoneForEver(s, actions, t);
      }
    }
  }

  lemma RunStep(s: State, actions: seq<Action>, a: Action)
    ensures RunFrom(s, actions + [a]) == Next(RunFrom(s, actions), a)
  {
    assert (actions + [a])[..|actions|] == actions;
  }

  /** A proof parked late outlives the vote: its transaction is voted for, yet waits in the database again. */
  lemma VotedMayStillWait() returns (actions: seq<Action>, t: TxId)
    ensures var s := Run(actions); s.hand.Idle? && t in s.voted && t in s.waiting
  {
    t := [1];
    var early, late := BtcProof(t, 9, 1, 0), BtcProof(t, 5, 1, 0);
    var steps := [Arrive(early), Receive(Some(7), true), CheckParked(0), Arrive(late), Receive(Some(7), true),
                  Vote(Accepted), Mark, Delete, WriteParked(0)];
    actions := [];
    var s := START;
    for i := 0 to |steps|
      invariant Run(actions) == s
      invariant i == 1 ==> s == START.(channel := [early], seen := {t})
      invariant i == 2 ==> s == START.(parking := [Parking(early, false)], seen := {t})
      invariant i == 3 ==> s == START.(parking := [Parking(early, true)], seen := {t})
      invariant i == 4 ==> s == START.(parking := [Parking(early, true)], seen := {t}, channel := [late])
      invariant i == 5 ==> s == START.(parking := [Parking(early, true)], seen := {t}, hand := Voting(late))
      invariant i == 6 ==> s.parking == [Parking(early, true)] && s.hand == Marking(late)
      invariant i == 7 ==> s.parking == [Parking(early, true)] && s.hand == Deleting(late) && t in s.voted
      invariant i == 8 ==> s.parking == [Parking(early, true)] && s.hand == Idle && t in s.voted
      invariant i == 9 ==> s.hand == Idle && t in s.voted && t in s.waiting
      invariant i == 0 ==> s == START
    {
      RunStep(START, actions, steps[i]);
      s := Next(s, steps[i]);
      actions := actions + [steps[i]];
    }
  }
}
