/** The scan of the alliance chain for events to vote on and transactions to sign. */
module Observer {
  import opened Headers
  import opened WaitingDb

  /** What one notification of a block amounts to: a proof to vote on, a transaction to sign, or neither. */
  datatype Notify = ToVote(proof: BtcProof) | ToSign(tx: nat) | Ignored

  /** The notifications of each block of the alliance chain. */
  type Blocks = nat -> seq<Notify>

  /** One tick: the height the node reports, if it answers; how often each block has to be asked for again; and
      whether the height can be saved. */
  datatype Tick = Tick(height: Option<uint32>, retries: nat -> nat, saved: bool)

  function Captured(events: seq<Notify>): seq<Notify>
    decreases |events|
  {
    if events == [] then []
    else
      var last := events[|events| - 1];
      Captured(events[..|events| - 1]) + if last.Ignored? then [] else [last]
  }

  /** Everything captured in blocks scanned in the given order. */
  function CapturedAt(blocks: Blocks, heights: seq<nat>): seq<Notify>
    decreases |heights|
  {
    if heights == [] then []
    else CapturedAt(blocks, heights[..|heights| - 1]) + Captured(blocks(heights[|heights| - 1]))
  }

  /** The heights above the first, up to and including the second, in ascending order. */
  function Range(above: nat, last: nat): (r: seq<nat>)
    ensures |r| == if last <= above then 0 else last - above
    ensures forall i | 0 <= i < |r| :: r[i] == above + 1 + i
    decreases last
  {
    if last <= above then [] else Range(above, last - 1) + [last]
  }

  function Proofs(captured: seq<Notify>): seq<BtcProof>
    decreases |captured|
  {
    if captured == [] then []
    else
      var last := captured[|captured| - 1];
      Proofs(captured[..|captured| - 1]) + if last.ToVote? then [last.proof] else []
  }

  function Txs(captured: seq<Notify>): seq<nat>
    decreases |captured|
  {
    if captured == [] then []
    else
      var last := captured[|captured| - 1];
      Txs(captured[..|captured| - 1]) + if last.ToSign? then [last.tx] else []
  }

  lemma Snoc<T>(s: seq<T>, x: T)
    ensures (s + [x])[..|s + [x]| - 1] == s && (s + [x])[|s + [x]| - 1] == x
  {
  }

  lemma CapturedAtSnoc(blocks: Blocks, heights: seq<nat>, h: nat)
    ensures CapturedAt(blocks, heights + [h]) == CapturedAt(blocks, heights) + Captured(blocks(h))
  {
    Snoc(heights, h);
  }

  /** What is captured is filtered event by event, in order. */
  lemma {:induction false} CapturedEach(a: seq<Notify>, b: seq<Notify>, n: Notify)
    ensures Captured([]) == [] && Captured([n]) == if n.Ignored? then [] else [n]
    ensures Captured(a + b) == Captured(a) + Captured(b)
    decreases |b|
  {
    if b == [] {
      assert a + b == a;
    } else {
      var init, last := b[..|b| - 1], b[|b| - 1];
      assert a + b == (a + init) + [last] && b == init + [last];
      CapturedEach(a, init, n);
      Snoc(a + init, last);
    }
  }

  /** And so is what goes to which channel. */
  lemma {:induction false} ChannelsEach(a: seq<Notify>, b: seq<Notify>, n: Notify)
    ensures Proofs([]) == [] && Proofs([n]) == if n.ToVote? then [n.proof] else []
    ensures Txs([]) == [] && Txs([n]) == if n.ToSign? then [n.tx] else []
    ensures Proofs(a + b) == Proofs(a) + Proofs(b) && Txs(a + b) == Txs(a) + Txs(b)
    decreases |b|
  {
    hide *;
    ChannelsNone(n);
    if b == [] {
      assert a + b == a;
    } else {
      var init, last := b[..|b| - 1], b[|b| - 1];
      assert a + b == (a + init) + [last] && b == init + [last];
      ChannelsEach(a, init, n);
      ChannelsGrow(a + init, last);
      ChannelsGrow(init, last);
    }
  }

  lemma ChannelsNone(n: Notify)
    ensures Proofs([]) == [] && Txs([]) == []
    ensures Proofs([n]) == if n.ToVote? then [n.proof] else []
    ensures Txs([n]) == if n.ToSign? then [n.tx] else []
  {
    ChannelsGrow([], n);
    assert [] + [n] == [n];
  }

  lemma {:induction false} CapturedAtJoins(blocks: Blocks, a: seq<nat>, b: seq<nat>)
    ensures CapturedAt(blocks, a + b) == CapturedAt(blocks, a) + CapturedAt(blocks, b)
    decreases |b|
  {
    if b == [] {
      assert a + b == a;
    } else {
      var init, last := b[..|b| - 1], b[|b| - 1];
      assert a + b == (a + init) + [last] && b == init + [last];
      CapturedAtJoins(blocks, a, init);
      CapturedAtSnoc(blocks, a + init, last);
      CapturedAtSnoc(blocks, init, last);
    }
  }

  lemma {:induction false} RangeJoins(a: nat, b: nat, c: nat)
    requires a <= b <= c
    ensures Range(a, b) + Range(b, c) == Range(a, c)
    decreases c
  {
    if b < c {
      RangeJoins(a, b, c - 1);
      assert Range(a, b) + Range(b, c) == Range(a, b) + Range(b, c - 1) + [c];
    }
  }

  /** The top after the given ticks: the height of the last one the node answered. */
  function TopAfter(top: uint32, ticks: seq<Tick>): uint32
    decreases |ticks|
  {
    if ticks == [] then top
    else TopAfter(if ticks[0].height.None? then top else ticks[0].height.value, ticks[1..])
  }

  /** The heights scanned by the given ticks, tick by tick. */
  function Scanned(top: uint32, ticks: seq<Tick>): seq<nat>
    decreases |ticks|
  {
    if ticks == [] then []
    else if ticks[0].height.None? then Scanned(top, ticks[1..])
    else Range(top, ticks[0].height.value) + Scanned(ticks[0].height.value, ticks[1..])
  }

  /** Heights never fall from one answered tick to the next, nor below the top. */
  ghost predicate Nondecreasing(top: uint32, ticks: seq<Tick>)
    decreases |ticks|
  {
    ticks == []
    || (if ticks[0].height.None? then Nondecreasing(top, ticks[1..])
        else top <= ticks[0].height.value && Nondecreasing(ticks[0].height.value, ticks[1..]))
  }

  /** While the node's height does not fall, each height is scanned exactly once, in ascending order. */
  lemma {:induction false} ScannedOnce(top: uint32, ticks: seq<Tick>)
    requires Nondecreasing(top, ticks)
    ensures top <= TopAfter(top, ticks)
    ensures Scanned(top, ticks) == Range(top, TopAfter(top, ticks))
    decreases |ticks|
  {
    if ticks != [] {
      if ticks[0].height.None? {
        ScannedOnce(top, ticks[1..]);
      } else {
        var next := ticks[0].height.value;
        ScannedOnce(next, ticks[1..]);
        RangeJoins(top, next, TopAfter(next, ticks[1..]));
      }
    }
  }

  lemma {:induction false} ScannedAtLeast(top: uint32, ticks: seq<Tick>)
    ensures top + |Scanned(top, ticks)| >= TopAfter(top, ticks)
    ensures top + |Scanned(top, ticks)| == TopAfter(top, ticks) ==> Nondecreasing(top, ticks)
    decreases |ticks|
  {
    if ticks != [] {
      ScannedAtLeast(if ticks[0].height.None? then top else ticks[0].height.value, ticks[1..]);
    }
  }

  /** Each height from the first top to the last is scanned exactly once, in ascending order, exactly when the heights
      the node reports never fall. */
  lemma ScannedOnceIff(top: uint32, ticks: seq<Tick>)
    ensures top <= TopAfter(top, ticks) && Scanned(top, ticks) == Range(top, TopAfter(top, ticks))
       <==> Nondecreasing(top, ticks)
  {
    ScannedAtLeast(top, ticks);
    if Nondecreasing(top, ticks) {
      ScannedOnce(top, ticks);
    }
  }

  /** If it falls and rises again, a height is scanned twice. */
  lemma FallingHeightRepeats()
    ensures Scanned(1, [Tick(Some(2), _ => 0, true), Tick(Some(1), _ => 0, true), Tick(Some(2), _ => 0, true)]) == [2, 2]
  {
    var t1, t2, t3 := Tick(Some(2), _ => 0, true), Tick(Some(1), _ => 0, true), Tick(Some(2), _ => 0, true);
    assert [t1, t2, t3][1..] == [t2, t3] && [t2, t3][1..] == [t3] && [t3][1..] == [];
    assert Range(1, 2) == [2];
    assert Scanned(1, [t3]) == Range(1, 2) + Scanned(2, []) == [2];
    assert Scanned(2, [t2, t3]) == Range(2, 1) + Scanned(1, [t3]) == [2];
  }

  /** Nothing is captured in the blocks above a, up to b. */
  ghost predicate Quiet(blocks: Blocks, a: nat, b: nat) {
    CapturedAt(blocks, Range(a, b)) == []
  }

  lemma QuietJoins(blocks: Blocks, a: nat, b: nat, c: nat)
    requires a <= b <= c && Quiet(blocks, a, b) && Quiet(blocks, b, c)
    ensures Quiet(blocks, a, c)
  {
    RangeJoins(a, b, c);
    CapturedAtJoins(blocks, Range(a, b), Range(b, c));
  }

  /** Restarting at r, above which nothing was captured up to t1, delivers what one uninterrupted scan would have: no
      event is skipped and none comes twice. */
  lemma RestartExact(blocks: Blocks, start: nat, r: nat, t1: nat, t2: nat)
    requires start <= r <= t1 <= t2 && Quiet(blocks, r, t1)
    ensures CapturedAt(blocks, Range(start, t1) + Range(r, t2)) == CapturedAt(blocks, Range(start, t2))
  {
    RangeJoins(start, t1, t2);
    RangeJoins(r, t1, t2);
    CapturedAtJoins(blocks, Range(start, t1), Range(t1, t2));
    CapturedAtJoins(blocks, Range(r, t1), Range(t1, t2));
    CapturedAtJoins(blocks, Range(start, t1), Range(r, t2));
  }

  lemma ChannelsGrow(captured: seq<Notify>, n: Notify)
    ensures Proofs(captured + [n]) == Proofs(captured) + if n.ToVote? then [n.proof] else []
    ensures Txs(captured + [n]) == Txs(captured) + if n.ToSign? then [n.tx] else []
  {
    Snoc(captured, n);
  }

  /** What has been captured after the first i notifications of one more block. */
  ghost function Sofar(before: seq<Notify>, events: seq<Notify>, i: nat): seq<Notify>
    requires i <= |events|
  {
    before + Captured(events[..i])
  }

  /** What the channels and the two counts hold at that point. */
  ghost predicate Sent(before: seq<Notify>, events: seq<Notify>, i: nat, voting: seq<BtcProof>, txchan: seq<nat>, count: nat)
    requires i <= |events|
  {
    && voting == Proofs(Sofar(before, events, i))
    && txchan == Txs(Sofar(before, events, i))
    && count == |Captured(events[..i])|
  }

  lemma SentStep(before: seq<Notify>, events: seq<Notify>, i: nat, voting: seq<BtcProof>, txchan: seq<nat>, count: nat)
    requires i < |events| && Sent(before, events, i, voting, txchan, count)
    ensures match events[i]
      case Ignored => Sent(before, events, i + 1, voting, txchan, count)
      case ToVote(proof) => Sent(before, events, i + 1, voting + [proof], txchan, count + 1)
      case ToSign(tx) => Sent(before, events, i + 1, voting, txchan + [tx], count + 1)
  {
    var n, sofar := events[i], Captured(events[..i]);
    assert events[..i + 1] == events[..i] + [n];
    Snoc(events[..i], n);
    if n.Ignored? {
      assert Captured(events[..i + 1]) == sofar + [] == sofar;
    } else {
      assert Captured(events[..i + 1]) == sofar + [n];
      assert before + (sofar + [n]) == before + sofar + [n];
      ChannelsGrow(before + sofar, n);
      assert voting + [] == voting && txchan + [] == txchan;
    }
  }

  lemma SentBlock(blocks: Blocks, scanned: seq<nat>, h: nat, voting: seq<BtcProof>, txchan: seq<nat>, count: nat)
    requires Sent(CapturedAt(blocks, scanned), blocks(h), |blocks(h)|, voting, txchan, count)
    ensures voting == Proofs(CapturedAt(blocks, scanned + [h])) && txchan == Txs(CapturedAt(blocks, scanned + [h]))
    ensures count == |Captured(blocks(h))|
  {
    assert blocks(h)[..|blocks(h)|] == blocks(h);
    CapturedAtSnoc(blocks, scanned, h);
  }

  lemma SentNothing(before: seq<Notify>, events: seq<Notify>)
    ensures Sent(before, events, 0, Proofs(before), Txs(before), 0)
  {
    assert before + [] == before;
  }

  /** The blocks above top, up to last, have been scanned after those of before, and count events captured in them. */
  ghost predicate Progress(blocks: Blocks, before: seq<nat>, scanned: seq<nat>, top: nat, last: nat, count: nat) {
    scanned == before + Range(top, last) && count == |CapturedAt(blocks, Range(top, last))|
  }

  lemma ProgressStart(blocks: Blocks, scanned: seq<nat>, top: nat)
    ensures Progress(blocks, scanned, scanned, top, top, 0)
  {
    assert scanned + [] == scanned;
  }

  lemma ProgressBehind(blocks: Blocks, before: seq<nat>, scanned: seq<nat>, top: nat, newTop: nat, count: nat)
    requires newTop < top && Progress(blocks, before, scanned, top, top, count)
    ensures Progress(blocks, before, scanned, top, newTop, count)
  {
    assert Range(top, newTop) == Range(top, top);
  }

  lemma ProgressStep(blocks: Blocks, before: seq<nat>, scanned: seq<nat>, top: nat, last: nat, count: nat)
    requires top <= last && Progress(blocks, before, scanned, top, last, count)
    ensures Progress(blocks, before, scanned + [last + 1], top, last + 1, count + |Captured(blocks(last + 1))|)
  {
    CapturedAtSnoc(blocks, Range(top, last), last + 1);
    assert before + (Range(top, last) + [last + 1]) == before + Range(top, last) + [last + 1];
  }

  /** Scanning what one more tick reports leaves the rest to scan. */
  lemma TickStep(scanned: seq<nat>, top: uint32, ticks: seq<Tick>, i: nat)
    requires i < |ticks|
    ensures var newTop := if ticks[i].height.None? then top else ticks[i].height.value;
      && scanned + Scanned(top, ticks[i..]) == scanned + Range(top, newTop) + Scanned(newTop, ticks[i + 1..])
      && TopAfter(top, ticks[i..]) == TopAfter(newTop, ticks[i + 1..])
      && (Nondecreasing(top, ticks[i..]) ==> top <= newTop && Nondecreasing(newTop, ticks[i + 1..]))
  {
    assert ticks[i..][0] == ticks[i] && ticks[i..][1..] == ticks[i + 1..];
    if ticks[i].height.None? {
      assert scanned + Range(top, top) == scanned;
    }
  }

  class Observer {
    const blocks: Blocks
    const checkpoint: uint32
    const waitingCircle: uint32
    var voting: seq<BtcProof>
    var txchan: seq<nat>
    var saved: uint32
    ghost var scanned: seq<nat>

    /** The two channels were sent what was captured in the blocks scanned, in order, each event to its own. */
    ghost predicate Consistent()
      reads this
    {
      voting == Proofs(CapturedAt(blocks, scanned)) && txchan == Txs(CapturedAt(blocks, scanned))
    }

    constructor (blocks: Blocks, checkpoint: uint32, waitingCircle: uint32, saved: uint32)
      ensures this.blocks == blocks && this.checkpoint == checkpoint && this.waitingCircle == waitingCircle
      ensures this.saved == saved && scanned == [] && Consistent()
    {
      this.blocks, this.checkpoint, this.waitingCircle, this.saved := blocks, checkpoint, waitingCircle, saved;
      voting, txchan, scanned := [], [], [];
    }

    /** Where a scan that starts now begins. */
    function Restart(): (r: uint32)
      reads this
      ensures r >= saved && r >= checkpoint && (r == saved || r == checkpoint)
    {
      if saved < checkpoint then checkpoint else saved
    }

    method CheckEvents(h: uint32) returns (toVote: nat, toSign: nat)
      requires Consistent()
      modifies this`voting, this`txchan, this`scanned
      ensures Consistent() && scanned == old(scanned) + [h]
      ensures toVote + toSign == |Captured(blocks(h))|
    {
      toVote, toSign := 0, 0;
      var events := blocks(h);
      ghost var before := CapturedAt(blocks, scanned);
      SentNothing(before, events);
      for i := 0 to |events|
        invariant scanned == old(scanned) && Sent(before, events, i, voting, txchan, toVote + toSign)
      {
        SentStep(before, events, i, voting, txchan, toVote + toSign);
        match events[i]
        case Ignored =>
        case ToVote(proof) =>
          voting := voting + [proof];
          toVote := toVote + 1;
        case ToSign(tx) =>
          txchan := txchan + [tx];
          toSign := toSign + 1;
      }
      SentBlock(blocks, scanned, h, voting, txchan, toVote + toSign);
      scanned := scanned + [h];
    }

    /** Scans the blocks above top, asking again for those that fail to arrive. */
    method ScanUpTo(top: uint32, newTop: uint32, retries: nat -> nat) returns (count: nat)
      requires Consistent() && newTop < TWO_32 - 1 && top != newTop
      modifies this`voting, this`txchan, this`scanned
      ensures Consistent() && Progress(blocks, old(scanned), scanned, top, newTop, count)
    {
      hide *;
      var toVote, toSign, h, failures := 0, 0, top as int + 1, 0;
      ghost var last: nat := top;
      ProgressStart(blocks, scanned, top);
      while h <= newTop
        invariant h == last + 1 && (top == last || top < last <= newTop)
        invariant Consistent()
        invariant Progress(blocks, old(scanned), scanned, top, last, toVote + toSign)
        decreases newTop + 1 - h, retries(h) - failures
      {
        if failures < retries(h) {
          failures := failures + 1;
          continue;
        }
        ghost var before := scanned;
        ProgressStep(blocks, old(scanned), before, top, last, toVote + toSign);
        var voteCnt, signCnt := CheckEvents(h);
        assert Consistent();
        last := h;
        assert scanned == before + [last];
        toVote := toVote + voteCnt;
        toSign := toSign + signCnt;
        h, failures := h + 1, 0;
      }
      if newTop < top {
        ProgressBehind(blocks, old(scanned), scanned, top, newTop, toVote + toSign);
      }
      return toVote + toSign;
    }

    /** One tick: the height is saved if anything was captured or it lies on the circle. */
    method OnTick(top: uint32, tick: Tick) returns (newTop: uint32)
      requires Consistent() && waitingCircle > 0
      requires tick.height.Some? ==> tick.height.value < TWO_32 - 1
      modifies this
      ensures Consistent()
      ensures newTop == if tick.height.None? then top else tick.height.value
      ensures scanned == old(scanned) + Range(top, newTop)
      ensures saved == if newTop != top && tick.saved && (!Quiet(blocks, top, newTop) || newTop % waitingCircle == 0)
                       then newTop else old(saved)
    {
      newTop := top;
      if tick.height.None? || tick.height.value == top {
        assert scanned + [] == scanned;
        return;
      }
      newTop := tick.height.value;
      var count := ScanUpTo(top, newTop, tick.retries);
      if (count > 0 || newTop % waitingCircle == 0) && tick.saved {
        saved := newTop;
      }
    }

    ghost predicate Steady(start: uint32, ticks: seq<Tick>) {
      Nondecreasing(start, ticks) && forall i | 0 <= i < |ticks| :: ticks[i].saved
    }

    /** The scan loop over any number of ticks. */
    method Listen(ticks: seq<Tick>) returns (top: uint32)
      requires Consistent() && waitingCircle > 0
      requires forall i | 0 <= i < |ticks| :: ticks[i].height.Some? ==> ticks[i].height.value < TWO_32 - 1
      modifies this
      ensures Consistent()
      ensures top == TopAfter(old(Restart()), ticks)
      ensures scanned == old(scanned) + Scanned(old(Restart()), ticks)
      ensures Steady(old(Restart()), ticks) ==> old(Restart()) <= Restart() <= top && Quiet(blocks, Restart(), top)
    {
      top := Restart();
      ghost var start := top;
      ghost var steady := Steady(start, ticks);
      ghost var all := old(scanned) + Scanned(start, ticks);
      var i := 0;
      assert ticks[0..] == ticks;
      while i < |ticks|
        invariant 0 <= i <= |ticks| && Consistent()
        invariant scanned + Scanned(top, ticks[i..]) == all
        invariant TopAfter(top, ticks[i..]) == TopAfter(start, ticks)
        invariant steady ==> Nondecreasing(top, ticks[i..])
        invariant steady ==> start <= Restart() <= top && Quiet(blocks, Restart(), top)
      {
        var tick := ticks[i];
        ghost var r := Restart();
        TickStep(scanned, top, ticks, i);
        var newTop := OnTick(top, tick);
        if steady && Restart() == r && Quiet(blocks, top, newTop) {
          QuietJoins(blocks, r, top, newTop);
        }
        top := newTop;
        i := i + 1;
      }
      assert ticks[i..] == [] && scanned + [] == scanned;
    }
  }
}
