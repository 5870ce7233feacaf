/** Safety of every run of CommitHeader, and of Rollback between commits, from a store that holds one checkpoint. */
module Runs {
  import opened Headers
  import opened Compact
  import opened Difficulty
  import opened HeaderTree
  import opened ForkChoice
  import opened Rollback

  /** Where a run starts: the checkpoint NewBlockchain stores, under the given parameters. */
  datatype Start = Start(checkpoint: Header, height: uint32, p: Params) {
    function Root(): Hash {
      p.hash(checkpoint)
    }

    function First(): StoredHeader {
      StoredHeader(checkpoint, height, 0)
    }

    /** The checkpoint alone, with no work counted yet. */
    function Chain(): Chain {
      ForkChoice.Chain(map[Root() := First()], First())
    }
  }

  ghost predicate NoClash(p: Params, g: Header, h: Header) {
    p.hash(g) == p.hash(h) ==> g == h
  }

  /** Inputs of a run: no two headers collide, none hashes to what lies below the checkpoint, heights stay below 2^31. */
  ghost predicate RunInput(st: Start, hs: seq<Header>) {
    var all := [st.checkpoint] + hs;
    && ValidLimits(st.p)
    && TargetInRange(st.checkpoint.bits, st.p)
    && (forall g, h {:trigger NoClash(st.p, g, h)} | g in all && h in all :: NoClash(st.p, g, h))
    && (forall h | h in all :: st.p.hash(h) != st.checkpoint.prev)
    && st.height + |hs| < TWO_31
  }

  lemma {:induction false} RunInputPrefix(st: Start, hs: seq<Header>, n: nat)
    requires RunInput(st, hs) && n <= |hs|
    ensures RunInput(st, hs[..n])
  {
    assert forall h | h in [st.checkpoint] + hs[..n] :: h in [st.checkpoint] + hs;
  }

  /** One commit; a chain out of shape, which no run meets, would stay as it is. */
  ghost function Advance(c: Chain, root: Hash, p: Params, header: Header): Chain {
    if Valid(c, root, p) && HasRoom(c.headers) then Commit(c, root, p, header) else c
  }

  /** The chain after committing hs in order. */
  ghost function Run(st: Start, hs: seq<Header>): Chain
    decreases |hs|
  {
    if hs == [] then st.Chain() else Advance(Run(st, hs[..|hs| - 1]), st.Root(), st.p, hs[|hs| - 1])
  }

  /** Every stored header was committed or is the checkpoint, and heights have grown by at most the number of commits. */
  ghost predicate Known(c: Chain, st: Start, hs: seq<Header>) {
    forall k {:trigger c.headers[k]} | k in c.headers ::
      c.headers[k].header in [st.checkpoint] + hs && c.headers[k].height <= st.height + |hs|
  }

  ghost predicate Reaches(c: Chain, st: Start, hs: seq<Header>) {
    && Valid(c, st.Root(), st.p)
    && c.headers[st.Root()] == StoredHeader(st.checkpoint, st.height, 0)
    && Known(c, st, hs)
  }

  lemma {:induction false} StartReaches(st: Start)
    requires RunInput(st, [])
    ensures Reaches(st.Chain(), st, []) && TipMaximal(st.Chain())
  {
    assert st.checkpoint in [st.checkpoint] + [];
    assert Linked(st.Chain().headers, st.Root(), st.Root());
  }

  /** The next header of a run never collides with what is stored. */
  lemma {:induction false} NextFits(st: Start, hs: seq<Header>, h: Header, c: Chain)
    requires RunInput(st, hs + [h]) && Reaches(c, st, hs)
    ensures HasRoom(c.headers) && NoCollision(c.headers, st.Root(), st.p, h)
  {
    var all := [st.checkpoint] + (hs + [h]);
    assert all[|hs| + 1] == h && forall g | g in [st.checkpoint] + hs :: g in all;
    if st.p.hash(h) in c.headers {
      assert Entry(c.headers, st.Root(), st.p, st.p.hash(h));
      assert NoClash(st.p, h, c.headers[st.p.hash(h)].header);
    }
  }

  lemma {:induction false} StepReaches(st: Start, hs: seq<Header>, h: Header, c: Chain)
    requires RunInput(st, hs + [h]) && Reaches(c, st, hs)
    ensures Reaches(Advance(c, st.Root(), st.p, h), st, hs + [h])
    ensures TipMaximal(c) ==> TipMaximal(Advance(c, st.Root(), st.p, h))
  {
    NextFits(st, hs, h, c);
    CommitKeeps(c, st.Root(), st.p, h);
    var all := [st.checkpoint] + (hs + [h]);
    assert all[|hs| + 1] == h && forall g | g in [st.checkpoint] + hs :: g in all;
  }

  lemma {:induction false} RunReaches(st: Start, hs: seq<Header>)
    requires RunInput(st, hs)
    ensures Reaches(Run(st, hs), st, hs) && TipMaximal(Run(st, hs))
    decreases |hs|
  {
    if hs == [] {
      StartReaches(st);
    } else {
      var init, last := hs[..|hs| - 1], hs[|hs| - 1];
      RunInputPrefix(st, hs, |init|);
      RunReaches(st, init);
      assert init + [last] == hs;
      StepReaches(st, init, last, Run(st, init));
    }
  }

  /** Along a run one more commit is the commit of the chain. */
  lemma RunNext(st: Start, hs: seq<Header>, h: Header)
    requires RunInput(st, hs + [h])
    ensures RunInput(st, hs)
    ensures var c := Run(st, hs);
      Valid(c, st.Root(), st.p) && HasRoom(c.headers) && Run(st, hs + [h]) == Commit(c, st.Root(), st.p, h)
  {
    assert (hs + [h])[..|hs|] == hs;
    RunInputPrefix(st, hs + [h], |hs|);
    RunReaches(st, hs);
    NextFits(st, hs, h, Run(st, hs));
  }

  /** What a reader of the store relies on. */
  ghost predicate WellFormed(c: Chain, root: Hash, p: Params) {
    && p.hash(c.tip.header) in c.headers && c.headers[p.hash(c.tip.header)] == c.tip
    && root in c.headers && c.headers[root].header.prev !in c.headers
    && forall k {:trigger c.headers[k]} | k in c.headers ::
         && p.hash(c.headers[k].header) == k
         && (k != root ==> OnParent(c.headers, k) && k <= CompactToBig(c.headers[k].header.bits) <= p.powLimit)
  }

  ghost predicate OnParent(s: Bucket, k: Hash)
    requires k in s
  {
    var prev := s[k].header.prev;
    && prev in s
    && s[k].height == s[prev].height + 1
    && s[k].work == s[prev].work + CalcWork(s[k].header.bits)
    && CalcWork(s[k].header.bits) >= 1
  }

  lemma {:induction false} ValidIsWellFormed(c: Chain, root: Hash, p: Params)
    requires Valid(c, root, p)
    ensures WellFormed(c, root, p)
  {
    forall k | k in c.headers
      ensures p.hash(c.headers[k].header) == k
      ensures k != root ==> OnParent(c.headers, k) && k <= CompactToBig(c.headers[k].header.bits) <= p.powLimit
    {
      assert Linked(c.headers, root, k) && Entry(c.headers, root, p, k);
      CalcWorkPositive(c.headers[k].header.bits);
    }
  }

  /** In every reachable store each header but the checkpoint sits one above its stored parent with at least one
      more hash of work, its hash meets its target, and nothing outweighs the tip. */
  lemma {:induction false} RunInvariant(st: Start, hs: seq<Header>)
    requires RunInput(st, hs)
    ensures WellFormed(Run(st, hs), st.Root(), st.p) && TipMaximal(Run(st, hs))
  {
    RunReaches(st, hs);
    ValidIsWellFormed(Run(st, hs), st.Root(), st.p);
  }

  /** Of two stored children of one parent, the one with the harder target never weighs less; so if the easier one is the
      tip, the two weigh the same. */
  lemma {:induction false} HarderSiblingWeighsMore(st: Start, hs: seq<Header>, x: Hash, y: Hash)
    requires RunInput(st, hs) && x in Run(st, hs).headers && y in Run(st, hs).headers && x != st.Root() && y != st.Root()
    requires var s := Run(st, hs).headers;
      s[x].header.prev == s[y].header.prev && CompactToBig(s[x].header.bits) <= CompactToBig(s[y].header.bits)
    ensures var c := Run(st, hs);
      && c.headers[x].work >= c.headers[y].work
      && (c.tip == c.headers[y] ==> c.headers[x].work == c.headers[y].work)
  {
    hide CompactToBig, CalcWork, Run;
    RunReaches(st, hs);
    var c := Run(st, hs);
    assert Entry(c.headers, st.Root(), st.p, x) && Entry(c.headers, st.Root(), st.p, y);
    assert Linked(c.headers, st.Root(), x) && Linked(c.headers, st.Root(), y);
    HarderWeighsMore(c.headers[x].header.bits, c.headers[y].header.bits);
  }

  /** Committing any stored header once more, at the end of any run, changes nothing. */
  lemma {:induction false} RunRecommit(st: Start, hs: seq<Header>, h: Header)
    requires RunInput(st, hs + [h]) && st.p.hash(h) in Run(st, hs).headers
    ensures Run(st, hs + [h]) == Run(st, hs)
  {
    var hs' := hs + [h];
    assert hs'[..|hs|] == hs;
    RunInputPrefix(st, hs', |hs|);
    RunReaches(st, hs);
    NextFits(st, hs, h, Run(st, hs));
    RecommitIsNothing(Run(st, hs), st.Root(), st.p, h);
  }

  ghost predicate AllLighter(s: Bucket, work: nat) {
    forall k | k in s :: s[k].work < work
  }

  /** Committing header i of the run stored it as the tip, when everything stored before weighed less. */
  ghost predicate FirstToReach(st: Start, hs: seq<Header>, tip: StoredHeader, i: nat) {
    && i < |hs| && tip.header == hs[i]
    && Run(st, hs[..i + 1]).tip == tip
    && AllLighter(Run(st, hs[..i]).headers, tip.work)
  }

  lemma {:induction false} FirstToReachLonger(st: Start, hs: seq<Header>, n: nat, tip: StoredHeader, i: nat)
    requires n <= |hs| && FirstToReach(st, hs[..n], tip, i)
    ensures FirstToReach(st, hs, tip, i)
  {
    assert hs[..n][..i] == hs[..i] && hs[..n][..i + 1] == hs[..i + 1];
  }

  lemma {:induction false} NewTipOutweighs(c: Chain, root: Hash, p: Params, h: Header)
    requires TipMaximal(c)
    ensures var tip := Advance(c, root, p, h).tip;
      tip != c.tip ==> tip.header == h && AllLighter(c.headers, tip.work)
  {
  }

  /** The tip is the checkpoint, or was stored by the first commit of the run to reach its work. */
  lemma {:induction false} TipCameFirst(st: Start, hs: seq<Header>)
    requires RunInput(st, hs)
    ensures var tip := Run(st, hs).tip;
      tip == StoredHeader(st.checkpoint, st.height, 0) || exists i: nat :: FirstToReach(st, hs, tip, i)
    decreases |hs|
  {
    if hs != [] {
      var n := |hs| - 1;
      RunInputPrefix(st, hs, n);
      RunReaches(st, hs[..n]);
      var before, tip := Run(st, hs[..n]), Run(st, hs).tip;
      NewTipOutweighs(before, st.Root(), st.p, hs[n]);
      if tip != before.tip {
        assert hs[..n + 1] == hs;
        assert FirstToReach(st, hs, tip, n);
      } else {
        TipCameFirst(st, hs[..n]);
        if i: nat :| FirstToReach(st, hs[..n], tip, i) {
          FirstToReachLonger(st, hs, n, tip, i);
        }
      }
    }
  }

  /** Operations that change the chain. */
  datatype Op = CommitOp(header: Header) | RollbackOp(t: int, checkpoint: Hash)

  function Committed(ops: seq<Op>): seq<Header>
    decreases |ops|
  {
    if ops == [] then []
    else Committed(ops[..|ops| - 1]) + if ops[|ops| - 1].CommitOp? then [ops[|ops| - 1].header] else []
  }

  lemma CommittedSnoc(ops: seq<Op>, op: Op)
    ensures Committed(ops + [op]) == Committed(ops) + if op.CommitOp? then [op.header] else []
  {
    assert (ops + [op])[..|ops|] == ops;
  }

  ghost function StepOp(c: Chain, root: Hash, p: Params, op: Op): Chain {
    match op
    case CommitOp(header) => Advance(c, root, p, header)
    case RollbackOp(t, checkpoint) => if Valid(c, root, p) then RolledBack(c, root, p, t, checkpoint) else c
  }

  ghost function RunOps(st: Start, ops: seq<Op>): Chain
    decreases |ops|
  {
    if ops == [] then st.Chain() else StepOp(RunOps(st, ops[..|ops| - 1]), st.Root(), st.p, ops[|ops| - 1])
  }

  /** Without rollbacks the operations are a run of commits. */
  lemma {:induction false} CommitsAreRun(st: Start, ops: seq<Op>)
    requires forall i | 0 <= i < |ops| :: ops[i].CommitOp?
    ensures RunOps(st, ops) == Run(st, Committed(ops))
    decreases |ops|
  {
    hide Advance;
    if ops != [] {
      var init, op := ops[..|ops| - 1], ops[|ops| - 1];
      CommitsAreRun(st, init);
      assert ops == init + [op];
      CommittedSnoc(init, op);
      assert (Committed(init) + [op.header])[..|Committed(init)|] == Committed(init);
    }
  }

  lemma {:induction false} RollbackReaches(st: Start, hs: seq<Header>, c: Chain, t: int, checkpoint: Hash)
    requires Reaches(c, st, hs)
    ensures Reaches(RolledBack(c, st.Root(), st.p, t, checkpoint), st, hs)
  {
    RollbackKeeps(c, st.Root(), st.p, t, checkpoint);
  }

  lemma {:induction false} RunOpsReaches(st: Start, ops: seq<Op>)
    requires RunInput(st, Committed(ops))
    ensures Reaches(RunOps(st, ops), st, Committed(ops))
    decreases |ops|
  {
    if ops == [] {
      StartReaches(st);
    } else {
      var init, op := ops[..|ops| - 1], ops[|ops| - 1];
      var hs := Committed(init);
      assert Committed(ops)[..|hs|] == hs;
      RunInputPrefix(st, Committed(ops), |hs|);
      RunOpsReaches(st, init);
      match op
      case CommitOp(header) => StepReaches(st, hs, header, RunOps(st, init));
      case RollbackOp(t, checkpoint) =>
        RollbackReaches(st, hs, RunOps(st, init), t, checkpoint);
        assert Committed(ops) == hs;
    }
  }

  /** In a store that reads its bucket, commits and rollbacks in any order keep the tree around the tip; only the
      tip's maximality can go. */
  lemma {:induction false} RunOpsInvariant(st: Start, ops: seq<Op>)
    requires RunInput(st, Committed(ops))
    ensures WellFormed(RunOps(st, ops), st.Root(), st.p)
  {
    RunOpsReaches(st, ops);
    ValidIsWellFormed(RunOps(st, ops), st.Root(), st.p);
  }
}
