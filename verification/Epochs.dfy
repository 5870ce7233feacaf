/** What the difficulty rules guarantee about epochs: uniform bits, and the header an adjustment starts from. */
module Epochs {
  import opened Arithmetic
  import opened Headers
  import opened Compact
  import opened Difficulty
  import opened HeaderTree
  import opened ForkChoice

  /** The height of the first stored header of k's epoch, when the root opens an epoch. */
  function EpochFloor(height: nat): nat {
    height - height % EPOCH_LENGTH
  }

  lemma EpochFloorAboveRoot(rootHeight: nat, height: nat)
    requires rootHeight % EPOCH_LENGTH == 0 && rootHeight <= height
    ensures rootHeight <= EpochFloor(height) <= height
  {
  }

  ghost function EpochFirst(c: Chain, root: Hash, p: Params, k: Hash): Hash
    requires Valid(c, root, p) && k in c.headers && c.headers[root].height % EPOCH_LENGTH == 0
  {
    assert Linked(c.headers, root, k);
    EpochFloorAboveRoot(c.headers[root].height, c.headers[k].height);
    Ancestor(c.headers, root, k, EpochFloor(c.headers[k].height))
  }

  /** The first header of k's epoch is the ancestor at the last multiple of 2016 not above k. */
  lemma EpochFirstMeans(c: Chain, root: Hash, p: Params, k: Hash)
    requires Valid(c, root, p) && k in c.headers && c.headers[root].height % EPOCH_LENGTH == 0
    ensures var first := EpochFirst(c, root, p, k);
      && IsAncestor(c.headers, root, first, k)
      && c.headers[first].height % 2016 == 0 && c.headers[k].height - c.headers[first].height < 2016
  {
    assert Linked(c.headers, root, k);
  }

  lemma EpochFirstOfParent(c: Chain, root: Hash, p: Params, k: Hash)
    requires Valid(c, root, p) && k in c.headers && c.headers[root].height % EPOCH_LENGTH == 0
    requires c.headers[k].height % EPOCH_LENGTH != 0
    ensures k != root && c.headers[k].header.prev in c.headers
    ensures EpochFirst(c, root, p, c.headers[k].header.prev) == EpochFirst(c, root, p, k)
  {
    var prev := c.headers[k].header.prev;
    assert Linked(c.headers, root, k) && Linked(c.headers, root, prev);
    assert EpochFloor(c.headers[prev].height) == EpochFloor(c.headers[k].height);
  }

  /** Within an epoch bits never change, so work grows by the same amount per header. */
  lemma {:induction false} EpochUniform(c: Chain, root: Hash, p: Params, k: Hash)
    requires Valid(c, root, p) && !p.reduceMinDifficulty
    requires k in c.headers && c.headers[root].height % EPOCH_LENGTH == 0
    ensures var first := c.headers[EpochFirst(c, root, p, k)];
      && c.headers[k].header.bits == first.header.bits
      && c.headers[k].work == first.work + (c.headers[k].height - first.height) * CalcWork(first.header.bits)
    decreases c.headers[k].height
  {
    if c.headers[k].height % EPOCH_LENGTH != 0 {
      EpochFirstOfParent(c, root, p, k);
      var prev := c.headers[k].header.prev;
      assert Linked(c.headers, root, k) && Entry(c.headers, root, p, k);
      EpochUniform(c, root, p, prev);
      var first := c.headers[EpochFirst(c, root, p, k)];
      Successor(c.headers[prev].height - first.height, CalcWork(first.header.bits));
    }
  }

  /** Among headers that share the first header of their epoch, the longest chain is the one with most work. */
  lemma LongestIsHeaviest(c: Chain, root: Hash, p: Params, x: Hash, y: Hash)
    requires Valid(c, root, p) && !p.reduceMinDifficulty && c.headers[root].height % EPOCH_LENGTH == 0
    requires x in c.headers && y in c.headers && EpochFirst(c, root, p, x) == EpochFirst(c, root, p, y)
    ensures c.headers[x].work < c.headers[y].work <==> c.headers[x].height < c.headers[y].height
    ensures c.headers[x].work == c.headers[y].work <==> c.headers[x].height == c.headers[y].height
  {
    EpochUniform(c, root, p, x);
    EpochUniform(c, root, p, y);
    var first := EpochFirst(c, root, p, x);
    assert Entry(c.headers, root, p, first);
    var w := CalcWork(c.headers[first].header.bits);
    CalcWorkPositive(c.headers[first].header.bits);
    var m, n := c.headers[x].height - c.headers[first].height, c.headers[y].height - c.headers[first].height;
    ScaleOrder(m, n, w);
    ScaleOrder(n, m, w);
  }

  /** So the tip is the longest chain among those that share the first header of its epoch. */
  lemma TipIsLongest(c: Chain, root: Hash, p: Params, k: Hash)
    requires Valid(c, root, p) && TipMaximal(c) && !p.reduceMinDifficulty && c.headers[root].height % EPOCH_LENGTH == 0
    requires k in c.headers && EpochFirst(c, root, p, k) == EpochFirst(c, root, p, p.hash(c.tip.header))
    ensures c.headers[k].height <= c.tip.height
  {
    LongestIsHeaviest(c, root, p, p.hash(c.tip.header), k);
  }

  /** A header on top of the tip that opens an epoch above the root: the adjustment finds the header that opened the
      epoch now closing, 2016 below. */
  lemma EpochStartOnTip(c: Chain, root: Hash, p: Params)
    requires Valid(c, root, p) && c.headers[root].height % EPOCH_LENGTH == 0
    requires (c.tip.height + 1) % EPOCH_LENGTH == 0
    ensures var tip := p.hash(c.tip.header);
      && c.headers[root].height <= c.tip.height + 1 - EPOCH_LENGTH
      && EpochStart(c) == Some(c.headers[Ancestor(c.headers, root, tip, c.tip.height + 1 - EPOCH_LENGTH)])
      && EpochFirst(c, root, p, tip) == Ancestor(c.headers, root, tip, c.tip.height + 1 - EPOCH_LENGTH)
  {
    BackIsAncestor(c.headers, root, p.hash(c.tip.header), EPOCH_LENGTH - 1);
  }

  /** For a header on top of any stored parent that opens an epoch, the adjustment starts from the parent's own epoch
      exactly when the tip stands at the parent's height and the two share that epoch's first header. */
  lemma EpochStartOfForkIff(c: Chain, root: Hash, p: Params, parent: Hash)
    requires Valid(c, root, p) && c.headers[root].height % EPOCH_LENGTH == 0
    requires parent in c.headers && (c.headers[parent].height + 1) % EPOCH_LENGTH == 0
    ensures EpochStart(c) == Some(c.headers[EpochFirst(c, root, p, parent)])
       <==> c.tip.height == c.headers[parent].height
            && EpochFirst(c, root, p, p.hash(c.tip.header)) == EpochFirst(c, root, p, parent)
  {
    var tip, first := p.hash(c.tip.header), EpochFirst(c, root, p, parent);
    BackIsAncestor(c.headers, root, tip, EPOCH_LENGTH - 1);
    if EpochStart(c) == Some(c.headers[first]) {
      var a := Ancestor(c.headers, root, tip, c.tip.height - (EPOCH_LENGTH - 1));
      assert Entry(c.headers, root, p, a) && Entry(c.headers, root, p, first);
    }
  }

  ghost predicate WalkStops(c: Chain, root: Hash, p: Params, k: Hash)
    requires k in c.headers
  {
    k == root || c.headers[k].height % EPOCH_LENGTH == 0 || c.headers[k].header.bits != p.powLimitBits
  }

  /** The testnet walk ends at the nearest ancestor-or-self that opens an epoch or has bits other than the minimum
      difficulty, and at the root when there is none. */
  lemma {:induction false} TestnetWalkNearest(c: Chain, root: Hash, p: Params, k: Hash)
    requires Valid(c, root, p) && k in c.headers
    ensures var r := p.hash(LastOrdinary(c.headers, p, c.headers[k]).header);
      && IsAncestor(c.headers, root, r, k) && c.headers[r] == LastOrdinary(c.headers, p, c.headers[k])
      && WalkStops(c, root, p, r)
      && forall a :: IsAncestor(c.headers, root, a, k) && WalkStops(c, root, p, a) ==>
           c.headers[a].height <= c.headers[r].height
    decreases c.headers[k].height
  {
    var s := c.headers;
    assert Linked(s, root, k) && Entry(s, root, p, k);
    if !WalkStops(c, root, p, k) {
      TestnetWalkNearest(c, root, p, s[k].header.prev);
      forall a | IsAncestor(s, root, a, k) && WalkStops(c, root, p, a)
        ensures s[a].height <= LastOrdinary(s, p, s[k]).height
      {
        assert IsAncestor(s, root, a, s[k].header.prev);
      }
    }
  }

  /** Where difficulty may fall: inside an epoch the minimum is required of a header more than twenty minutes after its
      parent, and else the bits where the walk ends. */
  lemma {:induction false} RequiredOnTestnet(c: Chain, root: Hash, p: Params, header: Header, parent: Hash) returns (r: Hash)
    requires Valid(c, root, p) && parent in c.headers && p.reduceMinDifficulty
    requires (c.headers[parent].height + 1) % 2016 != 0
    ensures IsAncestor(c.headers, root, r, parent) && WalkStops(c, root, p, r)
    ensures forall a :: IsAncestor(c.headers, root, a, parent) && WalkStops(c, root, p, a) ==>
      c.headers[a].height <= c.headers[r].height
    ensures RequiredBits(c.headers, c.tip, p, header, c.headers[parent])
         == Some(if header.time > c.headers[parent].header.time + 1200 then p.powLimitBits else c.headers[r].header.bits)
  {
    hide LastOrdinary;
    TestnetWalkNearest(c, root, p, parent);
    r := p.hash(LastOrdinary(c.headers, p, c.headers[parent]).header);
  }
}
