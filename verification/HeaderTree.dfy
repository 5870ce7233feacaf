/** The tree that stored headers form through their previous-block hashes. */
module HeaderTree {
  import opened Headers

  /** What one stored header owes its parent; the trigger keeps the proof from chasing parents on its own. */
  ghost predicate Linked(s: Bucket, root: Hash, k: Hash)
    requires root in s && k in s
  {
    && s[root].height <= s[k].height
    && (k != root ==> s[k].header.prev in s && s[k].height == s[s[k].header.prev].height + 1)
  }

  /** A single root, every other header one above a stored parent. */
  ghost predicate Tree(s: Bucket, root: Hash) {
    && root in s
    && s[root].header.prev !in s
    && forall k {:trigger Linked(s, root, k)} | k in s :: Linked(s, root, k)
  }

  /** The ancestor-or-self of k at height h. */
  ghost function Ancestor(s: Bucket, root: Hash, k: Hash, h: int): (a: Hash)
    requires Tree(s, root) && k in s && s[root].height <= h <= s[k].height
    ensures a in s && s[a].height == h
    decreases s[k].height
  {
    assert Linked(s, root, k);
    if s[k].height == h then k else Ancestor(s, root, s[k].header.prev, h)
  }

  ghost predicate IsAncestor(s: Bucket, root: Hash, a: Hash, k: Hash)
    requires Tree(s, root) && k in s
  {
    a in s && (assert Linked(s, root, a); s[a].height <= s[k].height && Ancestor(s, root, k, s[a].height) == a)
  }

  /** c is an ancestor of both, and no common ancestor is higher. */
  ghost predicate HighestCommonAncestor(s: Bucket, root: Hash, x: Hash, y: Hash, c: Hash)
    requires Tree(s, root) && x in s && y in s
  {
    && IsAncestor(s, root, c, x)
    && IsAncestor(s, root, c, y)
    && forall a :: IsAncestor(s, root, a, x) && IsAncestor(s, root, a, y) ==> s[a].height <= s[c].height
  }

  lemma {:induction false} AncestorCompose(s: Bucket, root: Hash, k: Hash, h: int, g: int)
    requires Tree(s, root) && k in s && s[root].height <= g <= h <= s[k].height
    ensures Ancestor(s, root, Ancestor(s, root, k, h), g) == Ancestor(s, root, k, g)
    decreases s[k].height
  {
    assert Linked(s, root, k);
    if s[k].height != h {
      AncestorCompose(s, root, s[k].header.prev, h, g);
    }
  }

  /** Every header descends from the root. */
  lemma {:induction false} AncestorRoot(s: Bucket, root: Hash, k: Hash)
    requires Tree(s, root) && k in s
    ensures s[root].height <= s[k].height && Ancestor(s, root, k, s[root].height) == root
    decreases s[k].height
  {
    assert Linked(s, root, k);
    if k != root {
      assert Linked(s, root, s[k].header.prev);
      AncestorRoot(s, root, s[k].header.prev);
    }
  }

  /** One height down is the parent. */
  lemma AncestorBelow(s: Bucket, root: Hash, k: Hash, h: int)
    requires Tree(s, root) && k in s && s[root].height < h <= s[k].height
    ensures var a := Ancestor(s, root, k, h);
      a != root && s[a].header.prev in s && s[a].header.prev == Ancestor(s, root, k, h - 1)
  {
    assert Linked(s, root, Ancestor(s, root, k, h));
    AncestorCompose(s, root, k, h, h - 1);
  }

  /** The ancestors of k are k itself and, one height further down each, the previous block of the one above. */
  lemma {:induction false} AncestorsArePath(s: Bucket, root: Hash, k: Hash)
    requires Tree(s, root) && k in s
    ensures s[root].height <= s[k].height && Ancestor(s, root, k, s[k].height) == k
    ensures forall h: int | s[root].height <= h < s[k].height ::
      s[Ancestor(s, root, k, h + 1)].header.prev == Ancestor(s, root, k, h)
    ensures forall a :: IsAncestor(s, root, a, k) <==>
      (a == k || (k != root && s[k].header.prev in s && IsAncestor(s, root, a, s[k].header.prev)))
  {
    AncestorRoot(s, root, k);
    assert Linked(s, root, k);
    forall h: int | s[root].height <= h < s[k].height
      ensures s[Ancestor(s, root, k, h + 1)].header.prev == Ancestor(s, root, k, h)
    {
      AncestorBelow(s, root, k, h + 1);
    }
    forall a ensures IsAncestor(s, root, a, k) <==>
      (a == k || (k != root && s[k].header.prev in s && IsAncestor(s, root, a, s[k].header.prev)))
    {
      if a in s {
        assert Linked(s, root, a);
      }
    }
  }

  /** s' knows every header of s, at the same place. */
  ghost predicate Extends(s: Bucket, s': Bucket) {
    forall k {:trigger s'[k]} {:trigger k in s'} | k in s ::
      k in s' && s'[k].header.prev == s[k].header.prev && s'[k].height == s[k].height
  }

  lemma {:induction false} AncestorExtends(s: Bucket, s': Bucket, root: Hash, k: Hash, h: int)
    requires Tree(s, root) && Tree(s', root) && Extends(s, s')
    requires k in s && s[root].height <= h <= s[k].height
    ensures k in s' && Ancestor(s', root, k, h) == Ancestor(s, root, k, h)
    decreases s[k].height
  {
    assert k in s' && root in s';
    assert Linked(s, root, k);
    if s[k].height != h {
      AncestorExtends(s, s', root, s[k].header.prev, h);
    }
  }

  /** Storing a header one above a stored parent, in a free place or where the same header already is. */
  lemma TreeInsert(s: Bucket, root: Hash, k: Hash, sh: StoredHeader)
    requires Tree(s, root) && Attaches(s, root, k, sh)
    ensures Tree(s[k := sh], root) && Extends(s, s[k := sh])
  {
    var s' := s[k := sh];
    if k in s {
      assert Linked(s, root, k);
    }
    forall x {:trigger Linked(s', root, x)} | x in s' ensures Linked(s', root, x) {
      if x in s {
        assert Linked(s, root, x);
      }
      if x == k && x !in s {
        assert Linked(s, root, sh.header.prev);
      }
    }
  }

  /** sh may be stored under k: it is there already, or its parent is and the place is free. */
  ghost predicate Attaches(s: Bucket, root: Hash, k: Hash, sh: StoredHeader)
    requires Tree(s, root)
  {
    if k in s then
      s[k].header == sh.header && s[k].height == sh.height
    else
      k != s[root].header.prev && sh.header.prev in s && sh.height == s[sh.header.prev].height + 1
  }

  /** The header n previous-block steps below sh, if the store reaches that far; sh itself need not be stored. */
  function Back(s: Bucket, sh: StoredHeader, n: nat): Option<StoredHeader>
    decreases n
  {
    if n == 0 then Some(sh)
    else if sh.header.prev in s then Back(s, s[sh.header.prev], n - 1)
    else None
  }

  /** Stepping back n times succeeds exactly when the root is at least n below, and reaches the ancestor there. */
  lemma {:induction false} BackIsAncestor(s: Bucket, root: Hash, k: Hash, n: nat)
    requires Tree(s, root) && k in s
    ensures s[root].height <= s[k].height
    ensures Back(s, s[k], n)
         == if n <= s[k].height - s[root].height then Some(s[Ancestor(s, root, k, s[k].height - n)]) else None
    decreases n
  {
    assert Linked(s, root, k);
    if n > 0 && k != root {
      BackIsAncestor(s, root, s[k].header.prev, n - 1);
    }
  }

  /** Storing sh changes no walk back from a header no higher than it. */
  lemma {:induction false} BackInsert(s: Bucket, root: Hash, k: Hash, sh: StoredHeader, x: Hash, n: nat)
    requires Tree(s, root) && Attaches(s, root, k, sh) && Tree(s[k := sh], root)
    requires x in s[k := sh] && s[k := sh][x].height <= sh.height
    ensures Back(s, s[k := sh][x], n) == Back(s[k := sh], s[k := sh][x], n)
    decreases n
  {
    var s' := s[k := sh];
    assert Linked(s', root, x);
    if x in s {
      assert Linked(s, root, x);
    }
    var prev := s'[x].header.prev;
    if n > 0 && x != root {
      assert prev != k;
      BackInsert(s, root, k, sh, prev, n - 1);
    }
  }

  /** Two walks have come down to height h, one from sh, stored under x or about to be, one from the stored y; the
      headers they passed differed. */
  ghost predicate WalksAt(s: Bucket, root: Hash, x: Hash, sh: StoredHeader, y: Hash, h: int,
                          majority: StoredHeader, minority: StoredHeader)
    requires Tree(s, root) && Attaches(s, root, x, sh) && y in s
  {
    TreeInsert(s, root, x, sh);
    var s' := s[x := sh];
    && s[root].height <= h <= sh.height && h <= s[y].height
    && majority == s'[Ancestor(s', root, x, h)]
    && minority == s[Ancestor(s, root, y, h)]
    && forall g | h < g && g <= sh.height && g <= s[y].height :: Ancestor(s', root, x, g) != Ancestor(s, root, y, g)
  }

  /** Walks that stand on different headers can both go one further down. */
  lemma WalksStep(s: Bucket, root: Hash, x: Hash, sh: StoredHeader, y: Hash, h: int,
                  majority: StoredHeader, minority: StoredHeader)
    requires Tree(s, root) && Attaches(s, root, x, sh) && y in s
    requires WalksAt(s, root, x, sh, y, h, majority, minority)
    requires Tree(s[x := sh], root) && Ancestor(s[x := sh], root, x, h) != Ancestor(s, root, y, h)
    ensures majority.header.prev in s && minority.header.prev in s
    ensures WalksAt(s, root, x, sh, y, h - 1, s[majority.header.prev], s[minority.header.prev])
  {
    var s' := s[x := sh];
    AncestorRoot(s', root, x);
    AncestorRoot(s, root, y);
    AncestorBelow(s', root, x, h);
    AncestorBelow(s, root, y, h);
    assert Linked(s', root, majority.header.prev);
    assert s'[x].height == sh.height;
  }

  /** Where two walks first meet is the highest common ancestor. */
  lemma WalksMeet(s: Bucket, root: Hash, x: Hash, sh: StoredHeader, y: Hash, h: int,
                  majority: StoredHeader, minority: StoredHeader)
    requires Tree(s, root) && Attaches(s, root, x, sh) && y in s
    requires WalksAt(s, root, x, sh, y, h, majority, minority)
    requires Tree(s[x := sh], root) && Ancestor(s[x := sh], root, x, h) == Ancestor(s, root, y, h)
    ensures HighestCommonAncestor(s[x := sh], root, x, y, Ancestor(s[x := sh], root, x, h))
  {
    var s' := s[x := sh];
    TreeInsert(s, root, x, sh);
    assert Linked(s, root, y);
    forall g | h <= g <= s[y].height ensures Ancestor(s', root, y, g) == Ancestor(s, root, y, g) {
      AncestorExtends(s, s', root, y, g);
    }
  }

  /** Levelling: stepping the higher of the two back by the difference puts both walks at the lower height. */
  lemma WalksStart(s: Bucket, root: Hash, x: Hash, sh: StoredHeader, y: Hash)
    requires Tree(s, root) && Attaches(s, root, x, sh) && y in s
    ensures var h := if sh.height > s[y].height then s[y].height else sh.height;
      var majority, minority := Back(s, sh, sh.height - h), Back(s, s[y], s[y].height - h);
      majority.Some? && minority.Some? && WalksAt(s, root, x, sh, y, h, majority.value, minority.value)
  {
    var s' := s[x := sh];
    TreeInsert(s, root, x, sh);
    assert Linked(s', root, x) && Linked(s, root, y);
    var h := if sh.height > s[y].height then s[y].height else sh.height;
    BackInsert(s, root, x, sh, x, sh.height - h);
    BackIsAncestor(s', root, x, sh.height - h);
    BackIsAncestor(s, root, y, s[y].height - h);
  }

  /** What is common depends on the shape of the store alone. */
  lemma CommonAncestorReshape(s: Bucket, s': Bucket, root: Hash, x: Hash, y: Hash, c: Hash)
    requires Tree(s, root) && Tree(s', root) && Extends(s, s') && Extends(s', s)
    requires x in s && y in s && HighestCommonAncestor(s, root, x, y, c)
    ensures x in s' && y in s' && HighestCommonAncestor(s', root, x, y, c)
  {
    assert root in s' && x in s' && y in s';
    assert IsAncestor(s, root, c, x) && IsAncestor(s, root, c, y);
    AncestorReshape(s, s', root, c, x);
    AncestorReshape(s, s', root, c, y);
    forall a | IsAncestor(s', root, a, x) && IsAncestor(s', root, a, y) ensures s'[a].height <= s'[c].height {
      AncestorReshape(s', s, root, a, x);
      AncestorReshape(s', s, root, a, y);
    }
  }

  lemma AncestorReshape(s: Bucket, s': Bucket, root: Hash, a: Hash, k: Hash)
    requires Tree(s, root) && Tree(s', root) && Extends(s, s')
    requires k in s && IsAncestor(s, root, a, k)
    ensures k in s' && a in s' && IsAncestor(s', root, a, k)
  {
    assert k in s' && a in s';
    assert Linked(s, root, a);
    AncestorExtends(s, s', root, k, s[a].height);
  }
}
