/** How deep below the tip the entries of a block locator lie. */
module Locator {
  import opened Arithmetic
  import opened Headers
  import opened HeaderTree

  function Pow2(n: nat): (r: nat)
    ensures r >= 1
  {
    if n == 0 then 1 else 2 * Pow2(n - 1)
  }

  /** Entry i + 1 lies below entry i by a step that doubles after every ninth entry. */
  function Depth(i: nat): nat {
    if i == 0 then 0 else Depth(i - 1) + Pow2((i - 1) / 9)
  }

  /** The depth of entry 9k + j, in closed form. */
  lemma {:induction false} DepthClosedForm(k: nat, j: nat)
    requires j <= 9
    ensures Depth(9 * k + j) == 9 * (Pow2(k) - 1) + j * Pow2(k)
    decreases k, j
  {
    if j > 0 {
      DepthClosedForm(k, j - 1);
      assert (9 * k + j - 1) / 9 == k;
      Successor(j - 1, Pow2(k));
    } else if k > 0 {
      DepthClosedForm(k - 1, 9);
      assert 9 * (k - 1) + 9 == 9 * k + 0;
    }
  }

  lemma {:induction false} DepthMonotone(i: nat, j: nat)
    requires i <= j
    ensures Depth(i) + (j - i) <= Depth(j)
  {
    if i < j {
      DepthMonotone(i, j - 1);
    }
  }

  /** 32-bit heights are exhausted before entry 261, far from the cap of 500. */
  lemma DepthExceedsHeights()
    ensures Depth(261) >= TWO_32
  {
    DepthClosedForm(29, 0);
    assert Pow2(10) == 0x400 && Pow2(20) == 0x10_0000 && Pow2(29) == 0x2000_0000;
  }

  /** The first entry at or below a fork of depth d is at most (d - 1) / 9 deeper than the fork. */
  lemma Overshoot(i: nat, d: nat)
    requires d >= 1 && Depth(i) >= d && (i == 0 || Depth(i - 1) < d)
    ensures i > 0 && Depth(i) - d <= (d - 1) / 9
  {
    var k, j := (i - 1) / 9, (i - 1) % 9;
    DepthClosedForm(k, j);
    assert i - 1 == 9 * k + j;
    ProductNonNegative(j, Pow2(k));
    assert Depth(i) == Depth(i - 1) + Pow2(k);
  }

  /** k is where entry i of a locator for the given tip belongs: the ancestor of the tip at depth Depth(i). */
  ghost predicate EntryAt(s: Bucket, root: Hash, tip: Hash, i: nat, k: Hash)
    requires Tree(s, root) && tip in s
  {
    s[root].height <= s[tip].height - Depth(i) && k == Ancestor(s, root, tip, s[tip].height - Depth(i))
  }

  ghost predicate Entries(s: Bucket, root: Hash, tip: Hash, r: seq<Hash>)
    requires Tree(s, root) && tip in s
  {
    forall i {:trigger r[i]} | 0 <= i < |r| :: EntryAt(s, root, tip, i, r[i])
  }

  lemma FirstEntry(s: Bucket, root: Hash, tip: Hash)
    requires Tree(s, root) && tip in s
    ensures EntryAt(s, root, tip, 0, tip) && Entries(s, root, tip, [])
  {
    assert Linked(s, root, tip);
  }

  lemma EntriesSnoc(s: Bucket, root: Hash, tip: Hash, r: seq<Hash>, k: Hash)
    requires Tree(s, root) && tip in s && Entries(s, root, tip, r) && EntryAt(s, root, tip, |r|, k)
    ensures Entries(s, root, tip, r + [k])
  {
  }

  /** Stored heights leave no room for entry 261. */
  lemma EntriesShort(s: Bucket, root: Hash, tip: Hash, i: nat, k: Hash)
    requires Tree(s, root) && tip in s && EntryAt(s, root, tip, i, k)
    ensures i < 261
  {
    DepthExceedsHeights();
    if i >= 261 {
      DepthMonotone(261, i);
    }
  }

  /** The header 2^n steps back from entry i = 9n + start is the next entry, if the store reaches that far. */
  lemma NextEntry(s: Bucket, root: Hash, tip: Hash, i: nat, k: Hash, n: nat, start: nat)
    requires Tree(s, root) && tip in s && EntryAt(s, root, tip, i, k)
    requires i == 9 * n + start && start < 9
    ensures k in s
    ensures if Depth(i + 1) <= s[tip].height - s[root].height
      then exists next | next in s :: Back(s, s[k], Pow2(n)) == Some(s[next]) && EntryAt(s, root, tip, i + 1, next)
      else Back(s, s[k], Pow2(n)) == None
  {
    assert i / 9 == n;
    assert Depth(i + 1) == Depth(i) + Pow2(n);
    var h := s[tip].height;
    BackIsAncestor(s, root, k, Pow2(n));
    if Depth(i + 1) <= h - s[root].height {
      AncestorCompose(s, root, tip, h - Depth(i), h - Depth(i + 1));
      assert EntryAt(s, root, tip, i + 1, Ancestor(s, root, tip, h - Depth(i + 1)));
    }
  }
}
