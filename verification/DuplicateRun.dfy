/** A run from the empty tree after which an index is not in order: one key inserted until
    its separators fill the root, then a smaller key until the first leaf splits, then a
    larger one (src/btree.cpp:84-118, 134-167). */
module DuplicateRun {
  import opened BTreeShape
  import opened DuplicateKeys
  import opened DuplicateChain
  import opened DuplicateNodes
  import opened DuplicateTree

  const HALF: nat := LEAF_MAX / 2

  predicate Same(es: seq<Entry>, k: Key, n: nat) { |es| == n && forall i | 0 <= i < |es| :: es[i].key == k }

  predicate SameKeys(keys: seq<Key>, k: Key, n: nat) { |keys| == n && forall i | 0 <= i < |keys| :: keys[i] == k }

  lemma {:induction false} AllBefore(keys: seq<Key>, k: Key)
    requires forall i | 0 <= i < |keys| :: keys[i] <= k
    ensures UpperBound(keys, k) == |keys|
  {
    UpperBoundIs(keys, k, |keys|);
  }

  lemma SameMore(es: seq<Entry>, k: Key, n: nat, e: Entry)
    requires Same(es, k, n) && e.key == k
    ensures Same(InsertAfter(es, e), k, n + 1)
  {
    AllBefore(KeysOf(es), k);
  }

  /** A full leaf of one key splits in half, the new entry in the right half. */
  lemma SameSplits(id: PageId, es: seq<Entry>, k: Key, e: Entry, y: PageId)
    requires Same(es, k, LEAF_MAX) && e.key == k
    ensures var p := LeafInserted(id, es, e, y);
            && p.Two? && p.sep == k && p.left.Leaf? && p.right.Leaf? && p.right.id == y && p.left.id == id
            && Same(p.left.entries, k, HALF) && Same(p.right.entries, k, HALF + 1)
  {
    var right := es[HALF..];
    SameMore(right, k, HALF, e);
    FirstStays(right, e);
  }

  // ---- one key over and over ----

  /** A root over `j + 1` leaves of the one key, all but the last half full; the first may
      hold `x` smaller entries too. */
  ghost predicate Level(t: Tree, k: Key, j: nat, last: nat, s: Key, x: nat) {
    && t.Branch? && SameKeys(t.keys, k, j) && |t.kids| == j + 1 && 1 <= j <= INTERNAL_MAX
    && (forall i | 0 <= i <= j :: t.kids[i].Leaf?)
    && (forall i | 1 <= i < j :: Same(t.kids[i].entries, k, HALF))
    && Same(t.kids[j].entries, k, last)
    && Led(t.kids[0].entries, k, s, x)
  }

  predicate Led(es: seq<Entry>, k: Key, s: Key, x: nat) {
    |es| == x + HALF && forall i | 0 <= i < |es| :: es[i].key == if i < x then s else k
  }

  lemma {:induction false} FirstLevel(t: Tree, k: Key, s: Key, e: Entry, ids: seq<PageId>)
    requires t.Leaf? && Same(t.entries, k, LEAF_MAX) && e.key == k && |ids| == 2
    ensures Level(InsertRoot(t, e, ids), k, 1, HALF + 1, s, 0) && StrictlyRouted(t, e, Lower(ids))
  {
    SameSplits(t.id, t.entries, k, e, Top(Lower(ids)));
  }

  lemma {:induction false} OneLeaf(t: Tree, k: Key, n: nat, e: Entry, ids: seq<PageId>)
    requires t.Leaf? && Same(t.entries, k, n) && n < LEAF_MAX && e.key == k
    ensures var t' := InsertRoot(t, e, ids); t'.Leaf? && Same(t'.entries, k, n + 1) && StrictlyRouted(t, e, Lower(ids))
  {
    SameMore(t.entries, k, n, e);
  }

  /** The key goes to the last leaf. */
  lemma {:induction false} LastLeaf(t: Tree, k: Key, j: nat, last: nat, s: Key, e: Entry, ids: seq<PageId>)
    requires Level(t, k, j, last, s, 0) && e.key == k && last < LEAF_MAX
    ensures Level(InsertRoot(t, e, ids), k, j, last + 1, s, 0) && StrictlyRouted(t, e, Lower(ids))
  {
    AllBefore(t.keys, k);
    SameMore(t.kids[j].entries, k, last, e);
    hide InsertAfter, UpperBound;
    var p := Inserted(t.kids[j], e, Lower(Lower(ids)));
    assert p == One(Leaf(t.kids[j].id, InsertAfter(t.kids[j].entries, e)));
  }

  lemma {:induction false} LastSplits(t: Tree, k: Key, j: nat, s: Key, e: Entry, ids: seq<PageId>)
    requires Level(t, k, j, LEAF_MAX, s, 0) && e.key == k && j < INTERNAL_MAX
    ensures Level(InsertRoot(t, e, ids), k, j + 1, HALF + 1, s, 0) && StrictlyRouted(t, e, Lower(ids))
  {
    AllBefore(t.keys, k);
    var last := t.kids[j];
    SameSplits(last.id, last.entries, k, e, Top(Lower(Lower(ids))));
    var p := Inserted(last, e, Lower(Lower(ids)));
    hide UpperBound, LeafInserted;
    var t' := InsertRoot(t, e, ids);
    assert t' == Joined(t, j, p);
    assert t'.kids == t.kids[..j] + [p.left, p.right];
    assert t'.keys == t.keys + [k];
  }

  // ---- then a smaller one ----

  lemma LedMore(es: seq<Entry>, k: Key, s: Key, x: nat, e: Entry)
    requires Led(es, k, s, x) && s < k && e.key == s
    ensures Led(InsertAfter(es, e), k, s, x + 1)
  {
    var keys := KeysOf(es);
    assert forall i | 0 <= i < |es| :: keys[i] == es[i].key;
    UpperBoundIs(keys, s, x);
  }

  lemma NoneBefore(keys: seq<Key>, k: Key, s: Key, n: nat)
    requires SameKeys(keys, k, n) && s < k
    ensures UpperBound(keys, s) == 0
  {
    UpperBoundIs(keys, s, 0);
  }

  lemma {:induction false} FirstLeaf(t: Tree, k: Key, j: nat, last: nat, s: Key, x: nat, e: Entry, ids: seq<PageId>)
    requires Level(t, k, j, last, s, x) && s < k && e.key == s && x < HALF
    ensures Level(InsertRoot(t, e, ids), k, j, last, s, x + 1) && StrictlyRouted(t, e, Lower(ids))
  {
    NoneBefore(t.keys, k, s, j);
    LedMore(t.kids[0].entries, k, s, x, e);
    hide InsertAfter, UpperBound;
    var p := Inserted(t.kids[0], e, Lower(Lower(ids)));
    assert p == One(Leaf(t.kids[0].id, InsertAfter(t.kids[0].entries, e)));
  }

  /** The tree once the first leaf's new half is at the far end: its last leaf holds the key,
      and `more` entries after that; its second is still the one that was. */
  ghost predicate Broken(t: Tree, k: Key, second: Tree, newId: PageId, more: seq<Entry>) {
    && t.Branch? && t.keys == [k] && |t.kids| == 2 && FarRight(t.kids[1], k, newId, more)
    && FarLeft(t.kids[0], second)
  }

  ghost predicate FarLeft(l: Tree, second: Tree) { l.Branch? && |l.kids| > 1 && l.kids[1] == second }

  ghost predicate FarRight(r: Tree, k: Key, newId: PageId, more: seq<Entry>) {
    && r.Branch? && SameKeys(r.keys, k, |r.keys|) && |r.keys| <= INTERNAL_MAX && |r.kids| == |r.keys| + 1
    && var l := r.kids[|r.keys|];
       l.Leaf? && l.id == newId && |l.entries| >= HALF && Same(l.entries[..HALF], k, HALF) && l.entries[HALF..] == more
  }

  lemma FirstSplits(id: PageId, es: seq<Entry>, k: Key, s: Key, e: Entry, y: PageId)
    requires Led(es, k, s, HALF) && s < k && e.key == s
    ensures var p := LeafInserted(id, es, e, y);
            && p.Two? && p.sep == k && p.left.Leaf? && p.left.id == id && p.right.Leaf? && p.right.id == y && Same(p.right.entries, k, HALF)
  {
    assert es[HALF..][0] == es[HALF];
  }

  /** The separator that comes up is the root's every key: it is put past them all. */
  lemma {:induction false} Breaks(t: Tree, k: Key, last: nat, s: Key, e: Entry, ids: seq<PageId>)
    requires Level(t, k, INTERNAL_MAX, last, s, HALF) && s < k && e.key == s && |ids| == 3
    ensures !StrictlyRouted(t, e, Lower(ids)) && LeafSplits(t, e) && Landing(t, e).id == t.kids[0].id
    ensures Broken(InsertRoot(t, e, ids), k, t.kids[1], ids[0], [])
  {
    NoneBefore(t.keys, k, s, INTERNAL_MAX);
    assert |t.kids| == |t.keys| + 1 && t.kids[0].Leaf? && SameKeys(t.keys, k, INTERNAL_MAX) && Led(t.kids[0].entries, k, s, HALF);
    assert t.keys[0] == k;
    var below, y := [ids[0]], ids[1];
    assert Lower(ids) == below + [y];
    hide *;
    FirstKid(t.kids[0], k, s, e, below);
    InsertBranch(t, 1, e, 0, below, y);
    var p := Inserted(t.kids[0], e, below);
    NotStrict(t, e, below, y, p);
    SplitsFar(t, k, p.left, p.right, y);
    BrokenRoot(t, e, ids, k, SplitBranch(t, 0, p.left, p.sep, p.right, y), t.kids[1], ids[0]);
  }

  lemma {:induction false} FirstKid(kid: Tree, k: Key, s: Key, e: Entry, below: seq<PageId>)
    requires kid.Leaf? && Led(kid.entries, k, s, HALF) && s < k && e.key == s && |below| == 1
    ensures var p := Inserted(kid, e, below);
            p.Two? && p.sep == k && p.right.Leaf? && p.right.id == below[0] && Same(p.right.entries, k, HALF)
    ensures Landing(kid, e) == kid && LeafSplits(kid, e)
  {
    FirstSplits(kid.id, kid.entries, k, s, e, below[0]);
  }

  lemma {:induction false} NotStrict(t: Tree, e: Entry, below: seq<PageId>, y: PageId, p: Placement)
    requires t.Branch? && |t.kids| == |t.keys| + 1 && |t.keys| == INTERNAL_MAX && UpperBound(t.keys, e.key) == 0
    requires p == Inserted(t.kids[0], e, below) && p.Two? && p.sep == t.keys[0]
    ensures !StrictlyRouted(t, e, below + [y])
  {
    assert Lower(below + [y]) == below;
    hide UpperBound, Inserted;
  }

  lemma {:induction false} BrokenRoot(t: Tree, e: Entry, ids: seq<PageId>, k: Key, b: Placement, second: Tree, newId: PageId)
    requires b == Inserted(t, e, Lower(ids)) && b.Two? && b.sep == k && FarRight(b.right, k, newId, []) && FarLeft(b.left, second)
    ensures Broken(InsertRoot(t, e, ids), k, second, newId, [])
  {
    hide Inserted, FarRight, FarLeft;
  }

  lemma SplitsFar(t: Tree, k: Key, l: Tree, r: Tree, y: PageId)
    requires t.Branch? && SameKeys(t.keys, k, INTERNAL_MAX) && |t.kids| == |t.keys| + 1 && r.Leaf? && Same(r.entries, k, HALF)
    ensures var b := SplitBranch(t, 0, l, k, r, y); b.Two? && b.sep == k && FarRight(b.right, k, r.id, []) && FarLeft(b.left, t.kids[1])
  {
    FarEnd(t.keys, k);
    hide RoutedAt;
    var mid, b := INTERNAL_MAX / 2, SplitBranch(t, 0, l, k, r, y);
    var keys', kids' := InsertAt(t.keys, INTERNAL_MAX, k), InsertAt(t.kids[0 := l], INTERNAL_MAX + 1, r);
    assert b.sep == keys'[mid] == k && b.right.keys == keys'[mid + 1..] && b.right.kids == kids'[mid + 1..];
    assert forall i | 0 <= i < |keys'| :: keys'[i] == k;
    assert kids'[INTERNAL_MAX + 1] == r;
    assert r.entries[..HALF] == r.entries && r.entries[HALF..] == [];
  }

  lemma FarEnd(keys: seq<Key>, k: Key)
    requires SameKeys(keys, k, INTERNAL_MAX)
    ensures RoutedAt(keys, k) == INTERNAL_MAX
  {
    var mid := INTERNAL_MAX / 2;
    AllBefore(keys[mid + 1..], k);
  }

  // ---- then a larger one ----

  lemma Appends(es: seq<Entry>, e: Entry)
    requires forall i | 0 <= i < |es| :: es[i].key <= e.key
    ensures InsertAfter(es, e) == es + [e]
  {
    AllBefore(KeysOf(es), e.key);
  }

  lemma {:induction false} LargerLeaf(l: Tree, k: Key, e: Entry, ids: seq<PageId>)
    requires l.Leaf? && Same(l.entries[..], k, HALF) && k < e.key
    ensures Inserted(l, e, ids) == One(Leaf(l.id, l.entries + [e])) && !LeafSplits(l, e)
  {
    assert l.entries[..] == l.entries;
    Appends(l.entries, e);
  }

  lemma {:induction false} LargerRight(r: Tree, k: Key, newId: PageId, e: Entry, ids: seq<PageId>)
    requires FarRight(r, k, newId, []) && k < e.key
    ensures var p := Inserted(r, e, ids); p.One? && FarRight(p.t, k, newId, [e]) && !LeafSplits(r, e)
  {
    var n := |r.keys|;
    var l := r.kids[n];
    AllBefore(r.keys, e.key);
    assert l.entries[..HALF] == l.entries[..] == l.entries;
    LargerLeaf(l, k, e, Lower(ids));
    hide UpperBound, InsertAfter;
    assert (l.entries + [e])[..HALF] == l.entries && (l.entries + [e])[HALF..] == [e];
    assert Inserted(r, e, ids) == One(Joined(r, n, One(Leaf(l.id, l.entries + [e]))));
  }

  /** It goes to that leaf, the last of the tree. */
  lemma LargerLast(t: Tree, k: Key, second: Tree, newId: PageId, e: Entry, ids: seq<PageId>)
    requires Broken(t, k, second, newId, []) && k < e.key
    ensures Broken(InsertRoot(t, e, ids), k, second, newId, [e]) && !LeafSplits(t, e)
  {
    AllBefore(t.keys, e.key);
    LargerRight(t.kids[1], k, newId, e, Lower(Lower(ids)));
    var p := Inserted(t.kids[1], e, Lower(Lower(ids)));
    hide UpperBound, FarRight, FarLeft;
    assert Landing(t, e) == Landing(t.kids[1], e);
    assert Inserted(t, e, Lower(ids)) == One(Joined(t, 1, p)) by { hide Joined; }
  }

  lemma SeeksIn(l: Tree, k: Key, e: Entry)
    requires l.Leaf? && |l.entries| >= HALF && Same(l.entries[..HALF], k, HALF) && l.entries[HALF..] == [e] && k < e.key
    ensures FromKey(l.entries, e.key) == [e]
  {
    assert l.entries == l.entries[..HALF] + [e];
    FromKeyIs(l.entries[..HALF], [e], e.key);
  }

  /** A search for it lands there, and reads on along the chain. */
  lemma {:induction false} SeeksLast(t: Tree, k: Key, second: Tree, newId: PageId, e: Entry)
    requires Broken(t, k, second, newId, [e]) && k < e.key
    ensures var l := SeekLeaf(t, e.key); l.Leaf? && l.id == newId && FromKey(l.entries, e.key) == [e]
  {
    var r := t.kids[1];
    LowerBoundIs(t.keys, e.key, 1);
    LowerBoundIs(r.keys, e.key, |r.keys|);
    SeeksIn(r.kids[|r.keys|], k, e);
    hide LowerBound, FromKey;
    assert SeekLeaf(r, e.key) == r.kids[|r.keys|];
    assert SeekLeaf(t, e.key) == SeekLeaf(r, e.key);
  }

  // ---- the chain ----

  lemma {:induction false} AfterSpliced(ids: seq<PageId>, x: PageId, y: PageId)
    requires x in ids && y !in ids
    ensures AfterIn(Spliced(ids, x, y), y) == AfterIn(ids, x)
  {
    if ids[0] == x {
      assert Spliced(ids, x, y)[1..] == [y] + ids[1..];
    } else {
      AfterSpliced(ids[1..], x, y);
      assert Spliced(ids, x, y)[1..] == Spliced(ids[1..], x, y);
    }
  }

  lemma {:induction false} SecondNext(t: Tree, k: Key, j: nat, last: nat, s: Key, x: nat)
    requires Level(t, k, j, last, s, x)
    ensures LeafIds(t) != [] && LeafIds(t)[0] == t.kids[0].id
    ensures AfterIn(LeafIds(t), t.kids[0].id) != [] && AfterIn(LeafIds(t), t.kids[0].id)[0] == t.kids[1].id
  {
    var rest := t.kids[1..];
    assert t.kids[0].Leaf? && t.kids[1].Leaf? && LeafIds(t) == LeafIdsOf(t.kids);
    assert LeafIdsOf(t.kids) == LeafIds(t.kids[0]) + LeafIdsOf(rest);
    assert rest[0] == t.kids[1] && LeafIdsOf(rest) == [t.kids[1].id] + LeafIdsOf(rest[1..]);
  }

  lemma {:induction false} SecondPage(pages: map<PageId, Node>, t: Tree, k: Key, second: Tree, newId: PageId, more: seq<Entry>)
    requires Nodes(pages, t) && Broken(t, k, second, newId, more) && second.Leaf?
    ensures second.id in pages && pages[second.id].LeafNode? && pages[second.id].entries == second.entries
  {
    NodesParts(pages, t.kids, 0);
    NodesParts(pages, t.kids[0].kids, 1);
  }

  lemma {:induction false} FirstOfChain(pages: map<PageId, Node>, ids: seq<PageId>)
    requires ids != [] && ids[0] in pages && pages[ids[0]].LeafNode? && pages[ids[0]].entries != []
    ensures ChainEntries(pages, ids) != [] && ChainEntries(pages, ids)[0] == pages[ids[0]].entries[0]
  {
  }

  // ---- the run ----

  function Copies(k: Key, n: nat): seq<Entry> { seq(n, i => Entry(k, 0)) }

  lemma CopiesNext(was: seq<Entry>, k: Key, n: nat)
    ensures was + Copies(k, n) + [Entry(k, 0)] == was + Copies(k, n + 1)
    ensures was + Copies(k, 0) == was
  {
  }

  lemma CopiesJoin(k: Key, m: nat, n: nat) ensures Copies(k, m) + Copies(k, n) == Copies(k, m + n) {}

  method FillLeaf(t: NonUniqueTree, k: Key, ghost s: Key)
    requires t.Valid() && t.strict && t.tree.Leaf? && t.tree.entries == []
    modifies t
    ensures t.Valid() && t.strict && Level(t.tree, k, 1, HALF + 1, s, 0)
    ensures t.inserted == old(t.inserted) + Copies(k, LEAF_MAX + 1)
  {
    hide NonUniqueTree.Valid, Level, InsertRoot, StrictlyRouted, Lower, Copies;
    var n := 0;
    CopiesNext(t.inserted, k, 0);
    while n < LEAF_MAX
      invariant n <= LEAF_MAX && t.Valid() && t.strict && t.tree.Leaf? && Same(t.tree.entries, k, n)
      invariant t.inserted == old(t.inserted) + Copies(k, n)
    {
      CopiesNext(old(t.inserted), k, n);
      ghost var was := t.tree;
      ghost var ids := t.Insert(k, 0);
      OneLeaf(was, k, n, Entry(k, 0), ids);
      n := n + 1;
    }
    ghost var was := t.tree;
    LeafHeight(t);
    CopiesNext(old(t.inserted), k, LEAF_MAX);
    ghost var ids := t.Insert(k, 0);
    FirstLevel(was, k, s, Entry(k, 0), ids);
  }

  lemma LeafHeight(t: NonUniqueTree)
    requires t.Valid()
    ensures t.tree.Leaf? ==> t.height == 0
    ensures t.tree.Branch? && (forall i | 0 <= i < |t.tree.kids| :: t.tree.kids[i].Leaf?) ==> t.height == 1
  {
    KidsHeight(t.tree, t.height);
  }

  lemma {:induction false} KidsHeight(t: Tree, h: nat)
    requires Shape(t, h)
    ensures t.Branch? ==> h > 0 && |t.kids| > 0 && (t.kids[0].Leaf? ==> h == 1)
  {
    if t.Branch? {
      var kid := t.kids[0];
      assert Shape(kid, h - 1);
    }
  }

  method FillRoot(t: NonUniqueTree, k: Key, ghost s: Key)
    requires t.Valid() && t.strict && Level(t.tree, k, 1, HALF + 1, s, 0)
    modifies t
    ensures t.Valid() && t.strict && Level(t.tree, k, INTERNAL_MAX, HALF + 1, s, 0)
    ensures t.inserted == old(t.inserted) + Copies(k, (INTERNAL_MAX - 1) * (LEAF_MAX - HALF))
  {
    hide NonUniqueTree.Valid, Level, InsertRoot, StrictlyRouted, Lower, Copies;
    var j, last := 1, HALF + 1;
    ghost var n := 0;
    CopiesNext(t.inserted, k, 0);
    while j < INTERNAL_MAX
      invariant 1 <= j <= INTERNAL_MAX && HALF < last <= LEAF_MAX && (j == INTERNAL_MAX ==> last == HALF + 1)
      invariant t.Valid() && t.strict && Level(t.tree, k, j, last, s, 0)
      invariant n == (j - 1) * (LEAF_MAX - HALF) + (last - (HALF + 1)) && t.inserted == old(t.inserted) + Copies(k, n)
      decreases INTERNAL_MAX - j, LEAF_MAX - last
    {
      CopiesNext(old(t.inserted), k, n);
      n := n + 1;
      ghost var was := t.tree;
      ghost var ids := t.Insert(k, 0);
      if last < LEAF_MAX {
        LastLeaf(was, k, j, last, s, Entry(k, 0), ids);
        last := last + 1;
      } else {
        LastSplits(was, k, j, s, Entry(k, 0), ids);
        j, last := j + 1, HALF + 1;
      }
    }
  }

  method FillFirst(t: NonUniqueTree, k: Key, s: Key)
    requires t.Valid() && t.strict && Level(t.tree, k, INTERNAL_MAX, HALF + 1, s, 0) && s < k
    modifies t
    ensures t.Valid() && t.strict && Level(t.tree, k, INTERNAL_MAX, HALF + 1, s, HALF)
    ensures t.inserted == old(t.inserted) + Copies(s, HALF)
  {
    hide NonUniqueTree.Valid, Level, InsertRoot, StrictlyRouted, Lower, Copies;
    CopiesNext(t.inserted, s, 0);
    for x := 0 to HALF
      invariant t.Valid() && t.strict && Level(t.tree, k, INTERNAL_MAX, HALF + 1, s, x)
      invariant t.inserted == old(t.inserted) + Copies(s, x)
    {
      CopiesNext(old(t.inserted), s, x);
      ghost var was := t.tree;
      ghost var ids := t.Insert(s, 0);
      FirstLeaf(was, k, INTERNAL_MAX, HALF + 1, s, x, Entry(s, 0), ids);
    }
  }

  lemma SecondFacts(t: Tree, k: Key, s: Key)
    requires Level(t, k, INTERNAL_MAX, HALF + 1, s, HALF)
    ensures t.Branch? && |t.kids| > 1 && (forall i | 0 <= i < |t.kids| :: t.kids[i].Leaf?) && Same(t.kids[1].entries, k, HALF)
  {
  }

  /** What is left of the first leaf's order: its new half is linked before the second leaf. */
  ghost predicate Linking(chain: seq<PageId>, newId: PageId, second: Tree, k: Key) {
    && second.Leaf? && Same(second.entries, k, HALF)
    && AfterIn(chain, newId) != [] && AfterIn(chain, newId)[0] == second.id
  }

  lemma {:induction false} LinksSecond(t: Tree, k: Key, s: Key, e: Entry, y: PageId)
    requires Level(t, k, INTERNAL_MAX, HALF + 1, s, HALF) && LeafSplits(t, e) && Landing(t, e).id == t.kids[0].id && y !in LeafIds(t)
    ensures |t.kids| > 1 && Linking(ChainAfter(LeafIds(t), t, e, y), y, t.kids[1], k)
  {
    SecondNext(t, k, INTERNAL_MAX, HALF + 1, s, HALF);
    AfterSpliced(LeafIds(t), t.kids[0].id, y);
  }

  lemma StrictChain(t: NonUniqueTree) requires t.Valid() && t.strict ensures t.chain == LeafIds(t.tree) {}

  method Break(t: NonUniqueTree, k: Key, s: Key) returns (ghost second: Tree, ghost newId: PageId)
    requires t.Valid() && t.strict && Level(t.tree, k, INTERNAL_MAX, HALF + 1, s, HALF) && s < k
    modifies t
    ensures t.Valid() && !t.strict && t.chain != LeafIds(t.tree)
    ensures Broken(t.tree, k, second, newId, []) && Linking(t.chain, newId, second, k)
    ensures t.inserted == old(t.inserted) + [Entry(s, 0)]
  {
    hide NonUniqueTree.Valid, Level, InsertRoot, StrictlyRouted, Lower, Broken, Landing, LeafSplits, ChainAfter, LeafIds, Linking;
    ghost var t0 := t.tree;
    SecondFacts(t0, k, s);
    LeafHeight(t);
    StrictChain(t);
    ghost var ids := t.Insert(s, 0);
    Breaks(t0, k, HALF + 1, s, Entry(s, 0), ids);
    LinksSecond(t0, k, s, Entry(s, 0), ids[0]);
    second, newId := t0.kids[1], ids[0];
  }

  lemma {:induction false} ReadsOn(pages: map<PageId, Node>, t: Tree, k: Key, second: Tree, newId: PageId, e: Entry, chain: seq<PageId>)
    requires Nodes(pages, t) && Broken(t, k, second, newId, [e]) && Linking(chain, newId, second, k)
    ensures ChainEntries(pages, AfterIn(chain, newId)) != [] && ChainEntries(pages, AfterIn(chain, newId))[0].key == k
  {
    hide Nodes, Broken;
    SecondPage(pages, t, k, second, newId, [e]);
    FirstOfChain(pages, AfterIn(chain, newId));
  }

  /** The insertions: one key, a smaller one, and the largest. */
  function Run(s: Key, k: Key, largest: Key): seq<Entry> { Copies(k, 43181) + Copies(s, 128) + [Entry(largest, 0)] }

  /** What a scan from `lo` reads. */
  ghost function Scanned(t: NonUniqueTree, lo: Key): seq<Entry>
    reads t
    requires t.Valid()
  {
    var l := SeekLeaf(t.tree, lo);
    if l.Leaf? then FromKey(l.entries, lo) + ChainEntries(t.pages, AfterIn(t.chain, l.id)) else []
  }

  /** Then a search for the largest key finds it, and after it a smaller one. */
  method OutOfOrder(s: Key, k: Key, largest: Key) returns (t: NonUniqueTree, out: seq<Entry>)
    requires s < k < largest
    ensures fresh(t) && t.Valid() && !t.strict && t.inserted == Run(s, k, largest)
    ensures out == Scanned(t, largest)
    ensures |out| >= 2 && out[0].key == largest && out[1].key == k
  {
    RunIs(s, k, largest);
    hide Run, Copies, NonUniqueTree.Valid, Level, InsertRoot, StrictlyRouted, Lower, Broken, Landing, LeafSplits, ChainAfter, LeafIds, SeekLeaf, FromKey, Stable, Linking;
    t := new NonUniqueTree();
    FillLeaf(t, k, s);
    FillRoot(t, k, s);
    FillFirst(t, k, s);
    ghost var second, newId := Break(t, k, s);
    ghost var t1, chain, large := t.tree, t.chain, Entry(largest, 0);
    ghost var ids := t.Insert(largest, 0);
    LargerLast(t1, k, second, newId, large, ids);
    ChainAfterIs(chain, t1, large, ids[0]);
    SeeksLast(t.tree, k, second, newId, large);
    HoldsNodes(t);
    ReadsOn(t.pages, t.tree, k, second, newId, large, t.chain);
    out := t.Scan(largest);
  }

  lemma RunIs(s: Key, k: Key, largest: Key)
    ensures [] + Copies(k, LEAF_MAX + 1) + Copies(k, (INTERNAL_MAX - 1) * (LEAF_MAX - HALF)) + Copies(s, HALF) + [Entry(s, 0)]
            + [Entry(largest, 0)] == Run(s, k, largest)
  {
    hide Copies;
    CopiesJoin(k, LEAF_MAX + 1, (INTERNAL_MAX - 1) * (LEAF_MAX - HALF));
    CopiesNext([], s, HALF);
    assert LEAF_MAX + 1 + (INTERNAL_MAX - 1) * (LEAF_MAX - HALF) == 43181;
    var ks, ss := Copies(k, 43181), Copies(s, HALF);
    assert [] + Copies(k, LEAF_MAX + 1) == Copies(k, LEAF_MAX + 1);
    assert [] + ss == ss && [] + Copies(s, HALF + 1) == Copies(s, HALF + 1);
    assert ks + ss + [Entry(s, 0)] == ks + (ss + [Entry(s, 0)]);
  }

  lemma HoldsNodes(t: NonUniqueTree) requires t.Valid() ensures Nodes(t.pages, t.tree) {}
}
