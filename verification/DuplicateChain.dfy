/** The leaves of an index's tree, and the chain that links them (src/btree.cpp:84-118,
    134-167): a leaf that splits is linked after itself; where its parents put it is
    another matter. */
module DuplicateChain {
  import opened Sequences
  import opened BTreeShape
  import opened DuplicateKeys

  function LeafIds(t: Tree): seq<PageId> {
    match t
    case Leaf(id, _) => [id]
    case Branch(_, _, kids) => LeafIdsOf(kids)
  }

  function LeafIdsOf(kids: seq<Tree>): seq<PageId> {
    if kids == [] then [] else LeafIds(kids[0]) + LeafIdsOf(kids[1..])
  }

  function PlacedIds(p: Placement): seq<PageId> {
    match p case One(t) => LeafIds(t) case Two(l, _, r) => LeafIds(l) + LeafIds(r)
  }

  lemma {:induction false} LeafIdsConcat(a: seq<Tree>, b: seq<Tree>)
    ensures LeafIdsOf(a + b) == LeafIdsOf(a) + LeafIdsOf(b)
  {
    if a == [] {
      assert a + b == b;
    } else {
      LeafIdsConcat(a[1..], b);
      assert (a + b)[1..] == a[1..] + b;
      assert LeafIdsOf(a + b) == LeafIds(a[0]) + LeafIdsOf(a[1..] + b);
      Assoc(LeafIds(a[0]), LeafIdsOf(a[1..]), LeafIdsOf(b));
    }
  }

  lemma {:induction false} LeafIdsOne(t: Tree) ensures LeafIdsOf([t]) == LeafIds(t) { assert [t][1..] == []; }

  lemma {:induction false} LeafIdsParts(kids: seq<Tree>, ci: nat)
    requires ci < |kids|
    ensures LeafIdsOf(kids) == LeafIdsOf(kids[..ci]) + LeafIds(kids[ci]) + LeafIdsOf(kids[ci + 1..])
  {
    hide LeafIds, LeafIdsOf;
    var one, rest := [kids[ci]], kids[ci + 1..];
    PartsOf(kids, ci);
    LeafIdsConcat(kids[..ci], one + rest);
    LeafIdsConcat(one, rest);
    LeafIdsOne(kids[ci]);
    Assoc(LeafIdsOf(kids[..ci]), LeafIds(kids[ci]), LeafIdsOf(rest));
  }

  /** The leaf an insertion reaches. */
  function Landing(t: Tree, e: Entry): Tree {
    match t
    case Leaf(_, _) => t
    case Branch(_, keys, kids) => if |kids| != |keys| + 1 then t else Landing(kids[UpperBound(keys, e.key)], e)
  }

  predicate LeafSplits(t: Tree, e: Entry) { var l := Landing(t, e); l.Leaf? && |l.entries| >= LEAF_MAX }

  /** `y` linked in after `x`. */
  function Spliced(ids: seq<PageId>, x: PageId, y: PageId): seq<PageId> {
    if ids == [] then [] else if ids[0] == x then [x, y] + ids[1..] else [ids[0]] + Spliced(ids[1..], x, y)
  }

  function ChainAfter(ids: seq<PageId>, t: Tree, e: Entry, y: PageId): seq<PageId> {
    if LeafSplits(t, e) then Spliced(ids, Landing(t, e).id, y) else ids
  }

  predicate Distinct(ids: seq<PageId>) { forall i, j | 0 <= i < j < |ids| :: ids[i] != ids[j] }

  lemma {:induction false} SplicedIn(a: seq<PageId>, b: seq<PageId>, c: seq<PageId>, x: PageId, y: PageId)
    requires x in b && x !in a
    ensures Spliced(a + b + c, x, y) == a + Spliced(b, x, y) + c
  {
    if a != [] {
      SplicedIn(a[1..], b, c, x, y);
      assert (a + b + c)[1..] == a[1..] + b + c;
    } else if b[0] == x {
      assert (a + b + c)[1..] == b[1..] + c;
    } else {
      SplicedIn([], b[1..], c, x, y);
      assert (a + b + c)[1..] == [] + b[1..] + c;
      assert a + b + c == [b[0]] + ([] + b[1..] + c);
      assert [] + Spliced(b[1..], x, y) == Spliced(b[1..], x, y);
    }
  }

  lemma {:induction false} SplicedSize(ids: seq<PageId>, x: PageId, y: PageId)
    requires x in ids
    ensures |Spliced(ids, x, y)| == |ids| + 1 && forall id :: id in Spliced(ids, x, y) <==> id in ids || id == y
  {
    if ids[0] != x {
      SplicedSize(ids[1..], x, y);
    } else {
      assert ids == [x] + ids[1..];
    }
  }

  // ---- the shape every insertion keeps, its keys in order or not ----

  /** All leaves at one depth, no node too full. */
  ghost predicate Shape(t: Tree, h: nat)
    decreases h, 0
  {
    match t
    case Leaf(_, es) => h == 0 && |es| <= LEAF_MAX
    case Branch(_, keys, kids) => h > 0 && |keys| <= INTERNAL_MAX && |kids| == |keys| + 1 && Shapes(kids, h - 1)
  }

  ghost predicate Shapes(kids: seq<Tree>, h: nat)
    decreases h, 1
  {
    forall i | 0 <= i < |kids| :: Shape(kids[i], h)
  }

  ghost predicate PlacedShape(p: Placement, h: nat) {
    match p case One(t) => Shape(t, h) case Two(l, _, r) => Shape(l, h) && Shape(r, h)
  }

  lemma {:induction false} SoundShape(t: Tree, h: nat, lo: nat, hi: nat)
    requires Sound(t, h, lo, hi)
    ensures Shape(t, h)
    decreases h
  {
    if t.Branch? {
      forall i | 0 <= i < |t.kids| ensures Shape(t.kids[i], h - 1) {
        KidSound(t, h, lo, hi, i);
        SoundShape(t.kids[i], h - 1, Bound(t.keys, lo, hi, i), Bound(t.keys, lo, hi, i + 1));
      }
    }
  }

  lemma {:induction false} InsertShape(t: Tree, h: nat, e: Entry, ids: seq<PageId>)
    requires Shape(t, h)
    ensures PlacedShape(Inserted(t, e, ids), h)
    decreases h
  {
    hide Inserted, UpperBound, Joined, SplitBranch, StrictlyRouted, Lower, Top;
    if t.Leaf? {
      LeafShape(t, h, e, ids);
    } else {
      var ci := UpperBound(t.keys, e.key);
      InsertedStep(t, e, ids);
      InsertShape(t.kids[ci], h - 1, e, Lower(ids));
      var p := Inserted(t.kids[ci], e, Lower(ids));
      hide Shape;
      NewShapes(t.kids, h - 1, ci, p);
      if p.Two? && |t.keys| == INTERNAL_MAX { SplitShape(t, h, ci, p.left, p.sep, p.right, Top(ids)); }
      else { JoinedShape(t, h, ci, p); }
    }
  }

  lemma {:induction false} LeafShape(t: Tree, h: nat, e: Entry, ids: seq<PageId>)
    requires Shape(t, h) && t.Leaf?
    ensures PlacedShape(Inserted(t, e, ids), h)
  {
    hide UpperBound;
  }

  lemma {:induction false} JoinedShape(t: Tree, h: nat, ci: nat, p: Placement)
    requires t.Branch? && h > 0 && ci < |t.kids| == |t.keys| + 1 && |t.keys| <= INTERNAL_MAX && (p.Two? ==> |t.keys| < INTERNAL_MAX)
    requires Shapes(NewKids(t.kids, ci, p), h - 1)
    ensures PlacedShape(One(Joined(t, ci, p)), h)
  {
    hide Shapes;
    BranchShape(t.id, NewKeys(t.keys, ci, p), NewKids(t.kids, ci, p), h);
  }

  lemma {:induction false} BranchShape(id: PageId, keys: seq<Key>, kids: seq<Tree>, h: nat)
    requires h > 0 && |keys| <= INTERNAL_MAX && |kids| == |keys| + 1 && Shapes(kids, h - 1)
    ensures Shape(Branch(id, keys, kids), h)
  {
  }

  lemma {:induction false} NewShapes(kids: seq<Tree>, h: nat, ci: nat, p: Placement)
    requires ci < |kids| && Shapes(kids, h) && PlacedShape(p, h)
    ensures Shapes(NewKids(kids, ci, p), h)
  {
    hide Shape;
  }

  lemma {:induction false} SplitShape(t: Tree, h: nat, ci: nat, l: Tree, sep: Key, r: Tree, new_: PageId)
    requires t.Branch? && h > 0 && ci < |t.kids| == |t.keys| + 1 && |t.keys| == INTERNAL_MAX
    requires Shapes(t.kids, h - 1) && Shape(l, h - 1) && Shape(r, h - 1)
    ensures PlacedShape(SplitBranch(t, ci, l, sep, r, new_), h)
  {
    hide Shape, RoutedAt;
    var p := SplitBranch(t, ci, l, sep, r, new_);
    assert Shapes(InsertAt(t.kids[ci := l], RoutedAt(t.keys, sep) + 1, r), h - 1);
    assert Shapes(p.left.kids, h - 1) && Shapes(p.right.kids, h - 1);
    BranchShape(p.left.id, p.left.keys, p.left.kids, h);
    BranchShape(p.right.id, p.right.keys, p.right.kids, h);
  }

  lemma {:induction false} SomeLeaves(t: Tree, h: nat)
    requires Shape(t, h)
    ensures LeafIds(t) != []
    decreases h
  {
    if t.Branch? { SomeLeaves(t.kids[0], h - 1); }
  }

  lemma {:induction false} LandsOnLeaf(t: Tree, h: nat, e: Entry)
    requires Shape(t, h)
    ensures Landing(t, e).Leaf? && Landing(t, e).id in LeafIds(t)
    decreases h
  {
    if t.Branch? {
      var ci := UpperBound(t.keys, e.key);
      LandsOnLeaf(t.kids[ci], h - 1, e);
      LeafIdsParts(t.kids, ci);
    }
  }

  lemma SplitSep(t: Tree, lo: nat, hi: nat, ci: nat, l: Tree, sep: Key, r: Tree, new_: PageId)
    requires t.Branch? && ci < |t.kids| == |t.keys| + 1 && |t.keys| == INTERNAL_MAX && KeysOrdered(t.keys, lo, hi) && lo <= sep <= hi
    ensures var p := SplitBranch(t, ci, l, sep, r, new_); p.Two? && lo <= p.sep <= hi
  {
    hide RoutedAt;
    assert forall i | 0 <= i <= |t.keys| :: lo <= InsertAt(t.keys, RoutedAt(t.keys, sep), sep)[i] <= hi;
  }

  lemma LeafSep(id: PageId, es: seq<Entry>, e: Entry, new_: PageId, lo: nat, hi: nat)
    requires |es| <= LEAF_MAX && Ordered(es, lo, hi)
    ensures var p := LeafInserted(id, es, e, new_); p.Two? ==> lo <= p.sep <= hi
  {
    if |es| >= LEAF_MAX {
      hide InsertAfter;
      var right := es[|es| / 2..];
      assert right[0] == es[|es| / 2];
      if e.key >= right[0].key { FirstStays(right, e); }
    }
  }

  /** A separator that comes up lies within the node's bounds, whichever way it was put. */
  lemma {:induction false} SepWithin(t: Tree, h: nat, lo: nat, hi: nat, e: Entry, ids: seq<PageId>)
    requires Sound(t, h, lo, hi) && lo <= e.key <= hi
    ensures var p := Inserted(t, e, ids); p.Two? ==> lo <= p.sep <= hi
    decreases h
  {
    if t.Branch? {
      var ci := UpperBound(t.keys, e.key);
      KidSound(t, h, lo, hi, ci);
      hide LeafInserted, SplitBranch, Sound, SoundKids;
      DescendsInto(t.keys, lo, hi, e);
      BoundsOrdered(t.keys, lo, hi);
      SepWithin(t.kids[ci], h - 1, Bound(t.keys, lo, hi, ci), Bound(t.keys, lo, hi, ci + 1), e, Lower(ids));
      var p := Inserted(t.kids[ci], e, Lower(ids));
      hide KeysOrdered;
      if p.Two? && |t.keys| == INTERNAL_MAX { SplitSep(t, lo, hi, ci, p.left, p.sep, p.right, Top(ids)); }
    } else {
      LeafSep(t.id, t.entries, e, Top(ids), lo, hi);
    }
  }

  // ---- the leaves after an insertion ----

  lemma NewIds(kids: seq<Tree>, ci: nat, p: Placement)
    requires ci < |kids|
    ensures LeafIdsOf(NewKids(kids, ci, p)) == LeafIdsOf(kids[..ci]) + PlacedIds(p) + LeafIdsOf(kids[ci + 1..])
  {
    match p
    case One(c) =>
      LeafIdsParts(kids[ci := c], ci);
      assert kids[ci := c][..ci] == kids[..ci] && kids[ci := c][ci + 1..] == kids[ci + 1..];
    case Two(l, sep, r) =>
      LeafIdsConcat(kids[..ci] + [l, r], kids[ci + 1..]);
      LeafIdsConcat(kids[..ci], [l, r]);
      LeafIdsConcat([l], [r]);
      LeafIdsOne(l);
      LeafIdsOne(r);
      assert [l, r] == [l] + [r];
  }

  /** A full node's two halves have, one after the other, its children, the new one where
      its key was looked up. */
  lemma SplitIds(t: Tree, ci: nat, l: Tree, sep: Key, r: Tree, new_: PageId)
    requires t.Branch? && ci < |t.kids| == |t.keys| + 1 && |t.keys| == INTERNAL_MAX
    ensures PlacedIds(SplitBranch(t, ci, l, sep, r, new_)) == LeafIdsOf(InsertAt(t.kids[ci := l], RoutedAt(t.keys, sep) + 1, r))
  {
    hide LeafIdsOf, RoutedAt;
    var kids' := InsertAt(t.kids[ci := l], RoutedAt(t.keys, sep) + 1, r);
    var c := if sep < t.keys[|t.keys| / 2] then |t.keys| / 2 + 1 else |t.keys| / 2;
    assert kids' == kids'[..c + 1] + kids'[c + 1..];
    LeafIdsConcat(kids'[..c + 1], kids'[c + 1..]);
  }

  /** Put past the children it belongs before, the new child's leaves come after theirs. */
  lemma {:induction false} MisplacedIds(kids: seq<Tree>, ci: nat, l: Tree, r: Tree, pos: nat)
    requires ci < pos < |kids|
    ensures LeafIdsOf(InsertAt(kids[ci := l], pos + 1, r)) ==
            LeafIdsOf(kids[..ci]) + LeafIds(l) + LeafIdsOf(kids[ci + 1..pos + 1]) + LeafIds(r) + LeafIdsOf(kids[pos + 1..])
    ensures LeafIdsOf(kids[ci + 1..]) == LeafIdsOf(kids[ci + 1..pos + 1]) + LeafIdsOf(kids[pos + 1..])
  {
    hide LeafIdsOf, LeafIds;
    var a, m, b := kids[..ci], kids[ci + 1..pos + 1], kids[pos + 1..];
    assert InsertAt(kids[ci := l], pos + 1, r) == a + [l] + m + [r] + b;
    LeafIdsConcat(a + [l] + m + [r], b);
    LeafIdsConcat(a + [l] + m, [r]);
    LeafIdsConcat(a + [l], m);
    LeafIdsConcat(a, [l]);
    LeafIdsOne(l);
    LeafIdsOne(r);
    assert kids[ci + 1..] == m + b;
    LeafIdsConcat(m, b);
  }

  /** So many leaves as before, and one more if one split. */
  lemma {:induction false} CountIds(t: Tree, h: nat, e: Entry, ids: seq<PageId>)
    requires Shape(t, h)
    ensures var p := Inserted(t, e, ids);
            |PlacedIds(p)| == |LeafIds(t)| + (if LeafSplits(t, e) then 1 else 0) && (p.Two? ==> LeafSplits(t, e))
    decreases h
  {
    if t.Branch? {
      var ci := UpperBound(t.keys, e.key);
      CountIds(t.kids[ci], h - 1, e, Lower(ids));
      hide Shape;
      CountBranch(t, ci, Inserted(t.kids[ci], e, Lower(ids)), Top(ids));
    }
  }

  lemma {:induction false} CountBranch(t: Tree, ci: nat, p: Placement, new_: PageId)
    requires t.Branch? && ci < |t.kids| == |t.keys| + 1 && |t.keys| <= INTERNAL_MAX
    ensures LeafIds(t) == LeafIdsOf(t.kids) && |LeafIdsOf(NewKids(t.kids, ci, p))| == |LeafIds(t)| - |LeafIds(t.kids[ci])| + |PlacedIds(p)|
    ensures p.Two? && |t.keys| == INTERNAL_MAX ==>
              |PlacedIds(SplitBranch(t, ci, p.left, p.sep, p.right, new_))| == |LeafIds(t)| - |LeafIds(t.kids[ci])| + |PlacedIds(p)|
  {
    hide LeafIdsOf, RoutedAt, SplitBranch;
    LeafIdsParts(t.kids, ci);
    NewIds(t.kids, ci, p);
    if p.Two? && |t.keys| == INTERNAL_MAX {
      SplitIds(t, ci, p.left, p.sep, p.right, new_);
      CountInserted(t.kids[ci := p.left], RoutedAt(t.keys, p.sep) + 1, p.right);
      LeafIdsParts(t.kids[ci := p.left], ci);
      assert t.kids[ci := p.left][..ci] == t.kids[..ci] && t.kids[ci := p.left][ci + 1..] == t.kids[ci + 1..];
    }
  }

  lemma {:induction false} CountInserted(kids: seq<Tree>, i: nat, r: Tree)
    requires i <= |kids|
    ensures |LeafIdsOf(InsertAt(kids, i, r))| == |LeafIdsOf(kids)| + |LeafIds(r)|
  {
    hide LeafIdsOf;
    LeafIdsConcat(kids[..i] + [r], kids[i..]);
    LeafIdsConcat(kids[..i], [r]);
    LeafIdsConcat(kids[..i], kids[i..]);
    LeafIdsOne(r);
    assert kids == kids[..i] + kids[i..];
  }

  // ---- the chain ----

  lemma Cancel<T>(a: seq<T>, b: seq<T>, c: seq<T>, d: seq<T>)
    ensures a + b + c == a + d + c <==> b == d
  {
    if a + b + c == a + d + c {
      assert |b| == |d|;
      assert b == (a + b + c)[|a|..|a| + |b|] == (a + d + c)[|a|..|a| + |d|] == d;
    }
  }

  /** A misplaced part shows. */
  lemma OutOfPlace(a: seq<PageId>, l: seq<PageId>, m: seq<PageId>, r: seq<PageId>, s: seq<PageId>, c: seq<PageId>)
    requires m != [] && r != [] && |s| == |l| + |r| && m[0] !in s
    ensures a + l + m + r + c != a + s + (m + c)
  {
    var k := |a| + |l|;
    assert (a + l + m + r + c)[k] == m[0];
    assert (a + s + (m + c))[k] == s[|l|];
  }

  lemma Apart(a: seq<PageId>, b: seq<PageId>, c: seq<PageId>)
    requires Distinct(a + b + c)
    ensures Distinct(b) && (forall x | x in b :: x !in a && x !in c) && forall x | x in c :: x !in a
  {
    var d := a + b + c;
    forall i, j | 0 <= i < j < |b| ensures b[i] != b[j] { assert d[|a| + i] != d[|a| + j]; }
    forall i, j | 0 <= i < |a| && 0 <= j < |b| ensures a[i] != b[j] { assert d[i] != d[|a| + j]; }
    forall i, j | 0 <= i < |b| && 0 <= j < |c| ensures b[i] != c[j] { assert d[|a| + i] != d[|a| + |b| + j]; }
    forall i, j | 0 <= i < |a| && 0 <= j < |c| ensures a[i] != c[j] { assert d[i] != d[|a| + |b| + j]; }
  }

  /** Below a node the chain changes among the leaves of the child descended into. */
  lemma {:induction false} ChainBelow(t: Tree, h: nat, e: Entry, y: PageId)
    requires Shape(t, h) && t.Branch? && Distinct(LeafIds(t))
    ensures var ci := UpperBound(t.keys, e.key);
            && LeafIds(t) == LeafIdsOf(t.kids[..ci]) + LeafIds(t.kids[ci]) + LeafIdsOf(t.kids[ci + 1..])
            && ChainAfter(LeafIds(t), t, e, y) == LeafIdsOf(t.kids[..ci]) + ChainAfter(LeafIds(t.kids[ci]), t.kids[ci], e, y) + LeafIdsOf(t.kids[ci + 1..])
  {
    var ci := UpperBound(t.keys, e.key);
    var kid, a, c := t.kids[ci], LeafIdsOf(t.kids[..ci]), LeafIdsOf(t.kids[ci + 1..]);
    LeafIdsParts(t.kids, ci);
    Apart(a, LeafIds(kid), c);
    LandsOnLeaf(kid, h - 1, e);
    SplicedIn(a, LeafIds(kid), c, Landing(kid, e).id, y);
  }

  /** The new leaf is the only one the chain gains. */
  lemma {:induction false} ChainSize(t: Tree, h: nat, e: Entry, ids: seq<PageId>, y: PageId)
    requires Shape(t, h)
    ensures |ChainAfter(LeafIds(t), t, e, y)| == |PlacedIds(Inserted(t, e, ids))|
    ensures forall x | x in ChainAfter(LeafIds(t), t, e, y) :: x in LeafIds(t) || x == y
  {
    LandsOnLeaf(t, h, e);
    CountIds(t, h, e, ids);
    SplicedSize(LeafIds(t), Landing(t, e).id, y);
  }

  /** The chain after an insertion is the tree's leaves in their order, as it was before,
      if and only if every separator that enters a full node is strictly below the next
      one there. */
  lemma {:induction false} ChainIsLeaves(t: Tree, h: nat, lo: nat, hi: nat, e: Entry, ids: seq<PageId>, y: PageId)
    requires Sound(t, h, lo, hi) && lo <= e.key <= hi && |ids| == h + 1 && y == ids[0] && y !in LeafIds(t) && Distinct(LeafIds(t))
    ensures PlacedIds(Inserted(t, e, ids)) == ChainAfter(LeafIds(t), t, e, y) <==> StrictlyRouted(t, e, ids)
    decreases h
  {
    hide *;
    if t.Branch? {
      var ci := UpperBound(t.keys, e.key);
      BranchParts(t, h, lo, hi, e);
      SoundShape(t, h, lo, hi);
      ChainBelow(t, h, e, y);
      var kid, l, r := t.kids[ci], Bound(t.keys, lo, hi, ci), Bound(t.keys, lo, hi, ci + 1);
      var a, c := LeafIdsOf(t.kids[..ci]), LeafIdsOf(t.kids[ci + 1..]);
      Apart(a, LeafIds(kid), c);
      FewerIds(ids);
      ChainIsLeaves(kid, h - 1, l, r, e, Lower(ids), y);
      SepWithin(kid, h - 1, l, r, e, Lower(ids));
      SoundShape(kid, h - 1, l, r);
      ChainSize(kid, h - 1, e, Lower(ids), y);
      SomeRight(kid, h - 1, e, Lower(ids));
      NodeChain(t, h, lo, hi, ci, e, ids, Inserted(kid, e, Lower(ids)), ChainAfter(LeafIds(kid), kid, e, y), y);
    } else {
      LeafChains(t, h, lo, hi, e, ids, y);
    }
  }

  lemma BranchParts(t: Tree, h: nat, lo: nat, hi: nat, e: Entry)
    requires Sound(t, h, lo, hi) && t.Branch? && lo <= e.key <= hi
    ensures var ci := UpperBound(t.keys, e.key);
            && h > 0 && ci < |t.kids| == |t.keys| + 1 && |t.keys| <= INTERNAL_MAX
            && Sound(t.kids[ci], h - 1, Bound(t.keys, lo, hi, ci), Bound(t.keys, lo, hi, ci + 1))
            && Bound(t.keys, lo, hi, ci) <= e.key <= Bound(t.keys, lo, hi, ci + 1)
  {
    hide UpperBound;
    DescendsInto(t.keys, lo, hi, e);
  }

  lemma {:induction false} LeafChains(t: Tree, h: nat, lo: nat, hi: nat, e: Entry, ids: seq<PageId>, y: PageId)
    requires t.Leaf? && Sound(t, h, lo, hi) && |ids| == h + 1 && y == ids[0]
    ensures PlacedIds(Inserted(t, e, ids)) == ChainAfter(LeafIds(t), t, e, y) && StrictlyRouted(t, e, ids)
  {
    assert Spliced([t.id], t.id, y) == [t.id, y] + [];
  }

  lemma FewerIds(ids: seq<PageId>)
    requires |ids| > 1
    ensures |Lower(ids)| == |ids| - 1 && Lower(ids)[0] == ids[0]
  {
  }

  lemma {:induction false} SomeRight(t: Tree, h: nat, e: Entry, ids: seq<PageId>)
    requires Shape(t, h)
    ensures var p := Inserted(t, e, ids); p.Two? ==> LeafIds(p.right) != []
  {
    InsertShape(t, h, e, ids);
    var p := Inserted(t, e, ids);
    if p.Two? { SomeLeaves(p.right, h); }
  }

  /** A node, given what its child has become and what the chain has. */
  lemma {:induction false} NodeChain(t: Tree, h: nat, lo: nat, hi: nat, ci: nat, e: Entry, ids: seq<PageId>, p: Placement, s: seq<PageId>, y: PageId)
    requires Sound(t, h, lo, hi) && t.Branch? && ci == UpperBound(t.keys, e.key) < |t.kids| == |t.keys| + 1 && |t.keys| <= INTERNAL_MAX
    requires p == Inserted(t.kids[ci], e, Lower(ids)) && (PlacedIds(p) == s <==> StrictlyRouted(t.kids[ci], e, Lower(ids)))
    requires p.Two? ==> Bound(t.keys, lo, hi, ci) <= p.sep <= Bound(t.keys, lo, hi, ci + 1) && LeafIds(p.right) != []
    requires |s| == |PlacedIds(p)| && forall x | x in s :: x in LeafIds(t.kids[ci]) || x == y
    requires Distinct(LeafIds(t)) && y !in LeafIds(t)
    ensures PlacedIds(Inserted(t, e, ids)) == LeafIdsOf(t.kids[..ci]) + s + LeafIdsOf(t.kids[ci + 1..]) <==> StrictlyRouted(t, e, ids)
  {
    NewIds(t.kids, ci, p);
    Cancel(LeafIdsOf(t.kids[..ci]), PlacedIds(p), LeafIdsOf(t.kids[ci + 1..]), s);
    hide Sound, LeafIdsOf, SplitBranch, Distinct;
    if p.Two? && |t.keys| == INTERNAL_MAX {
      FullNode(t, h, lo, hi, ci, p, s, y, Top(ids));
    } else {
      assert Inserted(t, e, ids) == One(Joined(t, ci, p));
      JoinedIds(t, ci, p);
    }
  }

  lemma JoinedIds(t: Tree, ci: nat, p: Placement)
    requires t.Branch? && ci < |t.kids| == |t.keys| + 1
    ensures PlacedIds(One(Joined(t, ci, p))) == LeafIdsOf(NewKids(t.kids, ci, p))
  {
  }

  /** A full node splits: the new child's leaves are where the chain has them if and only if
      the separator is strictly below the next. */
  lemma {:induction false} FullNode(t: Tree, h: nat, lo: nat, hi: nat, ci: nat, p: Placement, s: seq<PageId>, y: PageId, new_: PageId)
    requires Sound(t, h, lo, hi) && t.Branch? && |t.keys| == INTERNAL_MAX && ci < |t.kids| == |t.keys| + 1 && p.Two?
    requires Bound(t.keys, lo, hi, ci) <= p.sep <= Bound(t.keys, lo, hi, ci + 1) && LeafIds(p.right) != []
    requires |s| == |PlacedIds(p)| && forall x | x in s :: x in LeafIds(t.kids[ci]) || x == y
    requires Distinct(LeafIds(t)) && y !in LeafIds(t)
    ensures PlacedIds(SplitBranch(t, ci, p.left, p.sep, p.right, new_)) == LeafIdsOf(t.kids[..ci]) + s + LeafIdsOf(t.kids[ci + 1..]) <==>
            PlacedIds(p) == s && (ci < |t.keys| ==> p.sep < t.keys[ci])
  {
    hide *;
    SoundKeys(t, h, lo, hi, ci, p.sep);
    RoutedRight(t.keys, ci, p.sep);
    SplitIds(t, ci, p.left, p.sep, p.right, new_);
    if RoutedAt(t.keys, p.sep) == ci {
      RightPlace(t, ci, p, s);
    } else {
      RoutedPast(t.keys, ci, p.sep);
      MiddleLeaves(t, h, lo, hi, ci, RoutedAt(t.keys, p.sep));
      Misplaced(t, ci, p, s, y, RoutedAt(t.keys, p.sep));
    }
  }

  lemma RightPlace(t: Tree, ci: nat, p: Placement, s: seq<PageId>)
    requires t.Branch? && ci < |t.kids| && p.Two?
    ensures LeafIdsOf(InsertAt(t.kids[ci := p.left], ci + 1, p.right)) == LeafIdsOf(t.kids[..ci]) + s + LeafIdsOf(t.kids[ci + 1..]) <==>
            PlacedIds(p) == s
  {
    NewIds(t.kids, ci, p);
    Cancel(LeafIdsOf(t.kids[..ci]), PlacedIds(p), LeafIdsOf(t.kids[ci + 1..]), s);
    hide LeafIdsOf;
    assert InsertAt(t.kids[ci := p.left], ci + 1, p.right) == NewKids(t.kids, ci, p);
  }

  lemma {:induction false} SoundKeys(t: Tree, h: nat, lo: nat, hi: nat, ci: nat, sep: Key)
    requires Sound(t, h, lo, hi) && t.Branch? && ci < |t.kids|
    requires Bound(t.keys, lo, hi, ci) <= sep <= Bound(t.keys, lo, hi, ci + 1)
    ensures forall i, j | 0 <= i < j < |t.keys| :: t.keys[i] <= t.keys[j]
    ensures ci <= |t.keys| && (ci > 0 ==> t.keys[ci - 1] <= sep) && (ci < |t.keys| ==> sep <= t.keys[ci])
  {
  }

  lemma {:induction false} Misplaced(t: Tree, ci: nat, p: Placement, s: seq<PageId>, y: PageId, pos: nat)
    requires t.Branch? && ci < pos < |t.kids| && p.Two? && LeafIds(p.right) != [] && LeafIdsOf(t.kids[ci + 1..pos + 1]) != []
    requires |s| == |PlacedIds(p)| && forall x | x in s :: x in LeafIds(t.kids[ci]) || x == y
    requires Distinct(LeafIds(t)) && y !in LeafIds(t)
    ensures LeafIdsOf(InsertAt(t.kids[ci := p.left], pos + 1, p.right)) != LeafIdsOf(t.kids[..ci]) + s + LeafIdsOf(t.kids[ci + 1..])
  {
    var a, m, c := LeafIdsOf(t.kids[..ci]), LeafIdsOf(t.kids[ci + 1..pos + 1]), LeafIdsOf(t.kids[ci + 1..]);
    MisplacedIds(t.kids, ci, p.left, p.right, pos);
    LeafIdsParts(t.kids, ci);
    Apart(a, LeafIds(t.kids[ci]), c);
    hide LeafIdsOf;
    assert m[0] in c && m[0] in LeafIds(t);
    OutOfPlace(a, LeafIds(p.left), m, LeafIds(p.right), s, LeafIdsOf(t.kids[pos + 1..]));
  }

  lemma {:induction false} MiddleLeaves(t: Tree, h: nat, lo: nat, hi: nat, ci: nat, pos: nat)
    requires Sound(t, h, lo, hi) && t.Branch? && ci < pos < |t.kids|
    ensures LeafIdsOf(t.kids[ci + 1..pos + 1]) != []
  {
    KidSound(t, h, lo, hi, ci + 1);
    SoundShape(t.kids[ci + 1], h - 1, Bound(t.keys, lo, hi, ci + 1), Bound(t.keys, lo, hi, ci + 2));
    SomeLeaves(t.kids[ci + 1], h - 1);
    assert t.kids[ci + 1..pos + 1][0] == t.kids[ci + 1];
  }

  /** The same for the whole tree. */
  lemma {:induction false} RootChain(t: Tree, h: nat, e: Entry, ids: seq<PageId>)
    requires Sound(t, h, 0, KEY_END) && |ids| == h + 2 && ids[0] !in LeafIds(t) && Distinct(LeafIds(t))
    ensures LeafIds(InsertRoot(t, e, ids)) == ChainAfter(LeafIds(t), t, e, ids[0]) <==> StrictlyRouted(t, e, Lower(ids))
  {
    ChainIsLeaves(t, h, 0, KEY_END, e, Lower(ids), ids[0]);
    RootIds(t, e, ids);
  }

  lemma {:induction false} RootIds(t: Tree, e: Entry, ids: seq<PageId>)
    ensures LeafIds(InsertRoot(t, e, ids)) == PlacedIds(Inserted(t, e, Lower(ids)))
  {
    var p := Inserted(t, e, Lower(ids));
    hide Inserted;
    if p.Two? {
      assert [p.left, p.right] == [p.left] + [p.right];
      LeafIdsConcat([p.left], [p.right]);
      LeafIdsOne(p.left);
      LeafIdsOne(p.right);
    }
  }
}
