/** Repairing a node less than half full: what borrowing an entry from a sibling
    and merging with it come to (src/btree.cpp:250-366). */
module BTreeMerge {
  import opened Wrappers
  import opened BTreeShape
  import opened BTreeContents
  import opened BTreeSplit

  /** Two siblings and the separator between them, as they must be. */
  ghost predicate Evened(l: Tree, sep: nat, r: Tree, h: nat, lo: nat, hi: nat) {
    && lo < sep < hi && Good(l, h, lo, sep) && Half(l) && Fits(l) && Good(r, h, sep, hi) && Half(r) && Fits(r)
  }

  /** The entries of two leaves, shared out again. */
  lemma {:induction false} LeavesEvened(l: Tree, sep: nat, r: Tree, lo: nat, hi: nat, cut: nat)
    requires l.Leaf? && r.Leaf? && lo < sep < hi && Good(l, 0, lo, sep) && Good(r, 0, sep, hi)
    requires LEAF_MIN <= cut && cut + LEAF_MIN <= |l.entries| + |r.entries| <= 2 * LEAF_MIN + LEAF_MAX
    requires cut <= LEAF_MAX && |l.entries| + |r.entries| - cut <= LEAF_MAX
    ensures var s := l.entries + r.entries; Evened(Leaf(l.id, s[..cut]), s[cut].key, Leaf(r.id, s[cut..]), 0, lo, hi)
  {
    var s := l.entries + r.entries;
    SortedConcat(l.entries, r.entries, lo, sep, hi);
    SortedCut(s, cut, lo, hi);
    hide SortedIn;
  }

  lemma {:induction false} LeavesRewritten(p: map<PageId, Node>, q: map<PageId, Node>, l: Tree, r: Tree, left: seq<Entry>,
                        right: seq<Entry>, succ: PageId)
    requires l.Leaf? && r.Leaf? && RepKids(p, [l, r], succ) && left + right == l.entries + r.entries
    requires q == p[l.id := LeafNode(left, r.id)][r.id := LeafNode(right, succ)]
    ensures var m := [Leaf(l.id, left), Leaf(r.id, right)];
            Rewritten(p, q, FootOf([l, r]), First(l), m, succ) && Flat(m) == Flat([l, r])
  {
    var l', r' := Leaf(l.id, left), Leaf(r.id, right);
    Pair(p, l, r, succ);
    Pair(q, l', r', succ);
  }

  lemma {:induction false} LeavesMerged(p: map<PageId, Node>, q: map<PageId, Node>, l: Tree, r: Tree, succ: PageId)
    requires l.Leaf? && r.Leaf? && RepKids(p, [l, r], succ)
    requires q == p[l.id := LeafNode(l.entries + r.entries, succ)] - {r.id}
    ensures var m := [Leaf(l.id, l.entries + r.entries)];
            Rewritten(p, q, FootOf([l, r]), First(l), m, succ) && Flat(m) == Flat([l, r])
  {
    var l' := Leaf(l.id, l.entries + r.entries);
    Pair(p, l, r, succ);
    RepOne(q, l', succ);
    FootOne(l');
    FlatOne(l');
  }

  /** The children of two branches, shared out again. */
  lemma {:induction false} BranchesEvened(l: Tree, sep: Key, r: Tree, h: nat, lo: nat, hi: nat, c: nat)
    requires l.Branch? && r.Branch? && Good(l, h, lo, sep) && Good(r, h, sep, hi)
    requires INTERNAL_MIN <= c <= INTERNAL_MAX && INTERNAL_MIN <= |l.keys| + |r.keys| - c <= INTERNAL_MAX
    ensures var (j, k) := (l.keys + [sep] + r.keys, l.kids + r.kids);
            |k| == |j| + 1 && Evened(Branch(l.id, j[..c], k[..c + 1]), j[c], Branch(r.id, j[c + 1..], k[c + 1..]), h, lo, hi)
  {
    var j, k := l.keys + [sep] + r.keys, l.kids + r.kids;
    GoodJoin(l, sep, r, h, lo, hi);
    GoodCut(l.id, j, k, h, lo, hi, 0, c);
    GoodCut(r.id, j, k, h, lo, hi, c + 1, |j|);
    hide Good, GoodKids;
    assert j[..c] == j[0..c] && k[..c + 1] == k[0..c + 1];
    assert j[c + 1..] == j[c + 1..|j|] && k[c + 1..] == k[c + 1..|j| + 1];
  }

  lemma {:induction false} BranchesRewritten(p: map<PageId, Node>, q: map<PageId, Node>, l: Tree, r: Tree, sep: Key, c: nat, succ: PageId)
    requires l.Branch? && r.Branch? && RepKids(p, [l, r], succ)
    requires |l.kids| == |l.keys| + 1 && |r.kids| == |r.keys| + 1 && c < |l.keys| + |r.keys| + 1
    requires var (j, k) := (l.keys + [sep] + r.keys, l.kids + r.kids);
             q == p[l.id := InternalNode(j[..c], Ids(k)[..c + 1])][r.id := InternalNode(j[c + 1..], Ids(k)[c + 1..])]
    ensures var (j, k) := (l.keys + [sep] + r.keys, l.kids + r.kids);
            var m := [Branch(l.id, j[..c], k[..c + 1]), Branch(r.id, j[c + 1..], k[c + 1..])];
            Rewritten(p, q, FootOf([l, r]), First(l), m, succ) && Flat(m) == Flat([l, r])
  {
    var j, k := l.keys + [sep] + r.keys, l.kids + r.kids;
    Pair(p, l, r, succ);
    hide RepKids, FootOf, Flat;
    RepConcat(p, l.kids, r.kids, succ);
    FootConcat(l.kids, r.kids);
    FlatConcat(l.kids, r.kids);
    FootKidsInPages(p, k, succ);
    RepKidsFrame(p, q, k, succ);
    TwoParents(q, j, k, c, l.id, r.id, succ);
  }

  lemma {:induction false} BranchesMerged(p: map<PageId, Node>, q: map<PageId, Node>, l: Tree, r: Tree, sep: Key, succ: PageId)
    requires l.Branch? && r.Branch? && RepKids(p, [l, r], succ)
    requires q == p[l.id := InternalNode(l.keys + [sep] + r.keys, Ids(l.kids + r.kids))] - {r.id}
    ensures var m := [Branch(l.id, l.keys + [sep] + r.keys, l.kids + r.kids)];
            Rewritten(p, q, FootOf([l, r]), First(l), m, succ) && Flat(m) == Flat([l, r])
  {
    var l' := Branch(l.id, l.keys + [sep] + r.keys, l.kids + r.kids);
    Pair(p, l, r, succ);
    RepOne(q, l', succ);
    FootOne(l');
    FlatOne(l');
    hide RepKids, FootOf, Flat;
    RepConcat(p, l.kids, r.kids, succ);
    FootConcat(l.kids, r.kids);
    FlatConcat(l.kids, r.kids);
    FootKidsInPages(p, l'.kids, succ);
    RepKidsFrame(p, q, l'.kids, succ);
  }

  lemma IdsConcat(a: seq<Tree>, b: seq<Tree>) ensures Ids(a + b) == Ids(a) + Ids(b) {}

  /** What moving the last of `l` to the front of `r` is, and the first of `r` to the
      back of `l`. */
  lemma LastMoves<T>(l: seq<T>, r: seq<T>)
    requires l != []
    ensures var n := |l| - 1; (l + r)[..n] == l[..n] && (l + r)[n..] == [l[n]] + r && (l + r)[n] == l[n]
  {
  }

  lemma FirstMoves<T>(l: seq<T>, r: seq<T>)
    requires r != []
    ensures var n := |l| + 1; (l + r)[..n] == l + [r[0]] && (l + r)[n..] == r[1..] && (|r| > 1 ==> (l + r)[n] == r[1])
  {
  }

  /** ... and the same through a separator. */
  lemma LastRotates(l: seq<Key>, sep: Key, r: seq<Key>)
    requires l != []
    ensures var (j, n) := (l + [sep] + r, |l| - 1); j[..n] == l[..n] && j[n] == l[n] && j[n + 1..] == [sep] + r
  {
  }

  lemma FirstRotates(l: seq<Key>, sep: Key, r: seq<Key>)
    requires r != []
    ensures var (j, n) := (l + [sep] + r, |l| + 1); j[..n] == l + [sep] && j[n] == r[0] && j[n + 1..] == r[1..]
  {
  }

  function Count(node: Node): nat { if node.LeafNode? then |node.entries| else |node.keys| }
  function MinCount(node: Node): nat { if node.LeafNode? then LEAF_MIN else INTERNAL_MIN }

  lemma {:induction false} ExceptChild(keys: seq<Key>, kids: seq<Tree>, h: nat, lo: nat, hi: nat, ci: nat, i: nat)
    requires h > 0 && GoodExcept(keys, kids, h, lo, hi, ci) && KeysIn(keys, lo, hi) && i < |kids|
    ensures Good(kids[i], h - 1, Bound(keys, lo, hi, i), Bound(keys, lo, hi, i + 1)) && Fits(kids[i])
    ensures i == ci || Half(kids[i])
    ensures Bound(keys, lo, hi, i) < Bound(keys, lo, hi, i + 1)
  {
    if 0 < i < |keys| { assert keys[i - 1] < keys[i]; }
  }

  lemma PairPut(kids: seq<Tree>, i: nat, l: Tree, r: Tree)
    requires i + 1 < |kids|
    ensures kids[..i] + [l, r] + kids[i + 2..] == kids[i := l][i + 1 := r]
    ensures l.id == kids[i].id && r.id == kids[i + 1].id ==> Ids(kids[i := l][i + 1 := r]) == Ids(kids)
  {
  }

  lemma MergedIds(kids: seq<Tree>, i: nat, t: Tree)
    requires i + 1 < |kids| && t.id == kids[i].id
    ensures Ids(kids[..i] + [t] + kids[i + 2..]) == Ids(kids)[..i + 1] + Ids(kids)[i + 2..]
  {
  }

  /** Rewriting the pair around separator `i` rewrites the children. */
  lemma PairRewritten(p: map<PageId, Node>, q: map<PageId, Node>, kids: seq<Tree>, i: nat, m: seq<Tree>, succ: PageId)
    requires i + 1 < |kids| && RepKids(p, kids, succ)
    requires Rewritten(p, q, FootOf([kids[i], kids[i + 1]]), First(kids[i]), m, FirstOf(kids[i + 2..], succ))
    requires Flat(m) == Flat([kids[i], kids[i + 1]])
    ensures var kids' := kids[..i] + m + kids[i + 2..];
            Rewritten(p, q, FootOf(kids), First(kids[0]), kids', succ) && Flat(kids') == Flat(kids)
  {
    hide RepKids, FootOf, Flat, Rewritten, First;
    var a, k, b := kids[..i], [kids[i], kids[i + 1]], kids[i + 2..];
    assert kids == a + k + b;
    RewriteIn(p, q, a, k, m, b, succ);
    FlatMiddle(a, m, b);
    FlatMiddle(a, k, b);
  }

  /** The children and separators after borrowing between children `i` and `i + 1`. */
  lemma {:induction false} PairEvened(p: map<PageId, Node>, q: map<PageId, Node>, keys: seq<Key>, kids: seq<Tree>, h: nat, lo: nat, hi: nat,
                   ci: nat, i: nat, l: Tree, up: Key, r: Tree, succ: PageId)
    requires h > 0 && KeysIn(keys, lo, hi) && GoodExcept(keys, kids, h, lo, hi, ci) && i <= ci <= i + 1 < |kids|
    requires RepKids(p, kids, succ) && l.id == kids[i].id && r.id == kids[i + 1].id
    requires Rewritten(p, q, FootOf([kids[i], kids[i + 1]]), First(kids[i]), [l, r], FirstOf(kids[i + 2..], succ))
    requires Flat([l, r]) == Flat([kids[i], kids[i + 1]])
    requires Evened(l, up, r, h - 1, Bound(keys, lo, hi, i), Bound(keys, lo, hi, i + 2))
    ensures var (keys', kids') := (keys[i := up], kids[i := l][i + 1 := r]);
            Fixed(p, q, kids, keys', kids', h, lo, hi, succ) && Ids(kids') == Ids(kids)
  {
    PairPut(kids, i, l, r);
    PairRewritten(p, q, kids, i, [l, r], succ);
    hide RepKids, Rewritten, FootOf, Flat, Good;
    GoodReplacePair(keys, kids, h, lo, hi, ci, i, l, up, r);
  }

  /** ... and after merging them. */
  lemma {:induction false} PairMerged(p: map<PageId, Node>, q: map<PageId, Node>, keys: seq<Key>, kids: seq<Tree>, h: nat, lo: nat, hi: nat,
                   ci: nat, i: nat, m: Tree, succ: PageId)
    requires h > 0 && KeysIn(keys, lo, hi) && GoodExcept(keys, kids, h, lo, hi, ci) && i <= ci <= i + 1 < |kids|
    requires RepKids(p, kids, succ) && m.id == kids[i].id && |kids| == |keys| + 1
    requires Rewritten(p, q, FootOf([kids[i], kids[i + 1]]), First(kids[i]), [m], FirstOf(kids[i + 2..], succ))
    requires Flat([m]) == Flat([kids[i], kids[i + 1]])
    requires Good(m, h - 1, Bound(keys, lo, hi, i), Bound(keys, lo, hi, i + 2)) && Half(m) && Fits(m)
    ensures var (keys', kids') := (keys[..i] + keys[i + 1..], kids[..i] + [m] + kids[i + 2..]);
            Fixed(p, q, kids, keys', kids', h, lo, hi, succ) &&
            Ids(kids') == Ids(kids)[..i + 1] + Ids(kids)[i + 2..]
  {
    MergedIds(kids, i, m);
    PairRewritten(p, q, kids, i, [m], succ);
    hide RepKids, Rewritten, FootOf, Flat, Good;
    GoodMergeChild(keys, kids, h, lo, hi, ci, i, m);
  }

  /** The children of a branch rewritten, with nothing lost, so that every one is at
      least half full. */
  ghost predicate Fixed(p: map<PageId, Node>, q: map<PageId, Node>, kids: seq<Tree>, keys': seq<Key>, kids': seq<Tree>,
                        h: nat, lo: nat, hi: nat, succ: PageId)
    requires kids != [] && h > 0
  {
    && Rewritten(p, q, FootOf(kids), First(kids[0]), kids', succ) && Flat(kids') == Flat(kids)
    && KeysIn(keys', lo, hi) && GoodKids(keys', kids', h, lo, hi)
  }

  lemma PairRep(p: map<PageId, Node>, kids: seq<Tree>, i: nat, succ: PageId)
    requires i + 1 < |kids| && RepKids(p, kids, succ)
    ensures RepKids(p, [kids[i], kids[i + 1]], FirstOf(kids[i + 2..], succ)) && kids[i].id in p && kids[i + 1].id in p
    ensures forall j | i <= j <= i + 1 :: Count(p[kids[j].id]) == Size(kids[j]) && MinCount(p[kids[j].id]) == MinSize(kids[j])
  {
    var a, k, b := kids[..i], [kids[i], kids[i + 1]], kids[i + 2..];
    assert kids == a + k + b;
    RepThree(p, a, k, b, succ);
    Pair(p, kids[i], kids[i + 1], FirstOf(b, succ));
  }

  lemma {:induction false} SameTree(p: map<PageId, Node>, t: Tree, succ: PageId)
    requires Rep(p, t, succ)
    ensures Rebuilt(p, p, t, [t], succ)
    ensures t.Branch? ==> FootOf(t.kids) <= p.Keys && t.id !in FootOf(t.kids)
  {
    FootOne(t);
    RepOne(p, t, succ);
    FootInPages(p, t, succ);
  }

  lemma {:induction false} RewrittenParts(p: map<PageId, Node>, q: map<PageId, Node>, t: Tree, kids: seq<Tree>, succ: PageId)
    requires t.Branch? && KidsRebuilt(p, q, t, kids, succ)
    ensures RepKids(q, kids, succ) && kids != [] && First(kids[0]) == First(t) && t.id in q
  {
  }

  lemma {:induction false} ExceptNone(keys: seq<Key>, kids: seq<Tree>, h: nat, lo: nat, hi: nat, ci: nat)
    requires h > 0 && GoodExcept(keys, kids, h, lo, hi, ci) && ci < |kids| && Half(kids[ci])
    ensures GoodKids(keys, kids, h, lo, hi)
  {
  }

  lemma {:induction false} GoodCount(keys: seq<Key>, kids: seq<Tree>, h: nat, lo: nat, hi: nat)
    requires h > 0 && GoodKids(keys, kids, h, lo, hi)
    ensures |kids| == |keys| + 1
  {
  }

  lemma {:induction false} Kind(t: Tree, h: nat, lo: nat, hi: nat)
    requires Good(t, h, lo, hi)
    ensures t.Leaf? <==> h == 0
  {
  }

  /** The children after one of them has lost an entry. */
  lemma Lessened(t: Tree, h: nat, lo: nat, hi: nat, ci: nat, c: Tree)
    requires t.Branch? && Good(t, h, lo, hi) && ci < |t.kids|
    requires Good(c, h - 1, Bound(t.keys, lo, hi, ci), Bound(t.keys, lo, hi, ci + 1))
    requires Size(t.kids[ci]) - 1 <= Size(c) <= Size(t.kids[ci])
    ensures GoodExcept(t.keys, t.kids[ci := c], h, lo, hi, ci) && Fits(c) && Size(c) >= MinSize(c) - 1
  {
    var kids := t.kids[ci := c];
    Kind(c, h - 1, Bound(t.keys, lo, hi, ci), Bound(t.keys, lo, hi, ci + 1));
    Kind(t.kids[ci], h - 1, Bound(t.keys, lo, hi, ci), Bound(t.keys, lo, hi, ci + 1));
    forall i | 0 <= i < |kids|
      ensures Good(kids[i], h - 1, Bound(t.keys, lo, hi, i), Bound(t.keys, lo, hi, i + 1)) && Fits(kids[i]) && (i == ci || Half(kids[i]))
    {
      if i != ci { assert kids[i] == t.kids[i]; }
    }
  }

  /** A root left with a single child gives way to it. */
  lemma Collapsed(p: map<PageId, Node>, q: map<PageId, Node>, foot: set<PageId>, first: PageId, t: Tree, h: nat)
    requires Rewritten(p, q, foot, first, [t], NULL_PAGE) && Good(t, h, 0, KEY_END) && t.Branch? && t.keys == []
    requires foot <= p.Keys
    ensures t.id in q && q[t.id] == InternalNode([], [t.kids[0].id])
    ensures Rewritten(p, q - {t.id}, foot, first, [t.kids[0]], NULL_PAGE) && Entries(t.kids[0]) == Entries(t)
    ensures h > 0 && Good(t.kids[0], h - 1, 0, KEY_END) && Half(t.kids[0]) && Fits(t.kids[0])
  {
    var c, r := t.kids[0], q - {t.id};
    assert t.kids == [c];
    RepOne(q, t, NULL_PAGE);
    RepOne(q, c, NULL_PAGE);
    FootOne(t);
    FootOne(c);
    FlatOne(c);
    FootInPages(q, c, NULL_PAGE);
    RepFrame(q, r, c, NULL_PAGE);
    RepOne(r, c, NULL_PAGE);
    assert Bound([], 0, KEY_END, 1) == KEY_END;
  }

  lemma {:induction false} Absorbed(t: Tree, m: seq<Tree>, h: nat)
    requires Placed(m, None, h, 0, KEY_END, Size(t)) && Good(t, h, 0, KEY_END) && (t.Branch? ==> |t.keys| >= 1)
    ensures m == [m[0]] && Good(m[0], h, 0, KEY_END) && Fits(m[0]) && (m[0].Branch? ==> |m[0].keys| >= 1)
    ensures Flat(m) == Entries(m[0])
  {
    FlatOne(m[0]);
    Kind(t, h, 0, KEY_END);
    Kind(m[0], h, 0, KEY_END);
  }

  lemma {:induction false} SameFit(t: Tree, t': Tree, h: nat)
    requires Good(t, h, 0, KEY_END) && Good(t', h, 0, KEY_END) && Fits(t) && Size(t') <= Size(t)
    ensures Fits(t') && t.Leaf? == t'.Leaf?
  {
    Kind(t, h, 0, KEY_END);
    Kind(t', h, 0, KEY_END);
  }

  lemma LeafAscends(es: seq<Entry>, lo: nat, hi: nat)
    requires SortedIn(es, lo, hi)
    ensures Ascending(es)
  {
  }

  lemma {:induction false} FindInLeaf(es: seq<Entry>, i: nat, k: Key)
    requires Ascending(es) && CutsAt(es, k, i)
    ensures Find(es, k) == if i < |es| && es[i].key == k then Some(es[i].value) else None
  {
    assert forall j | i < j < |es| :: es[i].key < es[j].key;
    FindAt(es, i, k);
  }
}
