/** Searching one B+Tree node, and splitting a full one (src/btree.cpp:67-168). */
module BTreeSplit {
  import opened Wrappers
  import opened BTreeShape

  ghost predicate Ascending(es: seq<Entry>) { forall i, j | 0 <= i < j < |es| :: es[i].key < es[j].key }

  /** `i` entries are below `k`, and the rest are not. */
  ghost predicate CutsAt(es: seq<Entry>, k: Key, i: nat) {
    i <= |es| && (forall j | 0 <= j < i :: es[j].key < k) && (forall j | i <= j < |es| :: es[j].key >= k)
  }

  /** `i` entries are below `k`, and the rest are above it. */
  ghost predicate Gap(es: seq<Entry>, k: Key, i: nat) {
    i <= |es| && (forall j | 0 <= j < i :: es[j].key < k) && (forall j | i <= j < |es| :: es[j].key > k)
  }

  /** First index whose key is >= k. */
  method LowerBound(es: seq<Entry>, k: Key) returns (i: nat)
    requires Ascending(es)
    ensures i <= |es| && CutsAt(es, k, i)
  {
    var lo, hi := 0, |es|;
    while lo < hi
      invariant lo <= hi <= |es|
      invariant forall j | 0 <= j < lo :: es[j].key < k
      invariant forall j | hi <= j < |es| :: es[j].key >= k
    {
      var mid := (lo + hi) / 2;
      if es[mid].key < k { lo := mid + 1; } else { hi := mid; }
    }
    i := lo;
  }

  ghost predicate KeysAscend(keys: seq<Key>) { forall i, j | 0 <= i < j < |keys| :: keys[i] < keys[j] }

  /** `i` separators are at most `k`, and the rest above it. */
  ghost predicate KeysCutAt(keys: seq<Key>, k: Key, i: nat) {
    i <= |keys| && (forall j | 0 <= j < i :: keys[j] <= k) && (forall j | i <= j < |keys| :: keys[j] > k)
  }

  ghost predicate KeysGap(keys: seq<Key>, k: Key, i: nat) {
    i <= |keys| && (forall j | 0 <= j < i :: keys[j] < k) && (forall j | i <= j < |keys| :: keys[j] > k)
  }

  /** Index of the child to descend into: past every separator <= k. */
  method ChildIndexFor(keys: seq<Key>, k: Key) returns (i: nat)
    requires KeysAscend(keys)
    ensures i <= |keys| && KeysCutAt(keys, k, i)
  {
    var lo, hi := 0, |keys|;
    while lo < hi
      invariant lo <= hi <= |keys|
      invariant forall j | 0 <= j < lo :: keys[j] <= k
      invariant forall j | hi <= j < |keys| :: keys[j] > k
    {
      var mid := (lo + hi) / 2;
      if keys[mid] <= k { lo := mid + 1; } else { hi := mid; }
    }
    i := lo;
  }

  /** The subtree `t` rebuilt as the siblings `m`. */
  ghost predicate Rebuilt(p: map<PageId, Node>, q: map<PageId, Node>, t: Tree, m: seq<Tree>, succ: PageId) {
    Rewritten(p, q, Foot(t), First(t), m, succ) && m[0].id == t.id
  }

  /** The children of `t` rebuilt. */
  ghost predicate KidsRebuilt(p: map<PageId, Node>, q: map<PageId, Node>, t: Tree, kids: seq<Tree>, succ: PageId)
    requires t.Branch?
  {
    Rewritten(p, q, FootOf(t.kids), First(t), kids, succ) && t.id in p && t.id !in FootOf(t.kids)
  }

  /** What an insertion may return: the subtree, or two with a separator. */
  ghost predicate Placed(m: seq<Tree>, split: Option<Split>, h: nat, lo: nat, hi: nat, size: nat) {
    match split
    case None => |m| == 1 && Good(m[0], h, lo, hi) && Fits(m[0]) && Size(m[0]) >= size
    case Some(s) =>
      && |m| == 2 && m[1].id == s.right && lo < s.sepKey < hi
      && Good(m[0], h, lo, s.sepKey) && Half(m[0]) && Fits(m[0])
      && Good(m[1], h, s.sepKey, hi) && Half(m[1]) && Fits(m[1])
  }

  /** The children of a full node and one more, in two nodes. The source finds the
      incoming separator's place by searching the half its key belongs to; it is
      the place the descent came through. */
  method SplitInternal(keys: seq<Key>, children: seq<PageId>, ci: nat, s: Split)
      returns (median: Key, leftKeys: seq<Key>, leftChildren: seq<PageId>,
               rightKeys: seq<Key>, rightChildren: seq<PageId>)
    requires |keys| == INTERNAL_MAX && |children| == |keys| + 1 && ci <= |keys|
    requires KeysAscend(keys) && KeysGap(keys, s.sepKey, ci)
    ensures INTERNAL_MIN <= |leftKeys| <= INTERNAL_MIN + 1
    ensures Parted(keys[..ci] + [s.sepKey] + keys[ci..], children[..ci + 1] + [s.right] + children[ci + 1..], |leftKeys|,
                   median, leftKeys, leftChildren, rightKeys, rightChildren)
  {
    var mid := |keys| / 2;
    median := keys[mid];
    leftKeys, leftChildren := keys[..mid], children[..mid + 1];
    rightKeys, rightChildren := keys[mid + 1..], children[mid + 1..];
    KeysHalves(keys, mid);
    hide KeysAscend, KeysGap, KeysCutAt, Parted;
    if s.sepKey < median {
      var pos := ChildIndexFor(leftKeys, s.sepKey);
      RoutedLeft(keys, s.sepKey, ci, mid, leftKeys, pos);
      PartedLeft(keys, children, ci, s, mid);
      leftKeys, leftChildren := leftKeys[..pos] + [s.sepKey] + leftKeys[pos..],
        leftChildren[..pos + 1] + [s.right] + leftChildren[pos + 1..];
    } else {
      var pos := ChildIndexFor(rightKeys, s.sepKey);
      RoutedRight(keys, s.sepKey, ci, mid, rightKeys, pos);
      PartedRight(keys, children, ci, s, mid);
      rightKeys, rightChildren := rightKeys[..pos] + [s.sepKey] + rightKeys[pos..],
        rightChildren[..pos + 1] + [s.right] + rightChildren[pos + 1..];
    }
  }

  /** A node one separator too full, parted around separator `c`. */
  ghost predicate Parted(keys: seq<Key>, children: seq<PageId>, c: nat, median: Key,
                         leftKeys: seq<Key>, leftChildren: seq<PageId>, rightKeys: seq<Key>, rightChildren: seq<PageId>) {
    && c < |keys| && |children| == |keys| + 1
    && median == keys[c] && leftKeys == keys[..c] && rightKeys == keys[c + 1..]
    && leftChildren == children[..c + 1] && rightChildren == children[c + 1..]
  }

  lemma PartedLeft(keys: seq<Key>, children: seq<PageId>, ci: nat, s: Split, mid: nat)
    requires ci <= mid < |keys| && |children| == |keys| + 1
    ensures var (lk, lc) := (keys[..mid], children[..mid + 1]);
            Parted(keys[..ci] + [s.sepKey] + keys[ci..], children[..ci + 1] + [s.right] + children[ci + 1..], mid + 1,
                   keys[mid], lk[..ci] + [s.sepKey] + lk[ci..], lc[..ci + 1] + [s.right] + lc[ci + 1..],
                   keys[mid + 1..], children[mid + 1..])
  {
    CutBefore(keys, ci, s.sepKey, mid);
    InsertBefore(children, ci + 1, s.right, mid + 1);
  }

  lemma PartedRight(keys: seq<Key>, children: seq<PageId>, ci: nat, s: Split, mid: nat)
    requires mid < ci <= |keys| && |children| == |keys| + 1
    ensures var (rk, rc, pos) := (keys[mid + 1..], children[mid + 1..], ci - mid - 1);
            Parted(keys[..ci] + [s.sepKey] + keys[ci..], children[..ci + 1] + [s.right] + children[ci + 1..], mid,
                   keys[mid], keys[..mid], children[..mid + 1],
                   rk[..pos] + [s.sepKey] + rk[pos..], rc[..pos + 1] + [s.right] + rc[pos + 1..])
  {
    CutAfter(keys, ci, s.sepKey, mid);
    InsertAfter(children, ci + 1, s.right, mid + 1);
  }

  lemma KeysHalves(keys: seq<Key>, mid: nat)
    requires KeysAscend(keys) && mid < |keys|
    ensures KeysAscend(keys[..mid]) && KeysAscend(keys[mid + 1..])
  {
  }

  lemma CutBefore<T>(s: seq<T>, i: nat, x: T, mid: nat)
    requires i <= mid < |s|
    ensures var s' := s[..i] + [x] + s[i..];
            s[..mid][..i] + [x] + s[..mid][i..] == s'[..mid + 1] && s[mid] == s'[mid + 1] && s[mid + 1..] == s'[mid + 2..]
  {
    InsertBefore(s, i, x, mid);
  }

  lemma CutAfter<T>(s: seq<T>, i: nat, x: T, mid: nat)
    requires mid < i <= |s|
    ensures var s' := s[..i] + [x] + s[i..];
            s[..mid] == s'[..mid] && s[mid] == s'[mid] &&
            s[mid + 1..][..i - mid - 1] + [x] + s[mid + 1..][i - mid - 1..] == s'[mid + 1..]
  {
    InsertAfter(s, i, x, mid + 1);
  }

  lemma RoutedLeft(keys: seq<Key>, sep: Key, ci: nat, mid: nat, half: seq<Key>, pos: nat)
    requires KeysAscend(keys) && KeysGap(keys, sep, ci) && mid < |keys| && sep < keys[mid]
    requires half == keys[..mid] && KeysCutAt(half, sep, pos)
    ensures pos == ci <= mid
  {
    assert ci > 0 ==> keys[ci - 1] < sep;
    assert pos < mid ==> half[pos] == keys[pos];
    assert pos > 0 ==> half[pos - 1] == keys[pos - 1];
  }

  lemma RoutedRight(keys: seq<Key>, sep: Key, ci: nat, mid: nat, half: seq<Key>, pos: nat)
    requires KeysAscend(keys) && KeysGap(keys, sep, ci) && mid < |keys| && sep >= keys[mid]
    requires half == keys[mid + 1..] && KeysCutAt(half, sep, pos)
    ensures mid < ci && pos == ci - (mid + 1)
  {
    assert pos < |half| ==> half[pos] == keys[mid + 1 + pos];
    assert pos > 0 ==> half[pos - 1] == keys[mid + pos];
  }

  /** The two halves of a full leaf, `e` in the one it belongs to. */
  method SplitEntries(es: seq<Entry>, e: Entry, ghost i: nat, ghost lo: nat, ghost hi: nat)
      returns (left: seq<Entry>, right: seq<Entry>)
    requires SortedIn(es, lo, hi) && lo <= e.key < hi && |es| == LEAF_MAX && i <= |es| && Gap(es, e.key, i)
    ensures left + right == es[..i] + [e] + es[i..]
    ensures LEAF_MIN <= |left| <= LEAF_MIN + 1 && LEAF_MIN <= |right| <= LEAF_MIN + 1
    ensures SortedIn(left, lo, right[0].key) && SortedIn(right, right[0].key, hi) && lo < right[0].key < hi
  {
    hide SortedIn, Ascending, CutsAt, Gap;
    var mid := |es| / 2;
    left, right := es[..mid], es[mid..];
    Halves(es, mid, lo, hi);
    if e.key < right[0].key {
      var at := LowerBound(left, e.key);
      IntoLeftHalf(es, mid, i, at, e, left, lo, hi);
      left := left[..at] + [e] + left[at..];
    } else {
      var at := LowerBound(right, e.key);
      IntoRightHalf(es, mid, i, at, e, right, lo, hi);
      right := right[..at] + [e] + right[at..];
    }
  }

  /** The leaf that would have been one entry too long, cut in two. */
  ghost predicate Cutting(es: seq<Entry>, i: nat, e: Entry, left: seq<Entry>, right: seq<Entry>, lo: nat, hi: nat)
    requires i <= |es|
  {
    && left + right == es[..i] + [e] + es[i..] && right != []
    && SortedIn(left, lo, right[0].key) && SortedIn(right, right[0].key, hi) && lo < right[0].key < hi
  }

  lemma CuttingAt(es: seq<Entry>, i: nat, e: Entry, cut: nat, left: seq<Entry>, right: seq<Entry>, lo: nat, hi: nat)
    requires SortedIn(es, lo, hi) && lo <= e.key < hi && i <= |es| && Gap(es, e.key, i) && 0 < cut <= |es|
    requires left == (es[..i] + [e] + es[i..])[..cut] && right == (es[..i] + [e] + es[i..])[cut..]
    ensures Cutting(es, i, e, left, right, lo, hi)
  {
    hide SortedIn, Gap;
    var s := es[..i] + [e] + es[i..];
    InsertSorted(es, i, e, lo, hi);
    SortedCut(s, cut, lo, hi);
    JoinCut(s, cut, left, right);
  }

  lemma JoinCut(s: seq<Entry>, cut: nat, left: seq<Entry>, right: seq<Entry>)
    requires cut < |s| && left == s[..cut] && right == s[cut..]
    ensures left + right == s && right[0] == s[cut]
  {
  }

  lemma Halves(es: seq<Entry>, mid: nat, lo: nat, hi: nat)
    requires SortedIn(es, lo, hi) && mid <= |es|
    ensures Ascending(es[..mid]) && Ascending(es[mid..])
  {
  }

  /** Splitting first and inserting into the half the key belongs to comes to
      the same. */
  lemma IntoLeftHalf(es: seq<Entry>, mid: nat, i: nat, at: nat, e: Entry, half: seq<Entry>, lo: nat, hi: nat)
    requires SortedIn(es, lo, hi) && lo <= e.key < hi && i <= |es| && Gap(es, e.key, i)
    requires mid < |es| && half == es[..mid] && at <= mid && CutsAt(half, e.key, at) && e.key < es[mid].key
    ensures Cutting(es, i, e, half[..at] + [e] + half[at..], es[mid..], lo, hi)
  {
    assert i <= mid;
    assert at < mid ==> half[at] == es[at];
    assert i < mid ==> half[i] == es[i];
    assert at == i;
    hide Cutting, SortedIn, Gap, CutsAt;
    InsertBefore(es, i, e, mid);
    CuttingAt(es, i, e, mid + 1, half[..at] + [e] + half[at..], es[mid..], lo, hi);
  }

  /** Inserting before a cut, and after it. */
  lemma InsertBefore<T>(s: seq<T>, i: nat, x: T, n: nat)
    requires i <= n <= |s|
    ensures var s' := s[..i] + [x] + s[i..]; s[..n][..i] + [x] + s[..n][i..] == s'[..n + 1] && s[n..] == s'[n + 1..]
  {
  }

  lemma InsertAfter<T>(s: seq<T>, i: nat, x: T, n: nat)
    requires n <= i <= |s|
    ensures var s' := s[..i] + [x] + s[i..]; s[..n] == s'[..n] && s[n..][..i - n] + [x] + s[n..][i - n..] == s'[n..]
  {
  }

  lemma IntoRightHalf(es: seq<Entry>, mid: nat, i: nat, at: nat, e: Entry, half: seq<Entry>, lo: nat, hi: nat)
    requires SortedIn(es, lo, hi) && lo <= e.key < hi && i <= |es| && Gap(es, e.key, i)
    requires 0 < mid < |es| && half == es[mid..] && at <= |half| && CutsAt(half, e.key, at) && e.key >= es[mid].key
    ensures Cutting(es, i, e, es[..mid], half[..at] + [e] + half[at..], lo, hi)
  {
    assert i > mid;
    assert at < |half| ==> half[at] == es[mid + at];
    assert i < |es| ==> half[i - mid] == es[i];
    assert at > 0 ==> half[at - 1] == es[mid + at - 1];
    assert half[i - 1 - mid] == es[i - 1];
    assert at == i - mid;
    InsertAfter(es, i, e, mid);
    CuttingAt(es, i, e, mid, es[..mid], half[..at] + [e] + half[at..], lo, hi);
  }

  lemma SortedCut(s: seq<Entry>, cut: nat, lo: nat, hi: nat)
    requires SortedIn(s, lo, hi) && 0 < cut < |s|
    ensures SortedIn(s[..cut], lo, s[cut].key) && SortedIn(s[cut..], s[cut].key, hi) && lo < s[cut].key < hi
  {
    assert s[0].key < s[cut].key;
  }

  lemma InsertSorted(es: seq<Entry>, i: nat, e: Entry, lo: nat, hi: nat)
    requires SortedIn(es, lo, hi) && lo <= e.key < hi && Gap(es, e.key, i)
    ensures SortedIn(es[..i] + [e] + es[i..], lo, hi)
  {
  }

  lemma TwoLeaves(p: map<PageId, Node>, q: map<PageId, Node>, t: Tree, left: seq<Entry>, rid: PageId,
                  right: seq<Entry>, next: PageId, lo: nat, hi: nat)
    requires t.Leaf? && t.id in p && rid !in p
    requires LEAF_MIN <= |left| <= LEAF_MAX && LEAF_MIN <= |right| <= LEAF_MAX
    requires SortedIn(left, lo, right[0].key) && SortedIn(right, right[0].key, hi) && lo < right[0].key < hi
    requires q == p[rid := LeafNode([], NULL_PAGE)][t.id := LeafNode(left, rid)][rid := LeafNode(right, next)]
    ensures var m := [Leaf(t.id, left), Leaf(rid, right)];
            Rebuilt(p, q, t, m, next) && Flat(m) == left + right &&
            Placed(m, Some(Split(right[0].key, rid)), 0, lo, hi, |t.entries|)
  {
    hide SortedIn;
    Pair(q, Leaf(t.id, left), Leaf(rid, right), next);
  }

  lemma OneLeaf(p: map<PageId, Node>, q: map<PageId, Node>, t: Tree, es: seq<Entry>, next: PageId)
    requires t.Leaf? && t.id in p && q == p[t.id := LeafNode(es, next)]
    ensures Rebuilt(p, q, t, [Leaf(t.id, es)], next) && Flat([Leaf(t.id, es)]) == es
  {
    FootOne(Leaf(t.id, es));
    RepOne(q, Leaf(t.id, es), next);
    FlatOne(Leaf(t.id, es));
  }

  lemma OneLeafGood(t: Tree, es: seq<Entry>, lo: nat, hi: nat)
    requires lo < hi && SortedIn(es, lo, hi) && Size(t) <= |es| <= LEAF_MAX
    ensures Placed([Leaf(t.id, es)], None, 0, lo, hi, Size(t))
  {
  }

  lemma {:induction false} ChildRep(pages: map<PageId, Node>, t: Tree, ci: nat, succ: PageId)
    requires t.Branch? && Rep(pages, t, succ) && ci < |t.kids|
    ensures Rep(pages, t.kids[ci], Next(t.kids, ci, succ)) && Foot(t.kids[ci]) <= FootOf(t.kids)
  {
    var a, c, b := t.kids[..ci], t.kids[ci], t.kids[ci + 1..];
    assert t.kids == a + [c] + b;
    hide RepKids, FootOf;
    RepConcat(pages, a + [c], b, succ);
    RepConcat(pages, a, [c], FirstOf(b, succ));
    RepOne(pages, c, FirstOf(b, succ));
    FootConcat(a + [c], b);
    FootConcat(a, [c]);
    FootOne(c);
  }

  lemma ChildGood(t: Tree, h: nat, lo: nat, hi: nat, ci: nat)
    requires t.Branch? && Good(t, h, lo, hi) && ci <= |t.keys|
    ensures h > 0 && |t.kids| == |t.keys| + 1 && KeysIn(t.keys, lo, hi) && GoodKids(t.keys, t.kids, h, lo, hi)
    ensures var c, l, r := t.kids[ci], Bound(t.keys, lo, hi, ci), Bound(t.keys, lo, hi, ci + 1);
            Good(c, h - 1, l, r) && Half(c) && Fits(c)
  {
  }

  lemma {:induction false} KidsFromChild(p: map<PageId, Node>, q: map<PageId, Node>, t: Tree, ci: nat, m: seq<Tree>, succ: PageId)
    requires t.Branch? && Rep(p, t, succ) && ci < |t.kids|
    requires Rebuilt(p, q, t.kids[ci], m, Next(t.kids, ci, succ))
    ensures KidsRebuilt(p, q, t, t.kids[..ci] + m + t.kids[ci + 1..], succ)
    ensures t.id in p && t.id in q && q[t.id] == p[t.id] && m != [] && m[0].id == t.kids[ci].id
  {
    var a, c, b := t.kids[..ci], t.kids[ci], t.kids[ci + 1..];
    assert t.kids == a + [c] + b;
    hide RepKids, FootOf;
    FootOne(c);
    RewriteIn(p, q, a, [c], m, b, succ);
  }

  lemma {:induction false} OneBranch(p: map<PageId, Node>, q1: map<PageId, Node>, q: map<PageId, Node>, t: Tree, keys: seq<Key>,
                  kids: seq<Tree>, succ: PageId)
    requires t.Branch? && KidsRebuilt(p, q1, t, kids, succ) && q == q1[t.id := InternalNode(keys, Ids(kids))]
    ensures var m := [Branch(t.id, keys, kids)]; Rebuilt(p, q, t, m, succ) && Flat(m) == Flat(kids)
  {
    var b := Branch(t.id, keys, kids);
    hide FootOf, RepKids;
    FootOne(b);
    FlatOne(b);
    assert q.Keys == q1.Keys;
    RepKidsFrame(q1, q, kids, succ);
    RepOne(q, b, succ);
  }

  lemma {:induction false} OneBranchGood(t: Tree, h: nat, lo: nat, hi: nat, keys: seq<Key>, kids: seq<Tree>)
    requires t.Branch? && h > 0 && KeysIn(keys, lo, hi) && GoodKids(keys, kids, h, lo, hi)
    requires Size(t) <= |keys| <= INTERNAL_MAX
    ensures Placed([Branch(t.id, keys, kids)], None, h, lo, hi, Size(t))
  {
  }

  lemma {:induction false} TwoBranches(p: map<PageId, Node>, q1: map<PageId, Node>, q: map<PageId, Node>, t: Tree,
                    h: nat, lo: nat, hi: nat, keys: seq<Key>, kids: seq<Tree>, c: nat, rid: PageId, succ: PageId)
    requires t.Branch? && KidsRebuilt(p, q1, t, kids, succ) && rid !in q1
    requires h > 0 && KeysIn(keys, lo, hi) && GoodKids(keys, kids, h, lo, hi)
    requires |keys| == INTERNAL_MAX + 1 && INTERNAL_MIN <= c <= INTERNAL_MIN + 1
    requires q == q1[rid := LeafNode([], NULL_PAGE)][t.id := InternalNode(keys[..c], Ids(kids)[..c + 1])]
                    [rid := InternalNode(keys[c + 1..], Ids(kids)[c + 1..])]
    ensures var m := [Branch(t.id, keys[..c], kids[..c + 1]), Branch(rid, keys[c + 1..], kids[c + 1..])];
            Rebuilt(p, q, t, m, succ) && Flat(m) == Flat(kids) &&
            Placed(m, Some(Split(keys[c], rid)), h, lo, hi, Size(t))
  {
    var l, r := Branch(t.id, keys[..c], kids[..c + 1]), Branch(rid, keys[c + 1..], kids[c + 1..]);
    hide Rebuilt, KidsRebuilt, Placed, KeysIn, GoodKids, Flat;
    TwoBranchesRep(p, q1, q, t, keys, kids, c, rid, succ);
    TwoBranchesGood(t, l, r, h, lo, hi, keys, kids, c);
  }

  lemma {:induction false} TwoBranchesGood(t: Tree, l: Tree, r: Tree, h: nat, lo: nat, hi: nat, keys: seq<Key>, kids: seq<Tree>, c: nat)
    requires h > 0 && KeysIn(keys, lo, hi) && GoodKids(keys, kids, h, lo, hi)
    requires |keys| == INTERNAL_MAX + 1 && |kids| == |keys| + 1 && INTERNAL_MIN <= c <= INTERNAL_MIN + 1
    requires l == Branch(l.id, keys[..c], kids[..c + 1]) && r == Branch(r.id, keys[c + 1..], kids[c + 1..])
    ensures Placed([l, r], Some(Split(keys[c], r.id)), h, lo, hi, Size(t))
  {
    GoodCut(l.id, keys, kids, h, lo, hi, 0, c);
    GoodCut(r.id, keys, kids, h, lo, hi, c + 1, |keys|);
    hide Good, GoodKids;
    assert keys[..c] == keys[0..c] && kids[..c + 1] == kids[0..c + 1];
    assert keys[c + 1..] == keys[c + 1..|keys|] && kids[c + 1..] == kids[c + 1..|keys| + 1];
  }

  lemma TwoBranchesRep(p: map<PageId, Node>, q1: map<PageId, Node>, q: map<PageId, Node>, t: Tree,
                       keys: seq<Key>, kids: seq<Tree>, c: nat, rid: PageId, succ: PageId)
    requires t.Branch? && KidsRebuilt(p, q1, t, kids, succ) && rid !in q1
    requires c + 1 < |kids| && |kids| == |keys| + 1
    requires q == q1[rid := LeafNode([], NULL_PAGE)][t.id := InternalNode(keys[..c], Ids(kids)[..c + 1])]
                    [rid := InternalNode(keys[c + 1..], Ids(kids)[c + 1..])]
    ensures var m := [Branch(t.id, keys[..c], kids[..c + 1]), Branch(rid, keys[c + 1..], kids[c + 1..])];
            Rebuilt(p, q, t, m, succ) && Flat(m) == Flat(kids)
  {
    hide FootOf, RepKids, Flat;
    FootKidsInPages(q1, kids, succ);
    RepKidsFrame(q1, q, kids, succ);
    TwoParents(q, keys, kids, c, t.id, rid, succ);
  }

  /** The pages of two branches, adjacent children parted between them. */
  lemma {:induction false} TwoParents(q: map<PageId, Node>, keys: seq<Key>, kids: seq<Tree>, c: nat, lid: PageId, rid: PageId, succ: PageId)
    requires c + 1 < |kids| && |kids| == |keys| + 1 && RepKids(q, kids, succ)
    requires lid != rid && lid !in FootOf(kids) && rid !in FootOf(kids) && lid in q && rid in q
    requires q[lid] == InternalNode(keys[..c], Ids(kids)[..c + 1]) && q[rid] == InternalNode(keys[c + 1..], Ids(kids)[c + 1..])
    ensures var (l, r) := (Branch(lid, keys[..c], kids[..c + 1]), Branch(rid, keys[c + 1..], kids[c + 1..]));
            RepKids(q, [l, r], succ) && FootOf([l, r]) == {lid, rid} + FootOf(kids) &&
            Flat([l, r]) == Flat(kids) && First(l) == First(kids[0])
  {
    hide RepKids, FootOf, Flat;
    var l, r := Branch(lid, keys[..c], kids[..c + 1]), Branch(rid, keys[c + 1..], kids[c + 1..]);
    assert kids == l.kids + r.kids;
    RepConcat(q, l.kids, r.kids, succ);
    FootConcat(l.kids, r.kids);
    FlatConcat(l.kids, r.kids);
    Pair(q, l, r, succ);
  }

  lemma {:induction false} Pair(p: map<PageId, Node>, l: Tree, r: Tree, succ: PageId)
    ensures RepKids(p, [l, r], succ) <==> Rep(p, l, First(r)) && Rep(p, r, succ) && Foot(l) !! Foot(r)
    ensures FootOf([l, r]) == Foot(l) + Foot(r) && Flat([l, r]) == Entries(l) + Entries(r)
  {
    hide RepKids, FootOf, Flat;
    assert [l, r] == [l] + [r];
    RepConcat(p, [l], [r], succ);
    FootConcat([l], [r]);
    FlatConcat([l], [r]);
    RepOne(p, l, First(r)); RepOne(p, r, succ);
    FootOne(l); FootOne(r);
    FlatOne(l); FlatOne(r);
  }

  lemma {:induction false} SameChild(p: map<PageId, Node>, q: map<PageId, Node>, t: Tree, h: nat, lo: nat, hi: nat, ci: nat,
                  k: seq<Tree>, succ: PageId)
    requires t.Branch? && Rep(p, t, succ) && Good(t, h, lo, hi) && Fits(t) && ci < |t.kids|
    requires KidsRebuilt(p, q, t, t.kids[..ci] + k + t.kids[ci + 1..], succ) && q[t.id] == p[t.id]
    requires Placed(k, None, h - 1, Bound(t.keys, lo, hi, ci), Bound(t.keys, lo, hi, ci + 1), Size(t.kids[ci]))
    requires k[0].id == t.kids[ci].id
    ensures var m := [Branch(t.id, t.keys, t.kids[..ci] + k + t.kids[ci + 1..])];
            Rebuilt(p, q, t, m, succ) && Placed(m, None, h, lo, hi, Size(t)) &&
            Flat(m) == Flat(t.kids[..ci] + k + t.kids[ci + 1..])
  {
    var kids := t.kids[..ci] + k + t.kids[ci + 1..];
    Sandwich(t.kids, ci, k);
    SameChildGood(t, h, lo, hi, ci, k);
    hide Good, GoodKids, KidsRebuilt, Placed, Rebuilt, RepKids, FootOf, Flat;
    SameIds(t.kids, ci, k[0]);
    assert q == q[t.id := q[t.id]];
    OneBranch(p, q, q, t, t.keys, kids, succ);
  }

  lemma Sandwich<T>(s: seq<T>, i: nat, k: seq<T>)
    requires i < |s| && |k| == 1
    ensures s[..i] + k + s[i + 1..] == s[i := k[0]]
  {
  }

  lemma SameIds(kids: seq<Tree>, ci: nat, c: Tree)
    requires ci < |kids| && c.id == kids[ci].id
    ensures Ids(kids[ci := c]) == Ids(kids)
  {
  }

  lemma {:induction false} SameChildGood(t: Tree, h: nat, lo: nat, hi: nat, ci: nat, k: seq<Tree>)
    requires t.Branch? && Good(t, h, lo, hi) && Fits(t) && ci < |t.kids|
    requires Placed(k, None, h - 1, Bound(t.keys, lo, hi, ci), Bound(t.keys, lo, hi, ci + 1), Size(t.kids[ci]))
    ensures Placed([Branch(t.id, t.keys, t.kids[ci := k[0]])], None, h, lo, hi, Size(t))
  {
    ChildGood(t, h, lo, hi, ci);
    SameKind(k[0], t.kids[ci], h - 1, Bound(t.keys, lo, hi, ci), Bound(t.keys, lo, hi, ci + 1));
    GoodReplace(t.keys, t.kids, h, lo, hi, ci, k[0]);
  }

  lemma {:induction false} SameKind(a: Tree, b: Tree, h: nat, lo: nat, hi: nat)
    requires Good(a, h, lo, hi) && Good(b, h, lo, hi) && Size(a) >= Size(b)
    ensures a.Leaf? == b.Leaf? && (Half(b) ==> Half(a))
  {
  }

  lemma {:induction false} Overfull(t: Tree, h: nat, lo: nat, hi: nat, ci: nat, s: Split, k: seq<Tree>)
    requires t.Branch? && Good(t, h, lo, hi) && ci <= |t.keys| && |t.kids| == |t.keys| + 1
    requires Placed(k, Some(s), h - 1, Bound(t.keys, lo, hi, ci), Bound(t.keys, lo, hi, ci + 1), Size(t.kids[ci]))
    requires k[0].id == t.kids[ci].id
    ensures var keys, kids := t.keys[..ci] + [s.sepKey] + t.keys[ci..], t.kids[..ci] + k + t.kids[ci + 1..];
            KeysIn(keys, lo, hi) && GoodKids(keys, kids, h, lo, hi) &&
            Ids(kids) == Ids(t.kids)[..ci + 1] + [s.right] + Ids(t.kids)[ci + 1..]
    ensures KeysAscend(t.keys) && KeysGap(t.keys, s.sepKey, ci)
  {
    assert k == [k[0], k[1]];
    GoodSplitChild(t.keys, t.kids, h, lo, hi, ci, k[0], s.sepKey, k[1]);
  }

  /** The root split: a new root one level up. */
  lemma {:induction false} GrownRoot(p: map<PageId, Node>, q: map<PageId, Node>, r: map<PageId, Node>, t: Tree, h: nat, m: seq<Tree>,
                  s: Split, n: PageId)
    requires Rebuilt(p, q, t, m, NULL_PAGE) && Placed(m, Some(s), h, 0, KEY_END, Size(t)) && n !in q
    requires r == q[n := InternalNode([s.sepKey], [t.id, s.right])]
    ensures var t' := Branch(n, [s.sepKey], m);
            Rewritten(p, r, Foot(t), First(t), [t'], NULL_PAGE) && Entries(t') == Flat(m) &&
            Good(t', h + 1, 0, KEY_END) && Fits(t')
  {
    var t' := Branch(n, [s.sepKey], m);
    assert m == [m[0], m[1]];
    assert Ids(m) == [t.id, s.right];
    hide RepKids, FootOf;
    FootKidsInPages(q, m, NULL_PAGE);
    RepKidsFrame(q, r, m, NULL_PAGE);
    RepOne(r, t', NULL_PAGE);
    FootOne(t');
    assert r.Keys == q.Keys + {n};
  }

  lemma {:induction false} RootRep(p: map<PageId, Node>, q: map<PageId, Node>, foot: set<PageId>, first: PageId, t: Tree)
    requires Rewritten(p, q, foot, first, [t], NULL_PAGE)
    ensures Rep(q, t, NULL_PAGE) && t.id in q
    ensures Flat([t]) == Entries(t)
  {
    RepOne(q, t, NULL_PAGE);
    FlatOne(t);
  }
}
