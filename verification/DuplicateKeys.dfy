/** The tree an index uses, where a key may have any number of entries
    (src/btree.cpp:67-192, 398-415, src/btree.hpp:84-110, 190-216): what an insertion makes
    of it, and when that keeps its order. The pages are in DuplicateTree. */
module DuplicateKeys {
  import opened Sequences
  import opened BTreeShape

  // ---- order ----

  /** Entries in key order, keys from `lo` to `hi`, equal keys next to one another. */
  predicate Ordered(es: seq<Entry>, lo: nat, hi: nat) {
    && (forall i | 0 <= i < |es| :: lo <= es[i].key <= hi)
    && forall i, j | 0 <= i < j < |es| :: es[i].key <= es[j].key
  }

  predicate KeysOrdered(keys: seq<Key>, lo: nat, hi: nat) {
    && lo <= hi
    && (forall i | 0 <= i < |keys| :: lo <= keys[i] <= hi)
    && forall i, j | 0 <= i < j < |keys| :: keys[i] <= keys[j]
  }

  /** Entries equal to a separator may lie on both sides of it. */
  ghost predicate Sound(t: Tree, h: nat, lo: nat, hi: nat)
    decreases h
  {
    match t
    case Leaf(_, es) => h == 0 && lo <= hi && |es| <= LEAF_MAX && Ordered(es, lo, hi)
    case Branch(_, keys, kids) => h > 0 && |keys| <= INTERNAL_MAX && KeysOrdered(keys, lo, hi) && SoundKids(keys, kids, h, lo, hi)
  }

  ghost predicate SoundKids(keys: seq<Key>, kids: seq<Tree>, h: nat, lo: nat, hi: nat)
    requires h > 0
    decreases h, 0
  {
    |kids| == |keys| + 1 && forall i | 0 <= i < |kids| :: Sound(kids[i], h - 1, Bound(keys, lo, hi, i), Bound(keys, lo, hi, i + 1))
  }

  predicate Ascend(keys: seq<Key>) { forall i, j | 0 <= i < j < |keys| :: keys[i] <= keys[j] }

  /** Where halving from `lo` to `hi` ends, looking for the first key above `k`. It compares
      few keys, so what it says of the others it says of keys in order. */
  function FirstAbove(keys: seq<Key>, k: Key, lo: nat, hi: nat): (n: nat)
    requires lo <= hi <= |keys|
    ensures lo <= n <= hi && (lo < n ==> keys[n - 1] <= k) && (n < hi ==> keys[n] > k)
    decreases hi - lo
  {
    var mid := (lo + hi) / 2;
    if lo == hi then lo else if keys[mid] <= k then FirstAbove(keys, k, mid + 1, hi) else FirstAbove(keys, k, lo, mid)
  }

  /** The same for the first key not below `k`. */
  function FirstNotBelow(keys: seq<Key>, k: Key, lo: nat, hi: nat): (n: nat)
    requires lo <= hi <= |keys|
    ensures lo <= n <= hi && (lo < n ==> keys[n - 1] < k) && (n < hi ==> keys[n] >= k)
    decreases hi - lo
  {
    var mid := (lo + hi) / 2;
    if lo == hi then lo else if keys[mid] < k then FirstNotBelow(keys, k, mid + 1, hi) else FirstNotBelow(keys, k, lo, mid)
  }

  /** How many keys come before: those at most `k`. */
  function UpperBound(keys: seq<Key>, k: Key): (n: nat)
    ensures n <= |keys| && (n > 0 ==> keys[n - 1] <= k) && (n < |keys| ==> keys[n] > k)
  {
    FirstAbove(keys, k, 0, |keys|)
  }

  /** Those below `k`. */
  function LowerBound(keys: seq<Key>, k: Key): (n: nat)
    ensures n <= |keys| && (n > 0 ==> keys[n - 1] < k) && (n < |keys| ==> keys[n] >= k)
  {
    FirstNotBelow(keys, k, 0, |keys|)
  }

  lemma UpperBoundIs(keys: seq<Key>, k: Key, n: nat)
    requires n <= |keys| && (forall i | 0 <= i < n :: keys[i] <= k) && forall i | n <= i < |keys| :: keys[i] > k
    ensures UpperBound(keys, k) == n
  {
  }

  lemma LowerBoundIs(keys: seq<Key>, k: Key, n: nat)
    requires n <= |keys| && (forall i | 0 <= i < n :: keys[i] < k) && forall i | n <= i < |keys| :: keys[i] >= k
    ensures LowerBound(keys, k) == n
  {
  }

  /** Of keys in order the two beside it tell. */
  lemma UpperBoundAt(keys: seq<Key>, k: Key, n: nat)
    requires Ascend(keys) && n <= |keys| && (n > 0 ==> keys[n - 1] <= k) && (n < |keys| ==> keys[n] > k)
    ensures UpperBound(keys, k) == n
  {
    UpperBoundIs(keys, k, n);
  }

  function KeysOf(es: seq<Entry>): (keys: seq<Key>)
    ensures |keys| == |es|
  {
    seq(|es|, i requires 0 <= i < |es| => es[i].key)
  }

  function InsertAt<T>(s: seq<T>, i: nat, x: T): seq<T> requires i <= |s| { s[..i] + [x] + s[i..] }

  /** After the entries with its key. */
  function InsertAfter(es: seq<Entry>, e: Entry): seq<Entry> { InsertAt(es, UpperBound(KeysOf(es), e.key), e) }

  // ---- insertion ----

  /** A subtree after an insertion, or two with a separator between them. */
  datatype Placement = One(t: Tree) | Two(left: Tree, sep: Key, right: Tree)

  /** The pages an insertion is given, one for each level that splits, the leaf's first. */
  function Top(ids: seq<PageId>): PageId { if ids == [] then NULL_PAGE else ids[|ids| - 1] }

  function Lower(ids: seq<PageId>): seq<PageId> { if ids == [] then [] else ids[..|ids| - 1] }

  function LeafInserted(id: PageId, es: seq<Entry>, e: Entry, new_: PageId): Placement {
    if |es| < LEAF_MAX then One(Leaf(id, InsertAfter(es, e)))
    else
      var mid := |es| / 2;
      var left, right := es[..mid], es[mid..];
      if e.key < right[0].key then Two(Leaf(id, InsertAfter(left, e)), right[0].key, Leaf(new_, right))
      else
        var more := InsertAfter(right, e);
        Two(Leaf(id, left), more[0].key, Leaf(new_, more))
  }

  /** Where a full node puts a separator that comes up from child `ci`: it looks its key
      up in the half the key belongs to. */
  function RoutedAt(keys: seq<Key>, sep: Key): (pos: nat)
    requires |keys| == INTERNAL_MAX
    ensures pos <= |keys|
  {
    var mid := |keys| / 2;
    if sep < keys[mid] then UpperBound(keys[..mid], sep) else mid + 1 + UpperBound(keys[mid + 1..], sep)
  }

  /** That is the place the descent came through exactly when the separator is strictly
      below the next one there. */
  lemma RoutedRight(keys: seq<Key>, ci: nat, sep: Key)
    requires |keys| == INTERNAL_MAX && ci <= |keys| && forall i, j | 0 <= i < j < |keys| :: keys[i] <= keys[j]
    requires (ci > 0 ==> keys[ci - 1] <= sep) && (ci < |keys| ==> sep <= keys[ci])
    ensures RoutedAt(keys, sep) == ci <==> ci == |keys| || sep < keys[ci]
  {
    if ci == |keys| || sep < keys[ci] { RoutedThere(keys, ci, sep); } else { RoutedPast(keys, ci, sep); }
  }

  lemma RoutedThere(keys: seq<Key>, ci: nat, sep: Key)
    requires |keys| == INTERNAL_MAX && ci <= |keys| && Ascend(keys)
    requires (ci > 0 ==> keys[ci - 1] <= sep) && (ci < |keys| ==> sep < keys[ci])
    ensures RoutedAt(keys, sep) == ci
  {
    var mid := |keys| / 2;
    hide UpperBound, Ascend;
    if ci <= mid { RoutedLow(keys, ci, sep, mid); } else { RoutedHigh(keys, ci, sep, mid); }
  }

  lemma RoutedLow(keys: seq<Key>, ci: nat, sep: Key, mid: nat)
    requires ci <= mid < |keys| && Ascend(keys) && (ci > 0 ==> keys[ci - 1] <= sep) && sep < keys[ci]
    ensures sep < keys[mid] && UpperBound(keys[..mid], sep) == ci
  {
    var left := keys[..mid];
    assert Ascend(left) && (ci > 0 ==> left[ci - 1] == keys[ci - 1]) && (ci < mid ==> left[ci] == keys[ci]);
    hide UpperBound;
    UpperBoundAt(left, sep, ci);
  }

  lemma RoutedHigh(keys: seq<Key>, ci: nat, sep: Key, mid: nat)
    requires mid < ci <= |keys| && Ascend(keys) && keys[ci - 1] <= sep && (ci < |keys| ==> sep < keys[ci])
    ensures keys[mid] <= sep && UpperBound(keys[mid + 1..], sep) == ci - mid - 1
  {
    var right, n := keys[mid + 1..], ci - mid - 1;
    assert Ascend(right) && (n > 0 ==> right[n - 1] == keys[ci - 1]) && (n < |right| ==> right[n] == keys[ci]);
    hide UpperBound;
    UpperBoundAt(right, sep, n);
  }

  /** When the next separator is the same, the look-up goes past it. */
  lemma RoutedPast(keys: seq<Key>, ci: nat, sep: Key)
    requires |keys| == INTERNAL_MAX && ci < |keys| && keys[ci] == sep
    requires forall i, j | 0 <= i < j < |keys| :: keys[i] <= keys[j]
    ensures RoutedAt(keys, sep) > ci
  {
    var mid := |keys| / 2;
    if sep < keys[mid] {
      assert ci < mid && keys[..mid][ci] == sep;
    } else if ci > mid {
      assert keys[mid + 1..][ci - mid - 1] == sep;
    }
  }

  /** The keys and children of a node with what became of one child. */
  function NewKeys(keys: seq<Key>, ci: nat, p: Placement): seq<Key> requires ci <= |keys| {
    match p case One(_) => keys case Two(_, sep, _) => InsertAt(keys, ci, sep)
  }

  function NewKids(kids: seq<Tree>, ci: nat, p: Placement): seq<Tree> requires ci < |kids| {
    match p case One(c) => kids[ci := c] case Two(l, _, r) => kids[..ci] + [l, r] + kids[ci + 1..]
  }

  function Joined(t: Tree, ci: nat, p: Placement): Tree
    requires t.Branch? && ci < |t.kids| == |t.keys| + 1
  {
    Branch(t.id, NewKeys(t.keys, ci, p), NewKids(t.kids, ci, p))
  }

  /** A full node's halves, the separator and its child put where its key is looked up. */
  function SplitBranch(t: Tree, ci: nat, l: Tree, sep: Key, r: Tree, new_: PageId): Placement
    requires t.Branch? && ci < |t.kids| == |t.keys| + 1 && |t.keys| == INTERNAL_MAX
  {
    var mid, kids := |t.keys| / 2, t.kids[ci := l];
    var median := t.keys[mid];
    var pos := RoutedAt(t.keys, sep);
    var keys', kids' := InsertAt(t.keys, pos, sep), InsertAt(kids, pos + 1, r);
    var c := if sep < median then mid + 1 else mid;
    Two(Branch(t.id, keys'[..c], kids'[..c + 1]), keys'[c], Branch(new_, keys'[c + 1..], kids'[c + 1..]))
  }

  function Inserted(t: Tree, e: Entry, ids: seq<PageId>): Placement {
    match t
    case Leaf(id, es) => LeafInserted(id, es, e, Top(ids))
    case Branch(_, keys, kids) =>
      if |kids| != |keys| + 1 || |keys| > INTERNAL_MAX then One(t)
      else
        var ci := UpperBound(keys, e.key);
        match Inserted(kids[ci], e, Lower(ids))
        case One(c) => One(Joined(t, ci, One(c)))
        case Two(l, sep, r) =>
          if |keys| < INTERNAL_MAX then One(Joined(t, ci, Two(l, sep, r))) else SplitBranch(t, ci, l, sep, r, Top(ids))
  }

  /** Every separator that enters a full node is strictly below the next one there. */
  predicate StrictlyRouted(t: Tree, e: Entry, ids: seq<PageId>) {
    match t
    case Leaf(_, _) => true
    case Branch(_, keys, kids) =>
      |kids| == |keys| + 1 && |keys| <= INTERNAL_MAX ==>
        var ci := UpperBound(keys, e.key);
        && StrictlyRouted(kids[ci], e, Lower(ids))
        && match Inserted(kids[ci], e, Lower(ids))
           case One(_) => true
           case Two(_, sep, _) => |keys| == INTERNAL_MAX && ci < |keys| ==> sep < keys[ci]
  }

  /** An insertion below a node, and in it. */
  lemma {:induction false} InsertedStep(t: Tree, e: Entry, ids: seq<PageId>)
    requires t.Branch? && |t.kids| == |t.keys| + 1 && |t.keys| <= INTERNAL_MAX
    ensures var ci := UpperBound(t.keys, e.key);
            && ci < |t.kids|
            && var p := Inserted(t.kids[ci], e, Lower(ids));
               && Inserted(t, e, ids) == (if p.One? || |t.keys| < INTERNAL_MAX then One(Joined(t, ci, p))
                                          else SplitBranch(t, ci, p.left, p.sep, p.right, Top(ids)))
               && StrictlyRouted(t, e, ids) == (&& StrictlyRouted(t.kids[ci], e, Lower(ids))
                                                && (p.Two? && |t.keys| == INTERNAL_MAX && ci < |t.keys| ==> p.sep < t.keys[ci]))
  {
    hide UpperBound, SplitBranch, Joined, Lower, Top;
  }

  // ---- what an insertion gives ----

  ghost predicate Placed(p: Placement, h: nat, lo: nat, hi: nat) {
    match p
    case One(t) => Sound(t, h, lo, hi)
    case Two(l, sep, r) => lo <= sep <= hi && Sound(l, h, lo, sep) && Sound(r, h, sep, hi)
  }

  function Contents(p: Placement): seq<Entry> {
    match p case One(t) => Entries(t) case Two(l, _, r) => Entries(l) + Entries(r)
  }

  lemma KeysJoin(a: seq<Entry>, b: seq<Entry>) ensures KeysOf(a + b) == KeysOf(a) + KeysOf(b) {}

  lemma OrderedAscends(es: seq<Entry>, lo: nat, hi: nat) requires Ordered(es, lo, hi) ensures Ascend(KeysOf(es)) {}

  lemma AscendPart(a: seq<Entry>, b: seq<Entry>)
    requires Ascend(KeysOf(a + b))
    ensures Ascend(KeysOf(a))
  {
    KeysJoin(a, b);
    assert forall i | 0 <= i < |a| :: KeysOf(a)[i] == KeysOf(a + b)[i];
  }

  lemma InsertPast<T>(a: seq<T>, b: seq<T>, n: nat, x: T)
    requires n <= |b|
    ensures InsertAt(a + b, |a| + n, x) == a + InsertAt(b, n, x)
  {
    assert (a + b)[..|a| + n] == a + b[..n] && (a + b)[|a| + n..] == b[n..];
  }

  /** Past the end of the first part the look-up goes on in the second. */
  lemma UpperBoundPast(a: seq<Key>, b: seq<Key>, k: Key)
    requires Ascend(a + b) && (a != [] ==> a[|a| - 1] <= k)
    ensures UpperBound(a + b, k) == |a| + UpperBound(b, k)
  {
    var n := UpperBound(b, k);
    hide UpperBound, Ascend;
    UpperBoundAt(a + b, k, |a| + n);
  }

  lemma AfterSplit(a: seq<Entry>, b: seq<Entry>, e: Entry)
    requires Ascend(KeysOf(a + b)) && (a != [] ==> a[|a| - 1].key <= e.key)
    ensures InsertAfter(a + b, e) == a + InsertAfter(b, e)
  {
    KeysJoin(a, b);
    assert a != [] ==> KeysOf(a)[|a| - 1] == a[|a| - 1].key;
    hide UpperBound, Ascend, KeysOf, InsertAt;
    UpperBoundPast(KeysOf(a), KeysOf(b), e.key);
    InsertPast(a, b, UpperBound(KeysOf(b), e.key), e);
  }

  lemma BeforeSplit(a: seq<Entry>, b: seq<Entry>, e: Entry)
    requires Ascend(KeysOf(a + b)) && (b != [] ==> b[0].key > e.key)
    ensures InsertAfter(a + b, e) == InsertAfter(a, e) + b
  {
    KeysJoin(a, b);
    assert b != [] ==> KeysOf(b)[0] == b[0].key;
    hide UpperBound, Ascend, KeysOf;
    var n := UpperBound(KeysOf(a), e.key);
    UpperBoundAt(KeysOf(a + b), e.key, n);
    assert (a + b)[..n] == a[..n] && (a + b)[n..] == a[n..] + b;
  }

  lemma AfterOrdered(es: seq<Entry>, e: Entry, lo: nat, hi: nat)
    requires Ordered(es, lo, hi) && lo <= e.key <= hi
    ensures Ordered(InsertAfter(es, e), lo, hi) && |InsertAfter(es, e)| == |es| + 1
  {
    var n := UpperBound(KeysOf(es), e.key);
    forall i | 0 <= i < |es| ensures if i < n then es[i].key <= e.key else es[i].key >= e.key {
      assert KeysOf(es)[i] == es[i].key;
      if n <= i { assert KeysOf(es)[n] == es[n].key; }
    }
    hide UpperBound;
    InsertOrdered(es, n, e, lo, hi);
  }

  lemma InsertOrdered(es: seq<Entry>, n: nat, e: Entry, lo: nat, hi: nat)
    requires Ordered(es, lo, hi) && lo <= e.key <= hi && n <= |es|
    requires forall i | 0 <= i < |es| :: if i < n then es[i].key <= e.key else es[i].key >= e.key
    ensures Ordered(InsertAt(es, n, e), lo, hi) && |InsertAt(es, n, e)| == |es| + 1
  {
    var r := InsertAt(es, n, e);
    assert forall i | 0 <= i < |r| :: r[i] == if i < n then es[i] else if i == n then e else es[i - 1];
  }

  lemma LeafPlaced(id: PageId, es: seq<Entry>, e: Entry, new_: PageId, lo: nat, hi: nat)
    requires |es| <= LEAF_MAX && Ordered(es, lo, hi) && lo <= e.key <= hi
    ensures Placed(LeafInserted(id, es, e, new_), 0, lo, hi) && Contents(LeafInserted(id, es, e, new_)) == InsertAfter(es, e)
  {
    hide InsertAfter;
    if |es| < LEAF_MAX {
      AfterOrdered(es, e, lo, hi);
    } else {
      var mid := |es| / 2;
      var left, right := es[..mid], es[mid..];
      assert es == left + right;
      if e.key < right[0].key {
        BeforeSplit(left, right, e);
        AfterOrdered(left, e, lo, right[0].key);
      } else {
        AfterSplit(left, right, e);
        AfterOrdered(right, e, right[0].key, hi);
        var more := InsertAfter(right, e);
        FirstStays(right, e);
      }
    }
  }

  lemma FirstStays(es: seq<Entry>, e: Entry)
    requires es != [] && es[0].key <= e.key
    ensures InsertAfter(es, e)[0] == es[0]
  {
    assert KeysOf(es)[0] == es[0].key;
  }

  lemma KidSound(t: Tree, h: nat, lo: nat, hi: nat, i: nat)
    requires Sound(t, h, lo, hi) && t.Branch? && i < |t.kids|
    ensures h > 0 && |t.kids| == |t.keys| + 1 && |t.keys| <= INTERNAL_MAX && KeysOrdered(t.keys, lo, hi) && SoundKids(t.keys, t.kids, h, lo, hi)
    ensures Sound(t.kids[i], h - 1, Bound(t.keys, lo, hi, i), Bound(t.keys, lo, hi, i + 1))
  {
  }

  lemma BoundsOrdered(keys: seq<Key>, lo: nat, hi: nat)
    requires KeysOrdered(keys, lo, hi)
    ensures forall i, j | 0 <= i <= j <= |keys| + 1 :: Bound(keys, lo, hi, i) <= Bound(keys, lo, hi, j)
  {
  }

  lemma OrderedJoin(a: seq<Entry>, b: seq<Entry>, lo: nat, mid: nat, hi: nat)
    requires Ordered(a, lo, mid) && Ordered(b, mid, hi) && lo <= mid <= hi
    ensures Ordered(a + b, lo, hi)
  {
  }

  /** A sound tree's entries are in order. */
  lemma {:induction false} SoundOrdered(t: Tree, h: nat, lo: nat, hi: nat)
    requires Sound(t, h, lo, hi)
    ensures Ordered(Entries(t), lo, hi) && lo <= hi
    decreases h, 1
  {
    if t.Branch? {
      KidsOrdered(t.keys, t.kids, h, lo, hi, 0, |t.kids|);
      assert t.kids[0..|t.kids|] == t.kids;
    }
  }

  lemma {:induction false} KidsOrdered(keys: seq<Key>, kids: seq<Tree>, h: nat, lo: nat, hi: nat, i: nat, j: nat)
    requires h > 0 && KeysOrdered(keys, lo, hi) && SoundKids(keys, kids, h, lo, hi) && i <= j <= |kids|
    ensures Bound(keys, lo, hi, i) <= Bound(keys, lo, hi, j) && Ordered(Flat(kids[i..j]), Bound(keys, lo, hi, i), Bound(keys, lo, hi, j))
    decreases h, 0, j - i
  {
    BoundsOrdered(keys, lo, hi);
    if i < j {
      SoundOrdered(kids[i], h - 1, Bound(keys, lo, hi, i), Bound(keys, lo, hi, i + 1));
      KidsOrdered(keys, kids, h, lo, hi, i + 1, j);
      assert kids[i..j][1..] == kids[i + 1..j];
      OrderedJoin(Entries(kids[i]), Flat(kids[i + 1..j]), Bound(keys, lo, hi, i), Bound(keys, lo, hi, i + 1), Bound(keys, lo, hi, j));
    }
  }

  /** The child an insertion descends into may hold its key. */
  lemma DescendsInto(keys: seq<Key>, lo: nat, hi: nat, e: Entry)
    requires KeysOrdered(keys, lo, hi) && lo <= e.key <= hi
    ensures var ci := UpperBound(keys, e.key);
            Bound(keys, lo, hi, ci) <= e.key <= Bound(keys, lo, hi, ci + 1) && (ci < |keys| ==> e.key < keys[ci])
  {
  }

  lemma PartsOf<T>(s: seq<T>, i: nat)
    requires i < |s|
    ensures s == s[..i] + ([s[i]] + s[i + 1..])
  {
  }

  lemma {:induction false} FlatParts(kids: seq<Tree>, ci: nat)
    requires ci < |kids|
    ensures Flat(kids) == Flat(kids[..ci]) + Entries(kids[ci]) + Flat(kids[ci + 1..])
  {
    hide Flat, Entries;
    var one, rest := [kids[ci]], kids[ci + 1..];
    PartsOf(kids, ci);
    FlatConcat(kids[..ci], one + rest);
    FlatConcat(one, rest);
    FlatOne(kids[ci]);
    Assoc(Flat(kids[..ci]), Entries(kids[ci]), Flat(kids[ci + 1..]));
  }

  /** Below a node only the child descended into changes. */
  lemma {:induction false} InsertedBelow(keys: seq<Key>, kids: seq<Tree>, h: nat, lo: nat, hi: nat, e: Entry)
    requires h > 0 && KeysOrdered(keys, lo, hi) && SoundKids(keys, kids, h, lo, hi) && lo <= e.key <= hi
    ensures var ci := UpperBound(keys, e.key);
            ci < |kids| && InsertAfter(Flat(kids), e) == Flat(kids[..ci]) + InsertAfter(Entries(kids[ci]), e) + Flat(kids[ci + 1..])
  {
    var ci := UpperBound(keys, e.key);
    DescendsInto(keys, lo, hi, e);
    FlatParts(kids, ci);
    KidsOrdered(keys, kids, h, lo, hi, 0, ci);
    KidsOrdered(keys, kids, h, lo, hi, ci + 1, |kids|);
    assert kids[0..ci] == kids[..ci] && kids[ci + 1..|kids|] == kids[ci + 1..];
    var a, b, c := Flat(kids[..ci]), Entries(kids[ci]), Flat(kids[ci + 1..]);
    KidsOrdered(keys, kids, h, lo, hi, 0, |kids|);
    assert kids[0..|kids|] == kids;
    OrderedAscends(Flat(kids), lo, hi);
    assert a != [] ==> a[|a| - 1].key <= e.key;
    assert c != [] ==> c[0].key > e.key;
    hide InsertAfter, Flat, Entries, SoundKids;
    assert a + b + c == Flat(kids);
    AscendPart(a + b, c);
    BeforeSplit(a + b, c, e);
    AfterSplit(a, b, e);
  }

  lemma NewContents(kids: seq<Tree>, ci: nat, p: Placement)
    requires ci < |kids|
    ensures Flat(NewKids(kids, ci, p)) == Flat(kids[..ci]) + Contents(p) + Flat(kids[ci + 1..])
  {
    match p
    case One(c) =>
      FlatParts(kids[ci := c], ci);
      assert kids[ci := c][..ci] == kids[..ci] && kids[ci := c][ci + 1..] == kids[ci + 1..];
    case Two(l, sep, r) =>
      FlatConcat(kids[..ci] + [l, r], kids[ci + 1..]);
      FlatConcat(kids[..ci], [l, r]);
      FlatConcat([l], [r]);
      FlatOne(l);
      FlatOne(r);
      assert [l, r] == [l] + [r];
  }

  lemma {:induction false} NewSound(keys: seq<Key>, kids: seq<Tree>, h: nat, lo: nat, hi: nat, ci: nat, p: Placement)
    requires h > 0 && KeysOrdered(keys, lo, hi) && SoundKids(keys, kids, h, lo, hi) && ci < |kids|
    requires Placed(p, h - 1, Bound(keys, lo, hi, ci), Bound(keys, lo, hi, ci + 1))
    ensures KeysOrdered(NewKeys(keys, ci, p), lo, hi) && SoundKids(NewKeys(keys, ci, p), NewKids(kids, ci, p), h, lo, hi)
  {
    hide Sound;
    var k, s := NewKeys(keys, ci, p), NewKids(kids, ci, p);
    if p.Two? {
      NewKeysOrdered(keys, lo, hi, ci, p.sep);
      forall i | 0 <= i < |s| ensures Sound(s[i], h - 1, Bound(k, lo, hi, i), Bound(k, lo, hi, i + 1)) {
        BoundsNew(keys, lo, hi, ci, p.sep, i);
        if i < ci {
          assert s[i] == kids[i] && Sound(kids[i], h - 1, Bound(keys, lo, hi, i), Bound(keys, lo, hi, i + 1));
        } else if i == ci {
          assert s[i] == p.left;
        } else if i == ci + 1 {
          assert s[i] == p.right;
        } else {
          assert s[i] == kids[i - 1] && Sound(kids[i - 1], h - 1, Bound(keys, lo, hi, i - 1), Bound(keys, lo, hi, i));
        }
      }
    }
  }

  lemma BoundsNew(keys: seq<Key>, lo: nat, hi: nat, ci: nat, sep: Key, i: nat)
    requires ci <= |keys| && i <= |keys| + 1
    ensures var k := InsertAt(keys, ci, sep);
            && Bound(k, lo, hi, i) == (if i <= ci then Bound(keys, lo, hi, i) else if i == ci + 1 then sep else Bound(keys, lo, hi, i - 1))
            && Bound(k, lo, hi, i + 1) == (if i < ci then Bound(keys, lo, hi, i + 1) else if i == ci then sep else Bound(keys, lo, hi, i))
  {
  }

  lemma NewKeysOrdered(keys: seq<Key>, lo: nat, hi: nat, ci: nat, sep: Key)
    requires KeysOrdered(keys, lo, hi) && ci <= |keys| && Bound(keys, lo, hi, ci) <= sep <= Bound(keys, lo, hi, ci + 1)
    ensures KeysOrdered(InsertAt(keys, ci, sep), lo, hi)
  {
    var k := InsertAt(keys, ci, sep);
    assert forall i | 0 <= i < |k| :: k[i] == if i < ci then keys[i] else if i == ci then sep else keys[i - 1];
  }

  lemma {:induction false} CutSound(keys: seq<Key>, kids: seq<Tree>, h: nat, lo: nat, hi: nat, c: nat)
    requires h > 0 && KeysOrdered(keys, lo, hi) && SoundKids(keys, kids, h, lo, hi) && c < |keys|
    ensures lo <= keys[c] <= hi
    ensures KeysOrdered(keys[..c], lo, keys[c]) && SoundKids(keys[..c], kids[..c + 1], h, lo, keys[c])
    ensures KeysOrdered(keys[c + 1..], keys[c], hi) && SoundKids(keys[c + 1..], kids[c + 1..], h, keys[c], hi)
    ensures Flat(kids) == Flat(kids[..c + 1]) + Flat(kids[c + 1..])
  {
    hide Sound;
    var l, r, m := keys[..c], keys[c + 1..], keys[c];
    forall i | 0 <= i < c + 1 ensures Sound(kids[..c + 1][i], h - 1, Bound(l, lo, m, i), Bound(l, lo, m, i + 1)) {
      assert Sound(kids[i], h - 1, Bound(keys, lo, hi, i), Bound(keys, lo, hi, i + 1));
    }
    forall i | 0 <= i < |kids| - c - 1 ensures Sound(kids[c + 1..][i], h - 1, Bound(r, m, hi, i), Bound(r, m, hi, i + 1)) {
      assert Sound(kids[c + 1 + i], h - 1, Bound(keys, lo, hi, c + 1 + i), Bound(keys, lo, hi, c + 2 + i));
    }
    assert kids == kids[..c + 1] + kids[c + 1..];
    FlatConcat(kids[..c + 1], kids[c + 1..]);
  }

  /** A full node split where the descent came through. */
  lemma {:induction false} SplitPlaced(t: Tree, h: nat, lo: nat, hi: nat, ci: nat, l: Tree, sep: Key, r: Tree, new_: PageId)
    requires t.Branch? && h > 0 && |t.keys| == INTERNAL_MAX && KeysOrdered(t.keys, lo, hi) && SoundKids(t.keys, t.kids, h, lo, hi)
    requires ci < |t.kids| && Placed(Two(l, sep, r), h - 1, Bound(t.keys, lo, hi, ci), Bound(t.keys, lo, hi, ci + 1))
    requires ci < |t.keys| ==> sep < t.keys[ci]
    ensures Placed(SplitBranch(t, ci, l, sep, r, new_), h, lo, hi)
    ensures Contents(SplitBranch(t, ci, l, sep, r, new_)) == Flat(t.kids[..ci]) + (Entries(l) + Entries(r)) + Flat(t.kids[ci + 1..])
  {
    hide *;
    var p := Two(l, sep, r);
    KidsCount(t.keys, t.kids, h, lo, hi);
    NewSound(t.keys, t.kids, h, lo, hi, ci, p);
    NewContents(t.kids, ci, p);
    TwoContents(l, sep, r);
    SplitIs(t, h, lo, hi, ci, l, sep, r, new_);
    CutEither(t.id, new_, NewKeys(t.keys, ci, p), NewKids(t.kids, ci, p), h, lo, hi, SplitBranch(t, ci, l, sep, r, new_));
  }

  lemma {:induction false} CutEither(id: PageId, new_: PageId, keys: seq<Key>, kids: seq<Tree>, h: nat, lo: nat, hi: nat, p: Placement)
    requires h > 0 && KeysOrdered(keys, lo, hi) && SoundKids(keys, kids, h, lo, hi) && |keys| == INTERNAL_MAX + 1
    requires exists c :: CutIs(id, new_, keys, kids, p, c)
    ensures Placed(p, h, lo, hi) && Contents(p) == Flat(kids)
  {
    hide Sound, SoundKids, Flat, KeysOrdered, Placed, Contents;
    var c :| CutIs(id, new_, keys, kids, p, c);
    CutPlaced(id, new_, keys, kids, h, lo, hi, c);
  }

  predicate CutIs(id: PageId, new_: PageId, keys: seq<Key>, kids: seq<Tree>, p: Placement, c: nat) {
    && c < |keys| && |kids| == |keys| + 1
    && p == Two(Branch(id, keys[..c], kids[..c + 1]), keys[c], Branch(new_, keys[c + 1..], kids[c + 1..]))
  }

  /** A node one separator too full, in two. */
  lemma {:induction false} CutPlaced(id: PageId, new_: PageId, keys: seq<Key>, kids: seq<Tree>, h: nat, lo: nat, hi: nat, c: nat)
    requires h > 0 && KeysOrdered(keys, lo, hi) && SoundKids(keys, kids, h, lo, hi) && |keys| == INTERNAL_MAX + 1 && c < |keys|
    ensures |kids| == |keys| + 1
    ensures var p := Two(Branch(id, keys[..c], kids[..c + 1]), keys[c], Branch(new_, keys[c + 1..], kids[c + 1..]));
            Placed(p, h, lo, hi) && Contents(p) == Flat(kids)
  {
    hide Sound, SoundKids, Flat, KeysOrdered;
    KidsCount(keys, kids, h, lo, hi);
    CutSound(keys, kids, h, lo, hi, c);
    BranchSound(id, keys[..c], kids[..c + 1], h, lo, keys[c]);
    BranchSound(new_, keys[c + 1..], kids[c + 1..], h, keys[c], hi);
  }

  lemma {:induction false} TwoContents(l: Tree, sep: Key, r: Tree) ensures Contents(Two(l, sep, r)) == Entries(l) + Entries(r) {}

  lemma SplitIs(t: Tree, h: nat, lo: nat, hi: nat, ci: nat, l: Tree, sep: Key, r: Tree, new_: PageId)
    requires t.Branch? && h > 0 && |t.keys| == INTERNAL_MAX && KeysOrdered(t.keys, lo, hi) && |t.kids| == |t.keys| + 1
    requires ci < |t.kids| && Placed(Two(l, sep, r), h - 1, Bound(t.keys, lo, hi, ci), Bound(t.keys, lo, hi, ci + 1))
    requires ci < |t.keys| ==> sep < t.keys[ci]
    ensures var p := Two(l, sep, r);
            |NewKeys(t.keys, ci, p)| == INTERNAL_MAX + 1
            && exists c :: CutIs(t.id, new_, NewKeys(t.keys, ci, p), NewKids(t.kids, ci, p), SplitBranch(t, ci, l, sep, r, new_), c)
  {
    hide Sound, RoutedAt;
    RoutedRight(t.keys, ci, sep);
    var p := Two(l, sep, r);
    assert InsertAt(t.kids[ci := l], ci + 1, r) == NewKids(t.kids, ci, p);
    var c := if sep < t.keys[|t.keys| / 2] then |t.keys| / 2 + 1 else |t.keys| / 2;
    assert CutIs(t.id, new_, NewKeys(t.keys, ci, p), NewKids(t.kids, ci, p), SplitBranch(t, ci, l, sep, r, new_), c);
  }

  lemma {:induction false} KidsCount(keys: seq<Key>, kids: seq<Tree>, h: nat, lo: nat, hi: nat)
    requires h > 0 && SoundKids(keys, kids, h, lo, hi)
    ensures |kids| == |keys| + 1
  {
  }

  lemma {:induction false} BranchSound(id: PageId, keys: seq<Key>, kids: seq<Tree>, h: nat, lo: nat, hi: nat)
    requires h > 0 && |keys| <= INTERNAL_MAX && KeysOrdered(keys, lo, hi) && SoundKids(keys, kids, h, lo, hi)
    ensures Sound(Branch(id, keys, kids), h, lo, hi) && Entries(Branch(id, keys, kids)) == Flat(kids)
  {
  }

  /** While every separator that enters a full node is strictly below the next one there,
      an insertion keeps the tree's order and puts the entry after those with its key. */
  lemma {:induction false} InsertSound(t: Tree, h: nat, lo: nat, hi: nat, e: Entry, ids: seq<PageId>)
    requires Sound(t, h, lo, hi) && lo <= e.key <= hi && StrictlyRouted(t, e, ids)
    ensures Placed(Inserted(t, e, ids), h, lo, hi) && Contents(Inserted(t, e, ids)) == InsertAfter(Entries(t), e)
    decreases h
  {
    hide LeafInserted, SplitBranch, InsertAfter, Flat, UpperBound, Lower, Top;
    if t.Leaf? {
      LeafPlaced(t.id, t.entries, e, Top(ids), lo, hi);
    } else {
      var ci := UpperBound(t.keys, e.key);
      KidSound(t, h, lo, hi, ci);
      DescendsInto(t.keys, lo, hi, e);
      InsertedStep(t, e, ids);
      hide Inserted, StrictlyRouted;
      InsertSound(t.kids[ci], h - 1, Bound(t.keys, lo, hi, ci), Bound(t.keys, lo, hi, ci + 1), e, Lower(ids));
      InsertedBelow(t.keys, t.kids, h, lo, hi, e);
      hide Placed, SoundKids, Sound;
      var p := Inserted(t.kids[ci], e, Lower(ids));
      NewSound(t.keys, t.kids, h, lo, hi, ci, p);
      NewContents(t.kids, ci, p);
      if p.Two? && |t.keys| == INTERNAL_MAX {
        SplitPlaced(t, h, lo, hi, ci, p.left, p.sep, p.right, Top(ids));
      } else {
        BranchSound(t.id, NewKeys(t.keys, ci, p), NewKids(t.kids, ci, p), h, lo, hi);
        OnePlaced(Branch(t.id, NewKeys(t.keys, ci, p), NewKids(t.kids, ci, p)), h, lo, hi);
      }
    }
  }

  lemma {:induction false} OnePlaced(t: Tree, h: nat, lo: nat, hi: nat)
    requires Sound(t, h, lo, hi)
    ensures Placed(One(t), h, lo, hi)
  {
  }

  /** The whole tree: a root that splits grows a level. */
  function InsertRoot(t: Tree, e: Entry, ids: seq<PageId>): Tree {
    match Inserted(t, e, Lower(ids)) case One(r) => r case Two(l, sep, r) => Branch(Top(ids), [sep], [l, r])
  }

  lemma RootSound(t: Tree, h: nat, e: Entry, ids: seq<PageId>)
    requires Sound(t, h, 0, KEY_END) && StrictlyRouted(t, e, Lower(ids))
    ensures Sound(InsertRoot(t, e, ids), h, 0, KEY_END) || Sound(InsertRoot(t, e, ids), h + 1, 0, KEY_END)
    ensures Entries(InsertRoot(t, e, ids)) == InsertAfter(Entries(t), e)
  {
    hide Inserted, InsertAfter, Sound, Placed, StrictlyRouted, Lower;
    InsertSound(t, h, 0, KEY_END, e, Lower(ids));
    var p := Inserted(t, e, Lower(ids));
    if p.Two? {
      PlacedIs(p, h);
      assert [p.left, p.right] == [p.left] + [p.right];
      FlatConcat([p.left], [p.right]);
      FlatOne(p.left);
      FlatOne(p.right);
      TwoSound(Top(ids), p.left, p.sep, p.right, h);
    } else {
      PlacedIs(p, h);
    }
  }

  lemma {:induction false} PlacedIs(p: Placement, h: nat)
    requires Placed(p, h, 0, KEY_END)
    ensures p.One? ==> Sound(p.t, h, 0, KEY_END)
    ensures p.Two? ==> Sound(p.left, h, 0, p.sep) && Sound(p.right, h, p.sep, KEY_END)
  {
  }

  lemma TwoSound(id: PageId, l: Tree, sep: Key, r: Tree, h: nat)
    requires Sound(l, h, 0, sep) && Sound(r, h, sep, KEY_END)
    ensures Sound(Branch(id, [sep], [l, r]), h + 1, 0, KEY_END)
  {
    hide Sound;
    var kids: seq<Tree> := [l, r];
    forall i | 0 <= i < |kids| ensures Sound(kids[i], h, Bound([sep], 0, KEY_END, i), Bound([sep], 0, KEY_END, i + 1)) {
      if i == 1 { assert kids[i] == r; }
    }
    BranchSound(id, [sep], kids, h + 1, 0, KEY_END);
  }

  /** The values of a key, in order. */
  function ValuesOf(es: seq<Entry>, k: Key): seq<Value> {
    if es == [] then [] else (if es[0].key == k then [es[0].value] else []) + ValuesOf(es[1..], k)
  }

  lemma {:induction false} ValuesConcat(a: seq<Entry>, b: seq<Entry>, k: Key)
    ensures ValuesOf(a + b, k) == ValuesOf(a, k) + ValuesOf(b, k)
  {
    if a == [] {
      assert a + b == b;
    } else {
      ValuesConcat(a[1..], b, k);
      assert (a + b)[1..] == a[1..] + b;
      Assoc(if a[0].key == k then [a[0].value] else [], ValuesOf(a[1..], k), ValuesOf(b, k));
    }
  }

  lemma {:induction false} NoValues(es: seq<Entry>, k: Key)
    requires forall i | 0 <= i < |es| :: es[i].key != k
    ensures ValuesOf(es, k) == []
  {
    if es != [] {
      assert forall i | 0 <= i < |es[1..]| :: es[1..][i] == es[i + 1];
      NoValues(es[1..], k);
    }
  }

  /** Equal keys keep the order they were inserted in. */
  lemma {:induction false} KeepsOrder(es: seq<Entry>, e: Entry, k: Key, lo: nat, hi: nat)
    requires Ordered(es, lo, hi)
    ensures ValuesOf(InsertAfter(es, e), k) == ValuesOf(es, k) + if e.key == k then [e.value] else []
  {
    hide Ordered, UpperBound, KeysOf, ValuesOf;
    var n := UpperBound(KeysOf(es), e.key);
    var a, b := es[..n], es[n..];
    assert es == a + b;
    assert InsertAfter(es, e) == a + [e] + b;
    hide InsertAfter;
    ValuesConcat(a, b, k);
    ValuesConcat(a + [e], b, k);
    ValuesConcat(a, [e], k);
    OneValue(e, k);
    if e.key == k {
      LaterKeys(es, e, lo, hi, n);
      assert forall i | 0 <= i < |b| :: b[i] == es[n + i];
      NoValues(b, k);
      NoMore(ValuesOf(a, k), [e.value]);
    } else {
      NoMore(ValuesOf(a, k), ValuesOf(b, k));
    }
  }

  lemma {:induction false} OneValue(e: Entry, k: Key) ensures ValuesOf([e], k) == if e.key == k then [e.value] else [] { assert [e][1..] == []; }

  lemma NoMore<T>(a: seq<T>, b: seq<T>) ensures a + b + [] == a + b && a + [] + b == a + b && a + b + [] == (a + []) + b {}

  lemma LaterKeys(es: seq<Entry>, e: Entry, lo: nat, hi: nat, n: nat)
    requires Ordered(es, lo, hi) && n == UpperBound(KeysOf(es), e.key)
    ensures forall i | n <= i < |es| :: es[i].key > e.key
  {
    if n < |es| { assert KeysOf(es)[n] == es[n].key; }
  }

  // ---- seeking by the leftmost child ----

  /** The entries before and from where a search for `k` lands. */
  function Land(t: Tree, k: Key): (seq<Entry>, seq<Entry>) {
    match t
    case Leaf(_, es) => var n := LowerBound(KeysOf(es), k); (es[..n], es[n..])
    case Branch(_, keys, kids) =>
      if |kids| != |keys| + 1 then ([], Flat(kids))
      else
        var i := LowerBound(keys, k);
        var (before, from) := Land(kids[i], k);
        (Flat(kids[..i]) + before, from + Flat(kids[i + 1..]))
  }

  predicate Below(es: seq<Entry>, k: Key) { forall i | 0 <= i < |es| :: es[i].key < k }

  predicate AtOrAfter(es: seq<Entry>, k: Key) { forall i | 0 <= i < |es| :: es[i].key >= k }

  /** From there on along the chain lie exactly the entries at or after `k`, runs of equal
      keys across many leaves included. */
  lemma {:induction false} LandsFirst(t: Tree, h: nat, lo: nat, hi: nat, k: Key)
    requires Sound(t, h, lo, hi)
    ensures var (before, from) := Land(t, k); before + from == Entries(t) && Below(before, k) && AtOrAfter(from, k)
    decreases h
  {
    if t.Leaf? {
      LandsInLeaf(t.entries, k, lo, hi);
    } else {
      var i := LowerBound(t.keys, k);
      KidSound(t, h, lo, hi, i);
      LandsFirst(t.kids[i], h - 1, Bound(t.keys, lo, hi, i), Bound(t.keys, lo, hi, i + 1), k);
      BesideLanding(t.keys, t.kids, h, lo, hi, k);
      var (before, from) := Land(t.kids[i], k);
      hide Sound, SoundKids, KeysOrdered, Flat, Below, AtOrAfter, LowerBound;
      Around(Flat(t.kids[..i]), before, from, Flat(t.kids[i + 1..]));
      BelowJoin(Flat(t.kids[..i]), before, k);
      AfterJoin(from, Flat(t.kids[i + 1..]), k);
    }
  }

  /** The children left of the landing hold smaller keys only, those right of it none. */
  lemma {:induction false} BesideLanding(keys: seq<Key>, kids: seq<Tree>, h: nat, lo: nat, hi: nat, k: Key)
    requires h > 0 && KeysOrdered(keys, lo, hi) && SoundKids(keys, kids, h, lo, hi)
    ensures var i := LowerBound(keys, k);
            && i < |kids| && Flat(kids) == Flat(kids[..i]) + Entries(kids[i]) + Flat(kids[i + 1..])
            && Below(Flat(kids[..i]), k) && AtOrAfter(Flat(kids[i + 1..]), k)
  {
    hide Sound, Flat, Entries;
    var i := LowerBound(keys, k);
    FlatParts(kids, i);
    KidsOrdered(keys, kids, h, lo, hi, 0, i);
    KidsOrdered(keys, kids, h, lo, hi, i + 1, |kids|);
    hide SoundKids;
    assert kids[0..i] == kids[..i] && kids[i + 1..|kids|] == kids[i + 1..];
    assert i > 0 ==> Bound(keys, lo, hi, i) < k;
    assert i < |keys| ==> Bound(keys, lo, hi, i + 1) >= k;
    if i == 0 { assert kids[..i] == []; FlatNone(); }
    if i == |keys| { assert kids[i + 1..] == []; FlatNone(); }
  }

  lemma BelowJoin(a: seq<Entry>, b: seq<Entry>, k: Key) requires Below(a, k) && Below(b, k) ensures Below(a + b, k) {}

  lemma AfterJoin(a: seq<Entry>, b: seq<Entry>, k: Key) requires AtOrAfter(a, k) && AtOrAfter(b, k) ensures AtOrAfter(a + b, k) {}

  lemma Around<T>(a: seq<T>, b: seq<T>, c: seq<T>, d: seq<T>) ensures (a + b) + (c + d) == a + (b + c) + d {}

  lemma LandsInLeaf(es: seq<Entry>, k: Key, lo: nat, hi: nat)
    requires Ordered(es, lo, hi)
    ensures var n := LowerBound(KeysOf(es), k);
            Below(es[..n], k) && AtOrAfter(es[n..], k) && es[..n] + es[n..] == es
  {
    var keys := KeysOf(es);
    assert forall i | 0 <= i < |es| :: keys[i] == es[i].key;
    OrderedAscends(es, lo, hi);
    LowerBoundSplits(keys, k);
    hide KeysOf, LowerBound, Ordered, Ascend;
    var n := LowerBound(keys, k);
    assert forall i | 0 <= i < |es| :: if i < n then es[i].key < k else es[i].key >= k;
  }

  lemma LowerBoundSplits(keys: seq<Key>, k: Key)
    requires Ascend(keys)
    ensures forall i | 0 <= i < |keys| :: if i < LowerBound(keys, k) then keys[i] < k else keys[i] >= k
  {
    hide LowerBound;
  }

  lemma FlatNone() ensures Flat([]) == [] {}
}
