/** The shape of a B+Tree (src/btree.hpp, src/btree.cpp): what the pages of a tree
    say, what keeps it ordered and balanced, and what its nodes may be cut and
    joined into. */
module BTreeShape {
  import opened Sequences

  type PageId = nat
  const NULL_PAGE: PageId := 0

  const KEY_END: nat := 0x1_0000_0000_0000_0000
  type Key = k: nat | k < KEY_END
  type Value = nat

  const LEAF_MAX: nat := 254
  const LEAF_MIN: nat := LEAF_MAX / 2
  const INTERNAL_MAX: nat := 339
  const INTERNAL_MIN: nat := INTERNAL_MAX / 2

  datatype Entry = Entry(key: Key, value: Value)

  /** A node split: what it tells its parent. */
  datatype Split = Split(sepKey: Key, right: PageId)

  /** A page of the tree. */
  datatype Node =
    | LeafNode(entries: seq<Entry>, next: PageId)
    | InternalNode(keys: seq<Key>, children: seq<PageId>)

  /** The tree the pages under a root form. */
  datatype Tree =
    | Leaf(id: PageId, entries: seq<Entry>)
    | Branch(id: PageId, keys: seq<Key>, kids: seq<Tree>)

  // ---- what a tree holds ----

  function Entries(t: Tree): seq<Entry> {
    match t
    case Leaf(_, es) => es
    case Branch(_, _, kids) => Flat(kids)
  }

  function Flat(kids: seq<Tree>): seq<Entry> {
    if kids == [] then [] else Entries(kids[0]) + Flat(kids[1..])
  }

  lemma {:induction false} FlatConcat(a: seq<Tree>, b: seq<Tree>)
    ensures Flat(a + b) == Flat(a) + Flat(b)
  {
    if a == [] {
      assert a + b == b;
    } else {
      hide Entries;
      FlatNext(a, b);
      hide Flat;
      FlatConcat(a[1..], b);
      Assoc(Entries(a[0]), Flat(a[1..]), Flat(b));
    }
  }

  lemma {:induction false} FlatNext(a: seq<Tree>, b: seq<Tree>)
    requires a != []
    ensures Flat(a + b) == Entries(a[0]) + Flat(a[1..] + b) && Flat(a) == Entries(a[0]) + Flat(a[1..])
  {
    hide Entries;
    assert (a + b)[0] == a[0] && (a + b)[1..] == a[1..] + b;
  }

  lemma {:induction false} FlatOne(t: Tree) ensures Flat([t]) == Entries(t) { assert [t][1..] == []; }

  // ---- order and balance ----

  function Size(t: Tree): nat { if t.Leaf? then |t.entries| else |t.keys| }
  function MinSize(t: Tree): nat { if t.Leaf? then LEAF_MIN else INTERNAL_MIN }
  function MaxSize(t: Tree): nat { if t.Leaf? then LEAF_MAX else INTERNAL_MAX }

  /** At least half full, as every node but the root must be. */
  predicate Half(t: Tree) { Size(t) >= MinSize(t) }
  predicate Fits(t: Tree) { Size(t) <= MaxSize(t) }

  predicate SortedIn(es: seq<Entry>, lo: nat, hi: nat) {
    && (forall i | 0 <= i < |es| :: lo <= es[i].key < hi)
    && (forall i, j | 0 <= i < j < |es| :: es[i].key < es[j].key)
  }

  predicate KeysIn(keys: seq<Key>, lo: nat, hi: nat) {
    && lo < hi
    && (forall i | 0 <= i < |keys| :: lo < keys[i] < hi)
    && (forall i, j | 0 <= i < j < |keys| :: keys[i] < keys[j])
  }

  /** Where child `i`'s keys begin, and child `i - 1`'s end. */
  function Bound(keys: seq<Key>, lo: nat, hi: nat, i: nat): nat {
    if i == 0 then lo else if i <= |keys| then keys[i - 1] else hi
  }

  /** A tree of height `h`, its keys in order and in [lo, hi), every node below
      its root between half full and full. */
  ghost predicate Good(t: Tree, h: nat, lo: nat, hi: nat)
    decreases h
  {
    match t
    case Leaf(_, es) => h == 0 && lo < hi && SortedIn(es, lo, hi)
    case Branch(_, keys, kids) => h > 0 && |kids| == |keys| + 1 && KeysIn(keys, lo, hi) && GoodKids(keys, kids, h, lo, hi)
  }

  ghost predicate GoodKids(keys: seq<Key>, kids: seq<Tree>, h: nat, lo: nat, hi: nat)
    requires h > 0
    decreases h, 0
  {
    |kids| == |keys| + 1 &&
    forall i | 0 <= i < |kids| ::
      Good(kids[i], h - 1, Bound(keys, lo, hi, i), Bound(keys, lo, hi, i + 1)) && Half(kids[i]) && Fits(kids[i])
  }

  /** As `GoodKids`, but child `ci` may be less than half full. */
  ghost predicate GoodExcept(keys: seq<Key>, kids: seq<Tree>, h: nat, lo: nat, hi: nat, ci: nat)
    requires h > 0
  {
    && |kids| == |keys| + 1
    && forall i | 0 <= i < |kids| ::
      Good(kids[i], h - 1, Bound(keys, lo, hi, i), Bound(keys, lo, hi, i + 1)) && Fits(kids[i]) && (i == ci || Half(kids[i]))
  }

  // ---- the pages ----

  function Foot(t: Tree): set<PageId> {
    match t
    case Leaf(id, _) => {id}
    case Branch(id, _, kids) => {id} + FootOf(kids)
  }

  function FootOf(kids: seq<Tree>): set<PageId> {
    if kids == [] then {} else Foot(kids[0]) + FootOf(kids[1..])
  }

  function Ids(kids: seq<Tree>): seq<PageId> { seq(|kids|, i requires 0 <= i < |kids| => kids[i].id) }

  /** The leftmost leaf. */
  function First(t: Tree): PageId {
    match t
    case Leaf(id, _) => id
    case Branch(id, _, kids) => if kids == [] then id else First(kids[0])
  }

  function Next(kids: seq<Tree>, i: nat, succ: PageId): PageId {
    if i + 1 < |kids| then First(kids[i + 1]) else succ
  }

  /** The pages hold the tree, each node in a page of its own, and the leaves are
      chained in order, the last to `succ`. */
  ghost predicate Rep(pages: map<PageId, Node>, t: Tree, succ: PageId)
    decreases t, 0
  {
    && t.id in pages
    && match t
       case Leaf(id, es) => pages[id] == LeafNode(es, succ)
       case Branch(id, keys, kids) =>
         pages[id] == InternalNode(keys, Ids(kids)) && kids != [] && id !in FootOf(kids) && RepKids(pages, kids, succ)
  }

  ghost predicate RepKids(pages: map<PageId, Node>, kids: seq<Tree>, succ: PageId)
    decreases kids, 0
  {
    kids != [] ==>
      && Rep(pages, kids[0], Next(kids, 0, succ))
      && Foot(kids[0]) !! FootOf(kids[1..])
      && RepKids(pages, kids[1..], succ)
  }

  lemma {:induction false} FootConcat(a: seq<Tree>, b: seq<Tree>)
    ensures FootOf(a + b) == FootOf(a) + FootOf(b)
  {
    if a == [] {
      assert a + b == b;
    } else {
      FootConcat(a[1..], b);
      assert (a + b)[1..] == a[1..] + b;
    }
  }

  lemma {:induction false} FootOne(t: Tree) ensures FootOf([t]) == Foot(t) { assert [t][1..] == []; }

  function FirstOf(kids: seq<Tree>, succ: PageId): PageId { if kids == [] then succ else First(kids[0]) }

  /** Children split anywhere: the left part is chained to the right one. */
  lemma {:induction false} RepConcat(pages: map<PageId, Node>, a: seq<Tree>, b: seq<Tree>, succ: PageId)
    ensures RepKids(pages, a + b, succ) <==>
            RepKids(pages, a, FirstOf(b, succ)) && RepKids(pages, b, succ) && FootOf(a) !! FootOf(b)
  {
    if a == [] {
      assert a + b == b;
    } else {
      RepConcat(pages, a[1..], b, succ);
      FootConcat(a[1..], b);
      assert (a + b)[1..] == a[1..] + b;
      assert Next(a + b, 0, succ) == Next(a, 0, FirstOf(b, succ));
    }
  }

  lemma {:induction false} RepOne(pages: map<PageId, Node>, t: Tree, succ: PageId)
    ensures RepKids(pages, [t], succ) <==> Rep(pages, t, succ)
  {
    assert [t][1..] == [];
    assert Next([t], 0, succ) == succ;
  }

  /** Pages outside the tree do not matter to it. */
  lemma {:induction false} RepFrame(p: map<PageId, Node>, q: map<PageId, Node>, t: Tree, succ: PageId)
    requires Rep(p, t, succ) && forall id | id in Foot(t) && id in p :: id in q && q[id] == p[id]
    ensures Rep(q, t, succ)
    decreases t, 0
  {
    if t.Branch? { RepKidsFrame(p, q, t.kids, succ); }
  }

  lemma {:induction false} RepKidsFrame(p: map<PageId, Node>, q: map<PageId, Node>, kids: seq<Tree>, succ: PageId)
    requires RepKids(p, kids, succ) && forall id | id in FootOf(kids) && id in p :: id in q && q[id] == p[id]
    ensures RepKids(q, kids, succ)
    decreases kids, 0
  {
    if kids != [] {
      RepFrame(p, q, kids[0], Next(kids, 0, succ));
      RepKidsFrame(p, q, kids[1..], succ);
    }
  }

  lemma {:induction false} FootInPages(pages: map<PageId, Node>, t: Tree, succ: PageId)
    requires Rep(pages, t, succ)
    ensures Foot(t) <= pages.Keys && t.id in Foot(t)
    decreases t, 0
  {
    if t.Branch? { FootKidsInPages(pages, t.kids, succ); }
  }

  lemma {:induction false} FootKidsInPages(pages: map<PageId, Node>, kids: seq<Tree>, succ: PageId)
    requires RepKids(pages, kids, succ)
    ensures FootOf(kids) <= pages.Keys
    decreases kids, 0
  {
    if kids != [] {
      FootInPages(pages, kids[0], Next(kids, 0, succ));
      FootKidsInPages(pages, kids[1..], succ);
    }
  }

  lemma {:induction false} RepThree(pages: map<PageId, Node>, a: seq<Tree>, k: seq<Tree>, b: seq<Tree>, succ: PageId)
    ensures RepKids(pages, a + k + b, succ) <==>
            RepKids(pages, a, FirstOf(k, FirstOf(b, succ))) && RepKids(pages, k, FirstOf(b, succ)) &&
            RepKids(pages, b, succ) && FootOf(a) !! FootOf(k) && FootOf(a) + FootOf(k) !! FootOf(b)
    ensures FootOf(a + k + b) == FootOf(a) + FootOf(k) + FootOf(b)
  {
    hide RepKids, FootOf, First;
    RepConcat(pages, a + k, b, succ);
    RepConcat(pages, a, k, FirstOf(b, succ));
    FootConcat(a + k, b);
    FootConcat(a, k);
  }

  lemma FirstOfThree(a: seq<Tree>, k: seq<Tree>, b: seq<Tree>, succ: PageId)
    ensures FirstOf(a + k + b, succ) == FirstOf(a, FirstOf(k, FirstOf(b, succ)))
  {
    if a == [] && k == [] { assert a + k + b == b; }
  }

  // ---- rewriting part of a tree ----

  /** Going from `p` to `q` put the siblings `m` where siblings on the pages `foot`
      stood, the leaf chain entering them at `first` as before: in those pages and
      newly allocated ones, freeing what they no longer need, every other page
      left alone. */
  ghost predicate Rewritten(p: map<PageId, Node>, q: map<PageId, Node>, foot: set<PageId>, first: PageId,
                            m: seq<Tree>, succ: PageId) {
    && m != [] && First(m[0]) == first && RepKids(q, m, succ)
    && FootOf(m) == foot + (q.Keys - p.Keys) - (p.Keys - q.Keys)
    && p.Keys - q.Keys <= foot
    && (forall id | id in p && id !in foot :: id in q && q[id] == p[id])
  }

  /** Rewriting some neighbouring children rewrites them all. */
  lemma {:induction false} RewriteIn(p: map<PageId, Node>, q: map<PageId, Node>, a: seq<Tree>, k: seq<Tree>, m: seq<Tree>,
                  b: seq<Tree>, succ: PageId)
    requires k != [] && RepKids(p, a + k + b, succ)
    requires Rewritten(p, q, FootOf(k), First(k[0]), m, FirstOf(b, succ))
    ensures Rewritten(p, q, FootOf(a + k + b), FirstOf(a + k + b, succ), a + m + b, succ)
  {
    RepThree(p, a, k, b, succ);
    RepThree(q, a, m, b, succ);
    FirstOfThree(a, k, b, succ);
    FirstOfThree(a, m, b, succ);
    hide RepKids, FootOf, First;
    FootKidsInPages(p, a + k + b, succ);
    RepKidsFrame(p, q, a, FirstOf(k, FirstOf(b, succ)));
    RepKidsFrame(p, q, b, succ);
  }

  lemma {:induction false} RewriteThen(p: map<PageId, Node>, q: map<PageId, Node>, r: map<PageId, Node>, foot: set<PageId>,
                    first: PageId, m: seq<Tree>, n: seq<Tree>, succ: PageId)
    requires foot <= p.Keys && Rewritten(p, q, foot, first, m, succ) && Rewritten(q, r, FootOf(m), first, n, succ)
    ensures Rewritten(p, r, foot, first, n, succ)
  {
    hide RepKids, FootOf, First;
    forall id | id in p && id !in foot ensures id in r && r[id] == p[id] { assert id in q && id !in FootOf(m); }
  }

  // ---- cutting and joining nodes ----

  /** The separators `i` to `j` of a branch, and the children around them. */
  function Cut(id: PageId, keys: seq<Key>, kids: seq<Tree>, i: nat, j: nat): Tree
    requires i <= j <= |keys| && |kids| == |keys| + 1
  {
    Branch(id, keys[i..j], kids[i..j + 1])
  }

  lemma {:induction false} GoodCut(id: PageId, keys: seq<Key>, kids: seq<Tree>, h: nat, lo: nat, hi: nat, i: nat, j: nat)
    requires h > 0 && KeysIn(keys, lo, hi) && GoodKids(keys, kids, h, lo, hi) && i <= j <= |keys|
    ensures Good(Cut(id, keys, kids, i, j), h, Bound(keys, lo, hi, i), Bound(keys, lo, hi, j + 1))
  {
    var lo', hi' := Bound(keys, lo, hi, i), Bound(keys, lo, hi, j + 1);
    var keys', kids' := keys[i..j], kids[i..j + 1];
    forall k | 0 <= k < |kids'|
      ensures Good(kids'[k], h - 1, Bound(keys', lo', hi', k), Bound(keys', lo', hi', k + 1)) && Half(kids'[k]) && Fits(kids'[k])
    {
      assert kids'[k] == kids[i + k];
      assert Bound(keys', lo', hi', k) == Bound(keys, lo, hi, i + k);
      assert Bound(keys', lo', hi', k + 1) == Bound(keys, lo, hi, i + k + 1);
    }
  }

  lemma {:induction false} GoodJoin(a: Tree, sep: Key, b: Tree, h: nat, lo: nat, hi: nat)
    requires a.Branch? && b.Branch? && Good(a, h, lo, sep) && Good(b, h, sep, hi)
    ensures KeysIn(a.keys + [sep] + b.keys, lo, hi) && GoodKids(a.keys + [sep] + b.keys, a.kids + b.kids, h, lo, hi)
  {
    var keys, kids := a.keys + [sep] + b.keys, a.kids + b.kids;
    var n := |a.kids|;
    forall k | 0 <= k < |kids|
      ensures Good(kids[k], h - 1, Bound(keys, lo, hi, k), Bound(keys, lo, hi, k + 1)) && Half(kids[k]) && Fits(kids[k])
    {
      if k < n {
        assert kids[k] == a.kids[k];
        assert Bound(keys, lo, hi, k) == Bound(a.keys, lo, sep, k);
        assert Bound(keys, lo, hi, k + 1) == Bound(a.keys, lo, sep, k + 1);
      } else {
        assert kids[k] == b.kids[k - n];
        assert Bound(keys, lo, hi, k) == Bound(b.keys, sep, hi, k - n);
        assert Bound(keys, lo, hi, k + 1) == Bound(b.keys, sep, hi, k - n + 1);
      }
    }
  }

  /** A child put in the place of one with the same bounds. */
  lemma GoodReplace(keys: seq<Key>, kids: seq<Tree>, h: nat, lo: nat, hi: nat, i: nat, t: Tree)
    requires h > 0 && GoodKids(keys, kids, h, lo, hi) && i < |kids|
    requires Good(t, h - 1, Bound(keys, lo, hi, i), Bound(keys, lo, hi, i + 1)) && Half(t) && Fits(t)
    ensures GoodKids(keys, kids[i := t], h, lo, hi)
  {
  }

  /** Two children, and a separator, in the place of one. */
  lemma {:induction false} GoodSplitChild(keys: seq<Key>, kids: seq<Tree>, h: nat, lo: nat, hi: nat, i: nat, l: Tree, sep: Key, r: Tree)
    requires h > 0 && KeysIn(keys, lo, hi) && GoodKids(keys, kids, h, lo, hi) && i < |kids|
    requires Bound(keys, lo, hi, i) < sep < Bound(keys, lo, hi, i + 1)
    requires Good(l, h - 1, Bound(keys, lo, hi, i), sep) && Half(l) && Fits(l)
    requires Good(r, h - 1, sep, Bound(keys, lo, hi, i + 1)) && Half(r) && Fits(r)
    ensures KeysIn(keys[..i] + [sep] + keys[i..], lo, hi)
    ensures GoodKids(keys[..i] + [sep] + keys[i..], kids[..i] + [l, r] + kids[i + 1..], h, lo, hi)
  {
    var keys', kids' := keys[..i] + [sep] + keys[i..], kids[..i] + [l, r] + kids[i + 1..];
    KeysInsert(keys, lo, hi, i, sep);
    hide KeysIn;
    forall k | 0 <= k < |kids'|
      ensures Good(kids'[k], h - 1, Bound(keys', lo, hi, k), Bound(keys', lo, hi, k + 1)) && Half(kids'[k]) && Fits(kids'[k])
    {
      BoundInsert(keys, lo, hi, i, sep, k);
      BoundInsert(keys, lo, hi, i, sep, k + 1);
      if k < i { assert kids'[k] == kids[k]; }
      else if k > i + 1 { assert kids'[k] == kids[k - 1]; }
    }
  }

  lemma KeysInsert(keys: seq<Key>, lo: nat, hi: nat, i: nat, sep: Key)
    requires KeysIn(keys, lo, hi) && i <= |keys| && Bound(keys, lo, hi, i) < sep < Bound(keys, lo, hi, i + 1)
    ensures KeysIn(keys[..i] + [sep] + keys[i..], lo, hi)
  {
    var keys' := keys[..i] + [sep] + keys[i..];
    forall j, k | 0 <= j < k < |keys'| ensures lo < keys'[j] < keys'[k] < hi {
      if j < i { assert keys'[j] == keys[j] <= Bound(keys, lo, hi, i); }
      if k > i { assert keys'[k] == keys[k - 1] >= Bound(keys, lo, hi, i + 1); }
    }
    if |keys'| == 1 { assert keys' == [sep]; }
    assert forall j | 0 <= j < |keys'| :: if j == 0 then j + 1 < |keys'| ==> keys'[j] < keys'[j + 1] else keys'[j - 1] < keys'[j];
  }

  lemma BoundInsert(keys: seq<Key>, lo: nat, hi: nat, i: nat, sep: Key, k: nat)
    requires i <= |keys|
    ensures Bound(keys[..i] + [sep] + keys[i..], lo, hi, k) ==
            if k <= i then Bound(keys, lo, hi, k) else if k == i + 1 then sep else Bound(keys, lo, hi, k - 1)
  {
  }

  /** One child in the place of two and the separator between them. */
  lemma {:induction false} GoodMergeChild(keys: seq<Key>, kids: seq<Tree>, h: nat, lo: nat, hi: nat, ci: nat, i: nat, t: Tree)
    requires h > 0 && KeysIn(keys, lo, hi) && GoodExcept(keys, kids, h, lo, hi, ci) && i <= ci <= i + 1 < |kids|
    requires Good(t, h - 1, Bound(keys, lo, hi, i), Bound(keys, lo, hi, i + 2)) && Half(t) && Fits(t)
    ensures KeysIn(keys[..i] + keys[i + 1..], lo, hi)
    ensures GoodKids(keys[..i] + keys[i + 1..], kids[..i] + [t] + kids[i + 2..], h, lo, hi)
  {
    var keys', kids' := keys[..i] + keys[i + 1..], kids[..i] + [t] + kids[i + 2..];
    forall k | 0 <= k < |kids'|
      ensures Good(kids'[k], h - 1, Bound(keys', lo, hi, k), Bound(keys', lo, hi, k + 1)) && Half(kids'[k]) && Fits(kids'[k])
    {
      if k < i {
        assert Bound(keys', lo, hi, k) == Bound(keys, lo, hi, k) && Bound(keys', lo, hi, k + 1) == Bound(keys, lo, hi, k + 1);
      } else if k > i {
        assert kids'[k] == kids[k + 1];
        assert Bound(keys', lo, hi, k) == Bound(keys, lo, hi, k + 1) && Bound(keys', lo, hi, k + 1) == Bound(keys, lo, hi, k + 2);
      } else {
        assert Bound(keys', lo, hi, i) == Bound(keys, lo, hi, i) && Bound(keys', lo, hi, i + 1) == Bound(keys, lo, hi, i + 2);
      }
    }
  }

  /** Two children and their separator in the place of two others. */
  lemma GoodReplacePair(keys: seq<Key>, kids: seq<Tree>, h: nat, lo: nat, hi: nat, ci: nat, i: nat,
                        l: Tree, sep: Key, r: Tree)
    requires h > 0 && KeysIn(keys, lo, hi) && GoodExcept(keys, kids, h, lo, hi, ci) && i <= ci <= i + 1 < |kids|
    requires Bound(keys, lo, hi, i) < sep < Bound(keys, lo, hi, i + 2)
    requires Good(l, h - 1, Bound(keys, lo, hi, i), sep) && Half(l) && Fits(l)
    requires Good(r, h - 1, sep, Bound(keys, lo, hi, i + 2)) && Half(r) && Fits(r)
    ensures KeysIn(keys[i := sep], lo, hi) && GoodKids(keys[i := sep], kids[i := l][i + 1 := r], h, lo, hi)
  {
    var keys', kids' := keys[i := sep], kids[i := l][i + 1 := r];
    forall k | 0 <= k < |kids'|
      ensures Good(kids'[k], h - 1, Bound(keys', lo, hi, k), Bound(keys', lo, hi, k + 1)) && Half(kids'[k]) && Fits(kids'[k])
    {
      if k != i && k != i + 1 {
        assert Bound(keys', lo, hi, k) == Bound(keys, lo, hi, k) && Bound(keys', lo, hi, k + 1) == Bound(keys, lo, hi, k + 1);
      }
    }
  }
}
