/** The pages of an index's tree: its nodes, each in a page of its own, and the links that
    chain its leaves. */
module DuplicateNodes {
  import opened Wrappers
  import opened BTreeShape
  import opened DuplicateKeys
  import opened DuplicateChain

  /** The pages hold the nodes of the tree; how its leaves are linked is left open. */
  ghost predicate Nodes(pages: map<PageId, Node>, t: Tree)
    decreases t, 0
  {
    && t.id in pages
    && match t
       case Leaf(id, es) => pages[id].LeafNode? && pages[id].entries == es
       case Branch(id, keys, kids) =>
         pages[id] == InternalNode(keys, Ids(kids)) && id !in FootOf(kids) && NodesOf(pages, kids)
  }

  ghost predicate NodesOf(pages: map<PageId, Node>, kids: seq<Tree>)
    decreases kids, 0
  {
    kids != [] ==> Nodes(pages, kids[0]) && Foot(kids[0]) !! FootOf(kids[1..]) && NodesOf(pages, kids[1..])
  }

  lemma {:induction false} NodesConcat(pages: map<PageId, Node>, a: seq<Tree>, b: seq<Tree>)
    ensures NodesOf(pages, a + b) <==> NodesOf(pages, a) && NodesOf(pages, b) && FootOf(a) !! FootOf(b)
  {
    if a == [] {
      assert a + b == b;
    } else {
      NodesConcat(pages, a[1..], b);
      FootConcat(a[1..], b);
      assert (a + b)[1..] == a[1..] + b;
    }
  }

  lemma {:induction false} NodesOne(pages: map<PageId, Node>, t: Tree) ensures NodesOf(pages, [t]) <==> Nodes(pages, t) { assert [t][1..] == []; }

  lemma {:induction false} NodesFrame(p: map<PageId, Node>, q: map<PageId, Node>, t: Tree)
    requires Nodes(p, t) && forall id | id in Foot(t) && id in p :: id in q && q[id] == p[id]
    ensures Nodes(q, t)
    decreases t, 0
  {
    if t.Branch? { NodesOfFrame(p, q, t.kids); }
  }

  lemma {:induction false} NodesOfFrame(p: map<PageId, Node>, q: map<PageId, Node>, kids: seq<Tree>)
    requires NodesOf(p, kids) && forall id | id in FootOf(kids) && id in p :: id in q && q[id] == p[id]
    ensures NodesOf(q, kids)
    decreases kids, 0
  {
    if kids != [] {
      NodesFrame(p, q, kids[0]);
      NodesOfFrame(p, q, kids[1..]);
    }
  }

  lemma {:induction false} NodesIn(pages: map<PageId, Node>, t: Tree)
    requires Nodes(pages, t)
    ensures Foot(t) <= pages.Keys && t.id in Foot(t)
    decreases t, 0
  {
    if t.Branch? { NodesOfIn(pages, t.kids); }
  }

  lemma {:induction false} NodesOfIn(pages: map<PageId, Node>, kids: seq<Tree>)
    requires NodesOf(pages, kids)
    ensures FootOf(kids) <= pages.Keys
    decreases kids, 0
  {
    if kids != [] {
      NodesIn(pages, kids[0]);
      NodesOfIn(pages, kids[1..]);
    }
  }

  lemma NodesParts(pages: map<PageId, Node>, kids: seq<Tree>, ci: nat)
    requires ci < |kids|
    ensures var a, c := kids[..ci], kids[ci + 1..];
            && (NodesOf(pages, kids) <==> NodesOf(pages, a) && Nodes(pages, kids[ci]) && NodesOf(pages, c)
                                          && FootOf(a) !! Foot(kids[ci]) + FootOf(c) && Foot(kids[ci]) !! FootOf(c))
            && FootOf(kids) == FootOf(a) + Foot(kids[ci]) + FootOf(c)
  {
    hide NodesOf, Nodes, FootOf, Foot;
    var a, one, c := kids[..ci], [kids[ci]], kids[ci + 1..];
    PartsOf(kids, ci);
    NodesConcat(pages, a, one + c);
    NodesConcat(pages, one, c);
    NodesOne(pages, kids[ci]);
    FootConcat(a, one + c);
    FootConcat(one, c);
    FootOne(kids[ci]);
  }

  /** One child replaced. */
  lemma NodesReplaced(p: map<PageId, Node>, q: map<PageId, Node>, kids: seq<Tree>, ci: nat, l: Tree)
    requires ci < |kids| && NodesOf(p, kids) && Nodes(q, l) && Foot(l) !! FootOf(kids) - Foot(kids[ci])
    requires forall id | id in p && id !in Foot(kids[ci]) :: id in q && q[id] == p[id]
    ensures NodesOf(q, kids[ci := l]) && FootOf(kids[ci := l]) == FootOf(kids) - Foot(kids[ci]) + Foot(l)
  {
    var a, c, s := kids[..ci], kids[ci + 1..], kids[ci := l];
    NodesParts(p, kids, ci);
    NodesParts(q, s, ci);
    assert s[..ci] == a && s[ci + 1..] == c;
    hide NodesOf, Nodes, FootOf, Foot;
    NodesOfIn(p, kids);
    NodesOfFrame(p, q, a);
    NodesOfFrame(p, q, c);
  }

  /** One child more. */
  lemma {:induction false} NodesInserted(pages: map<PageId, Node>, kids: seq<Tree>, i: nat, r: Tree)
    requires i <= |kids| && NodesOf(pages, kids) && Nodes(pages, r) && Foot(r) !! FootOf(kids)
    ensures NodesOf(pages, InsertAt(kids, i, r)) && FootOf(InsertAt(kids, i, r)) == FootOf(kids) + Foot(r)
  {
    var a, c, s := kids[..i], kids[i..], InsertAt(kids, i, r);
    assert kids == a + c;
    assert s[..i] == a && s[i] == r && s[i + 1..] == c;
    hide NodesOf, Nodes, FootOf, Foot;
    NodesConcat(pages, a, c);
    FootConcat(a, c);
    NodesParts(pages, s, i);
  }

  // ---- what a subtree has become ----

  ghost predicate Became(p: map<PageId, Node>, q: map<PageId, Node>, t: Tree, m: Placement, split: Option<Split>) {
    && p.Keys <= q.Keys && (forall id | id in p && id !in Foot(t) :: q[id] == p[id])
    && match m
       case One(c) => split.None? && c.id == t.id && Nodes(q, c) && Foot(c) == Foot(t) + (q.Keys - p.Keys)
       case Two(l, sep, r) =>
         && split == Some(Split(sep, r.id)) && l.id == t.id && Nodes(q, l) && Nodes(q, r)
         && Foot(l) !! Foot(r) && Foot(l) + Foot(r) == Foot(t) + (q.Keys - p.Keys)
  }

  lemma {:induction false} KidFacts(p: map<PageId, Node>, t: Tree, ci: nat)
    requires t.Branch? && Nodes(p, t) && ci < |t.kids|
    ensures t.id in p && p[t.id] == InternalNode(t.keys, Ids(t.kids)) && t.id !in FootOf(t.kids) && NodesOf(p, t.kids)
    ensures FootOf(t.kids) <= p.Keys && Foot(t.kids[ci]) <= FootOf(t.kids) && Foot(t) == {t.id} + FootOf(t.kids)
  {
    NodesParts(p, t.kids, ci);
    NodesOfIn(p, t.kids);
  }

  /** The child's pages and the new ones, in the place of the child's. */
  lemma Pages(all: set<PageId>, k: set<PageId>, l: set<PageId>, r: set<PageId>, more: set<PageId>)
    requires k <= all && l + r == k + more && l !! r && more !! all
    ensures l !! all - k && r !! all - k + l && all - k + l + r == all + more
  {
  }

  lemma NoPages(all: set<PageId>, k: set<PageId>, l: set<PageId>, more: set<PageId>)
    requires k <= all && l == k + more && more !! all
    ensures l !! all - k && all - k + l == all + more
  {
  }

  lemma IdsReplaced(kids: seq<Tree>, ci: nat, l: Tree)
    requires ci < |kids| && l.id == kids[ci].id
    ensures Ids(kids[ci := l]) == Ids(kids)
  {
  }

  lemma IdsInserted(kids: seq<Tree>, i: nat, r: Tree)
    requires i <= |kids|
    ensures Ids(InsertAt(kids, i, r)) == InsertAt(Ids(kids), i, r.id)
  {
  }

  /** A node's children, when one of them has been rewritten. */
  lemma {:induction false} KidRewritten(p: map<PageId, Node>, q: map<PageId, Node>, t: Tree, ci: nat, c: Tree)
    requires t.Branch? && Nodes(p, t) && ci < |t.kids| && Became(p, q, t.kids[ci], One(c), None)
    ensures t.id in q && q[t.id] == InternalNode(t.keys, Ids(t.kids)) && t.id !in FootOf(t.kids) + (q.Keys - p.Keys)
    ensures var s := t.kids[ci := c]; NodesOf(q, s) && FootOf(s) == FootOf(t.kids) + (q.Keys - p.Keys) && Ids(s) == Ids(t.kids)
  {
    assert p.Keys <= q.Keys && (forall id | id in p && id !in Foot(t.kids[ci]) :: q[id] == p[id]);
    assert c.id == t.kids[ci].id && Nodes(q, c) && Foot(c) == Foot(t.kids[ci]) + (q.Keys - p.Keys);
    hide *;
    KidFacts(p, t, ci);
    NoPages(FootOf(t.kids), Foot(t.kids[ci]), Foot(c), q.Keys - p.Keys);
    NodesReplaced(p, q, t.kids, ci, c);
    IdsReplaced(t.kids, ci, c);
  }

  /** When one of them has split, and its new sibling is put anywhere among them. */
  lemma {:induction false} KidSplit(p: map<PageId, Node>, q: map<PageId, Node>, t: Tree, ci: nat, l: Tree, sep: Key, r: Tree, i: nat)
    requires t.Branch? && Nodes(p, t) && ci < |t.kids| && Became(p, q, t.kids[ci], Two(l, sep, r), Some(Split(sep, r.id))) && i <= |t.kids|
    ensures t.id in q && q[t.id] == InternalNode(t.keys, Ids(t.kids)) && t.id !in FootOf(t.kids) + (q.Keys - p.Keys)
    ensures var s := InsertAt(t.kids[ci := l], i, r);
            NodesOf(q, s) && FootOf(s) == FootOf(t.kids) + (q.Keys - p.Keys) && Ids(s) == InsertAt(Ids(t.kids), i, r.id)
  {
    assert p.Keys <= q.Keys && (forall id | id in p && id !in Foot(t.kids[ci]) :: q[id] == p[id]);
    assert l.id == t.kids[ci].id && Nodes(q, l) && Nodes(q, r) && Foot(l) !! Foot(r) && Foot(l) + Foot(r) == Foot(t.kids[ci]) + (q.Keys - p.Keys);
    hide *;
    KidFacts(p, t, ci);
    Pages(FootOf(t.kids), Foot(t.kids[ci]), Foot(l), Foot(r), q.Keys - p.Keys);
    NodesReplaced(p, q, t.kids, ci, l);
    NodesInserted(q, t.kids[ci := l], i, r);
    IdsReplaced(t.kids, ci, l);
    IdsInserted(t.kids[ci := l], i, r);
  }

  lemma {:induction false} NodesBranch(pages: map<PageId, Node>, id: PageId, keys: seq<Key>, kids: seq<Tree>)
    requires id in pages && pages[id] == InternalNode(keys, Ids(kids)) && id !in FootOf(kids) && NodesOf(pages, kids)
    ensures Nodes(pages, Branch(id, keys, kids)) && Foot(Branch(id, keys, kids)) == {id} + FootOf(kids)
  {
  }

  /** A node whose children are now `kids`, written with the keys `keys`. */
  lemma {:induction false} BecameOne(p: map<PageId, Node>, q: map<PageId, Node>, t: Tree, keys: seq<Key>, kids: seq<Tree>)
    requires p.Keys <= q.Keys && (forall id | id in p && id !in Foot(t) :: q[id] == p[id])
    requires t.Branch? && Foot(t) == {t.id} + FootOf(t.kids) <= p.Keys && t.id !in FootOf(t.kids) + (q.Keys - p.Keys)
    requires NodesOf(q, kids) && FootOf(kids) == FootOf(t.kids) + (q.Keys - p.Keys)
    requires q[t.id] == InternalNode(keys, Ids(kids))
    ensures Became(p, q, t, One(Branch(t.id, keys, kids)), None)
  {
    hide NodesOf, FootOf, Foot, Nodes;
    NodesBranch(q, t.id, keys, kids);
  }

  /** The node with what its child has become. */
  lemma {:induction false} BecameJoined(p: map<PageId, Node>, q: map<PageId, Node>, q': map<PageId, Node>, t: Tree, ci: nat, m: Placement, split: Option<Split>)
    requires t.Branch? && Nodes(p, t) && ci < |t.kids| == |t.keys| + 1 && Became(p, q, t.kids[ci], m, split)
    requires q' == if m.One? then q else q[t.id := InternalNode(InsertAt(t.keys, ci, m.sep), InsertAt(Ids(t.kids), ci + 1, m.right.id))]
    ensures Became(p, q', t, One(Joined(t, ci, m)), None)
  {
    assert p.Keys <= q.Keys && (forall id | id in p && id !in Foot(t.kids[ci]) :: q[id] == p[id]);
    var kids := NewKids(t.kids, ci, m);
    if m.One? {
      hide NodesOf, FootOf, Foot, Nodes, Became;
      KidFacts(p, t, ci);
      KidRewritten(p, q, t, ci, m.t);
      BecameOne(p, q, t, t.keys, kids);
    } else {
      assert kids == InsertAt(t.kids[ci := m.left], ci + 1, m.right);
      hide NodesOf, FootOf, Foot, Nodes, Became;
      KidFacts(p, t, ci);
      KidSplit(p, q, t, ci, m.left, m.sep, m.right, ci + 1);
      NodesOfFrame(q, q', kids);
      BecameOne(p, q', t, NewKeys(t.keys, ci, m), kids);
    }
  }

  /** A node's children in two nodes. */
  lemma {:induction false} BecameTwo(p: map<PageId, Node>, q: map<PageId, Node>, q': map<PageId, Node>, t: Tree, y: PageId,
                  l: Tree, sep: Key, r: Tree, kids: seq<Tree>)
    requires p.Keys <= q.Keys && (forall id | id in p && id !in Foot(t) :: q[id] == p[id])
    requires t.Branch? && Foot(t) == {t.id} + FootOf(t.kids) <= p.Keys && t.id !in FootOf(t.kids) + (q.Keys - p.Keys)
    requires NodesOf(q, kids) && FootOf(kids) == FootOf(t.kids) + (q.Keys - p.Keys) && y !in q
    requires l.Branch? && r.Branch? && l.id == t.id && r.id == y && kids == l.kids + r.kids
    requires q' == q[t.id := InternalNode(l.keys, Ids(l.kids))][y := InternalNode(r.keys, Ids(r.kids))]
    ensures Became(p, q', t, Two(l, sep, r), Some(Split(sep, y)))
  {
    hide NodesOf, FootOf, Foot, Nodes;
    NodesConcat(q, l.kids, r.kids);
    FootConcat(l.kids, r.kids);
    NodesOfFrame(q, q', l.kids);
    NodesOfFrame(q, q', r.kids);
    NodesBranch(q', t.id, l.keys, l.kids);
    NodesBranch(q', y, r.keys, r.kids);
    assert q'.Keys == q.Keys + {y};
  }

  /** A full node split in two. */
  lemma {:induction false} BecameSplit(p: map<PageId, Node>, q: map<PageId, Node>, q': map<PageId, Node>, t: Tree, ci: nat, m: Placement, split: Option<Split>, y: PageId)
    requires t.Branch? && Nodes(p, t) && ci < |t.kids| == |t.keys| + 1 && |t.keys| == INTERNAL_MAX && m.Two?
    requires Became(p, q, t.kids[ci], m, split) && y !in q
    requires var s := SplitBranch(t, ci, m.left, m.sep, m.right, y);
             q' == q[t.id := InternalNode(s.left.keys, Ids(s.left.kids))][y := InternalNode(s.right.keys, Ids(s.right.kids))]
    ensures var s := SplitBranch(t, ci, m.left, m.sep, m.right, y); Became(p, q', t, s, Some(Split(s.sep, y)))
  {
    assert p.Keys <= q.Keys && (forall id | id in p && id !in Foot(t.kids[ci]) :: q[id] == p[id]);
    var s, pos := SplitBranch(t, ci, m.left, m.sep, m.right, y), RoutedAt(t.keys, m.sep);
    var kids := InsertAt(t.kids[ci := m.left], pos + 1, m.right);
    hide NodesOf, FootOf, Foot, Nodes, Became, SplitBranch, RoutedAt;
    KidFacts(p, t, ci);
    KidSplit(p, q, t, ci, m.left, m.sep, m.right, pos + 1);
    SplitKids(t, ci, m.left, m.sep, m.right, y);
    SplitNames(t, ci, m.left, m.sep, m.right, y);
    BecameTwo(p, q, q', t, y, s.left, s.sep, s.right, kids);
  }

  lemma SplitKids(t: Tree, ci: nat, l: Tree, sep: Key, r: Tree, y: PageId)
    requires t.Branch? && ci < |t.kids| == |t.keys| + 1 && |t.keys| == INTERNAL_MAX
    ensures var s := SplitBranch(t, ci, l, sep, r, y);
            InsertAt(t.kids[ci := l], RoutedAt(t.keys, sep) + 1, r) == s.left.kids + s.right.kids
  {
    hide RoutedAt;
  }

  lemma SplitNames(t: Tree, ci: nat, l: Tree, sep: Key, r: Tree, y: PageId)
    requires t.Branch? && ci < |t.kids| == |t.keys| + 1 && |t.keys| == INTERNAL_MAX
    ensures var s := SplitBranch(t, ci, l, sep, r, y);
            s.Two? && s.left == Branch(t.id, s.left.keys, s.left.kids) && s.right == Branch(y, s.right.keys, s.right.kids)
  {
  }

  /** A leaf rewritten, or split in two. */
  lemma {:induction false} BecameLeaf(p: map<PageId, Node>, q: map<PageId, Node>, t: Tree, e: Entry, ids: seq<PageId>, split: Option<Split>)
    requires t.Leaf? && Nodes(p, t)
    requires var m, next := Inserted(t, e, ids), p[t.id].next;
             match m
             case One(c) => q == p[t.id := LeafNode(c.entries, next)] && split == None
             case Two(l, sep, r) =>
               && Top(ids) !in p && split == Some(Split(sep, Top(ids)))
               && q == p[t.id := LeafNode(l.entries, Top(ids))][Top(ids) := LeafNode(r.entries, next)]
    ensures Became(p, q, t, Inserted(t, e, ids), split)
  {
  }

  // ---- the links ----

  /** Of the leaves' links only the split leaf's is changed: to the new leaf, which takes
      over where it led. */
  ghost predicate LinksKept(p: map<PageId, Node>, q: map<PageId, Node>, x: PageId, y: PageId, splits: bool) {
    && (forall id | id in p && p[id].LeafNode? ::
          id in q && q[id].LeafNode? && q[id].next == if splits && id == x then y else p[id].next)
    && (forall id | id in q && q[id].LeafNode? :: (id in p && p[id].LeafNode?) || (splits && id == y))
    && (splits ==> x in p && p[x].LeafNode? && y !in p && y in q && q[y].LeafNode? && q[y].next == p[x].next)
  }

  lemma LinksThen(p: map<PageId, Node>, q: map<PageId, Node>, q': map<PageId, Node>, x: PageId, y: PageId, splits: bool)
    requires LinksKept(p, q, x, y, splits) && q.Keys <= q'.Keys
    requires forall id | id in q' :: (id in q && q'[id] == q[id]) || (q'[id].InternalNode? && (id in q ==> q[id].InternalNode?))
    ensures LinksKept(p, q', x, y, splits)
  {
  }

  function NextIn(chain: seq<PageId>, i: nat): PageId { if i + 1 < |chain| then chain[i + 1] else NULL_PAGE }

  /** The leaves are linked in this order. */
  ghost predicate Linked(pages: map<PageId, Node>, chain: seq<PageId>) {
    && Distinct(chain)
    && (forall id :: id in chain <==> id in pages && pages[id].LeafNode?)
    && forall i | 0 <= i < |chain| :: pages[chain[i]].next == NextIn(chain, i)
  }

  lemma {:induction false} SplicedAt(chain: seq<PageId>, x: PageId, y: PageId) returns (i: nat)
    requires x in chain
    ensures i < |chain| && chain[i] == x && Spliced(chain, x, y) == chain[..i + 1] + [y] + chain[i + 1..]
  {
    if chain[0] == x {
      i := 0;
      assert [x, y] + chain[1..] == chain[..1] + [y] + chain[1..];
    } else {
      var j := SplicedAt(chain[1..], x, y);
      i := j + 1;
      assert chain[..i + 1] == [chain[0]] + chain[1..][..j + 1];
    }
  }

  function PutAfter(chain: seq<PageId>, i: nat, y: PageId): (s: seq<PageId>)
    requires i < |chain|
    ensures |s| == |chain| + 1 && forall j | 0 <= j < |s| :: s[j] == if j <= i then chain[j] else if j == i + 1 then y else chain[j - 1]
  {
    chain[..i + 1] + [y] + chain[i + 1..]
  }

  lemma DistinctAfter(chain: seq<PageId>, i: nat, y: PageId)
    requires i < |chain| && Distinct(chain) && y !in chain
    ensures Distinct(PutAfter(chain, i, y)) && forall id :: id in PutAfter(chain, i, y) <==> id in chain || id == y
  {
    var s := PutAfter(chain, i, y);
    forall id | id in chain ensures id in s {
      var j :| 0 <= j < |chain| && chain[j] == id;
      assert s[if j <= i then j else j + 1] == id;
    }
    assert s[i + 1] == y;
    hide PutAfter;
    forall j, k | 0 <= j < k < |s| ensures s[j] != s[k] {
      if j != i + 1 { assert s[j] in chain; }
      if k != i + 1 { assert s[k] in chain; }
    }
  }

  lemma LinkedAt(pages: map<PageId, Node>, chain: seq<PageId>, k: nat)
    requires Linked(pages, chain) && k < |chain|
    ensures chain[k] in pages && pages[chain[k]].LeafNode? && pages[chain[k]].next == NextIn(chain, k)
    ensures forall j | 0 <= j < |chain| && j != k :: chain[j] != chain[k]
  {
    assert chain[k] in chain;
  }

  lemma LinkOf(p: map<PageId, Node>, q: map<PageId, Node>, x: PageId, y: PageId, id: PageId)
    requires LinksKept(p, q, x, y, true)
    ensures id in p && p[id].LeafNode? ==> id in q && q[id].LeafNode? && q[id].next == if id == x then y else p[id].next
    ensures x in p && y in q && q[y].LeafNode? && q[y].next == p[x].next
  {
  }

  lemma NextAfter(chain: seq<PageId>, i: nat, y: PageId, j: nat)
    requires i < |chain| && j <= |chain|
    ensures PutAfter(chain, i, y)[j] == if j <= i then chain[j] else if j == i + 1 then y else chain[j - 1]
    ensures NextIn(PutAfter(chain, i, y), j) == if j < i then NextIn(chain, j) else if j == i then y else NextIn(chain, j - 1)
  {
  }

  lemma LinkAfter(p: map<PageId, Node>, q: map<PageId, Node>, chain: seq<PageId>, i: nat, y: PageId, j: nat)
    requires Linked(p, chain) && i < |chain| && LinksKept(p, q, chain[i], y, true) && j <= |chain|
    ensures var s := PutAfter(chain, i, y); s[j] in q && q[s[j]].LeafNode? && q[s[j]].next == NextIn(s, j)
  {
    hide *;
    LinkedAt(p, chain, i);
    NextAfter(chain, i, y, j);
    if j <= i {
      LinkedAt(p, chain, j);
      LinkOf(p, q, chain[i], y, chain[j]);
    } else if j == i + 1 {
      LinkOf(p, q, chain[i], y, chain[i]);
    } else {
      LinkedAt(p, chain, j - 1);
      LinkOf(p, q, chain[i], y, chain[j - 1]);
    }
  }

  lemma LinkedPut(p: map<PageId, Node>, q: map<PageId, Node>, chain: seq<PageId>, i: nat, y: PageId)
    requires Linked(p, chain) && i < |chain| && LinksKept(p, q, chain[i], y, true)
    ensures Linked(q, PutAfter(chain, i, y))
  {
    var s := PutAfter(chain, i, y);
    assert y !in chain;
    DistinctAfter(chain, i, y);
    SameLeaves(p, q, chain, chain[i], y, true);
    hide LinksKept, Distinct, PutAfter;
    forall j | 0 <= j < |s| ensures q[s[j]].next == NextIn(s, j) { LinkAfter(p, q, chain, i, y, j); }
  }

  lemma SameLeaves(p: map<PageId, Node>, q: map<PageId, Node>, chain: seq<PageId>, x: PageId, y: PageId, splits: bool)
    requires Linked(p, chain) && LinksKept(p, q, x, y, splits)
    ensures forall id :: id in q && q[id].LeafNode? <==> id in chain || (splits && id == y)
  {
  }

  lemma LinkedSame(p: map<PageId, Node>, q: map<PageId, Node>, chain: seq<PageId>, x: PageId, y: PageId)
    requires Linked(p, chain) && LinksKept(p, q, x, y, false)
    ensures Linked(q, chain)
  {
    SameLeaves(p, q, chain, x, y, false);
    forall i | 0 <= i < |chain| ensures q[chain[i]].next == NextIn(chain, i) { assert p[chain[i]].next == NextIn(chain, i); }
  }

  lemma {:induction false} LinkedAfter(p: map<PageId, Node>, q: map<PageId, Node>, chain: seq<PageId>, x: PageId, y: PageId, splits: bool)
    requires Linked(p, chain) && LinksKept(p, q, x, y, splits)
    ensures Linked(q, if splits then Spliced(chain, x, y) else chain)
  {
    if splits {
      assert x in chain;
      hide LinksKept, Linked, Spliced;
      var i := SplicedAt(chain, x, y);
      LinkedPut(p, q, chain, i, y);
    } else {
      LinkedSame(p, q, chain, x, y);
    }
  }

  lemma {:induction false} LeavesAre(pages: map<PageId, Node>, t: Tree)
    requires Nodes(pages, t)
    ensures Distinct(LeafIds(t)) && forall id :: id in LeafIds(t) <==> id in Foot(t) && id in pages && pages[id].LeafNode?
    decreases t, 0
  {
    if t.Branch? { LeavesOfAre(pages, t.kids); }
  }

  lemma {:induction false} LeavesOfAre(pages: map<PageId, Node>, kids: seq<Tree>)
    requires NodesOf(pages, kids)
    ensures Distinct(LeafIdsOf(kids)) && forall id :: id in LeafIdsOf(kids) <==> id in FootOf(kids) && id in pages && pages[id].LeafNode?
    decreases kids, 0
  {
    if kids != [] {
      LeavesAre(pages, kids[0]);
      LeavesOfAre(pages, kids[1..]);
      DistinctJoin(LeafIds(kids[0]), LeafIdsOf(kids[1..]));
    }
  }

  lemma DistinctJoin(a: seq<PageId>, b: seq<PageId>)
    requires Distinct(a) && Distinct(b) && forall x | x in a :: x !in b
    ensures Distinct(a + b)
  {
    forall i, j | 0 <= i < |a| && 0 <= j < |b| ensures a[i] != b[j] { assert a[i] in a && b[j] in b; }
    forall i, j | 0 <= i < j < |a + b| ensures (a + b)[i] != (a + b)[j] {
      if i < |a| <= j { assert a[i] != b[j - |a|]; }
    }
  }
}

module DuplicateTree {
  import opened Wrappers
  import opened BTreeShape
  import opened DuplicateKeys
  import opened DuplicateChain
  import opened DuplicateNodes

  /** The entries, in key order, equal keys in the order they were inserted in. */
  function Stable(es: seq<Entry>): seq<Entry> {
    if es == [] then [] else InsertAfter(Stable(es[..|es| - 1]), es[|es| - 1])
  }

  lemma {:induction false} StableMeans(es: seq<Entry>, k: Key)
    ensures Ordered(Stable(es), 0, KEY_END) && ValuesOf(Stable(es), k) == ValuesOf(es, k)
  {
    if es != [] {
      var init, e := es[..|es| - 1], es[|es| - 1];
      StableMeans(init, k);
      AfterOrdered(Stable(init), e, 0, KEY_END);
      KeepsOrder(Stable(init), e, k, 0, KEY_END);
      assert es == init + [e] && [e][1..] == [];
      ValuesConcat(init, [e], k);
    }
  }

  lemma InsertSize<T>(s: seq<T>, at: nat, x: T) requires at <= |s| ensures |InsertAt(s, at, x)| == |s| + 1 {}

  lemma InsertLow<T>(s: seq<T>, at: nat, x: T, c: nat)
    requires at < c <= |s| + 1
    ensures InsertAt(s, at, x)[..c] == InsertAt(s[..c - 1], at, x) && InsertAt(s, at, x)[c..] == s[c - 1..]
  {
  }

  lemma InsertHigh<T>(s: seq<T>, at: nat, x: T, c: nat)
    requires c <= at <= |s|
    ensures InsertAt(s, at, x)[..c] == s[..c] && InsertAt(s, at, x)[c..] == InsertAt(s[c..], at - c, x)
  {
  }

  lemma CutAt(keys: seq<Key>, at: nat, sep: Key, c: nat)
    requires at <= |keys| && c <= |keys| && at != c
    ensures InsertAt(keys, at, sep)[c] == if at < c then keys[c - 1] else keys[c]
  {
  }

  /** A full node cut around separator `c`, the incoming one among its keys. */
  ghost predicate Halved(keys: seq<Key>, children: seq<PageId>, sep: Key, right: PageId, median: Key,
                         lk: seq<Key>, lc: seq<PageId>, rk: seq<Key>, rc: seq<PageId>)
    requires |keys| == INTERNAL_MAX && |children| == |keys| + 1
  {
    var at, c := RoutedAt(keys, sep), if sep < keys[|keys| / 2] then |keys| / 2 + 1 else |keys| / 2;
    HalvedAt(keys, children, sep, right, at, c, median, lk, lc, rk, rc)
  }

  ghost predicate HalvedAt(keys: seq<Key>, children: seq<PageId>, sep: Key, right: PageId, at: nat, c: nat, median: Key,
                           lk: seq<Key>, lc: seq<PageId>, rk: seq<Key>, rc: seq<PageId>)
    requires at <= |keys| && |children| == |keys| + 1 && c <= |keys|
  {
    var keys', children' := InsertAt(keys, at, sep), InsertAt(children, at + 1, right);
    && median == keys'[c] && lk == keys'[..c] && lc == children'[..c + 1] && rk == keys'[c + 1..] && rc == children'[c + 1..]
  }

  lemma HighParts(keys: seq<Key>, children: seq<PageId>, sep: Key, right: PageId, mid: nat, pos: nat)
    requires mid + 1 + pos <= |keys| && |children| == |keys| + 1
    ensures HalvedAt(keys, children, sep, right, mid + 1 + pos, mid, keys[mid], keys[..mid], children[..mid + 1],
                     InsertAt(keys[mid + 1..], pos, sep), InsertAt(children[mid + 1..], pos + 1, right))
  {
    InsertSize(keys, mid + 1 + pos, sep);
    InsertSize(children, mid + 2 + pos, right);
    hide InsertAt;
    InsertHigh(keys, mid + 1 + pos, sep, mid);
    InsertHigh(keys, mid + 1 + pos, sep, mid + 1);
    InsertHigh(children, mid + 2 + pos, right, mid + 1);
    CutAt(keys, mid + 1 + pos, sep, mid);
  }

  lemma LowParts(keys: seq<Key>, children: seq<PageId>, sep: Key, right: PageId, mid: nat, pos: nat)
    requires pos <= mid < |keys| && |children| == |keys| + 1
    ensures HalvedAt(keys, children, sep, right, pos, mid + 1, keys[mid], InsertAt(keys[..mid], pos, sep),
                     InsertAt(children[..mid + 1], pos + 1, right), keys[mid + 1..], children[mid + 1..])
  {
    InsertSize(keys, pos, sep);
    InsertSize(children, pos + 1, right);
    hide InsertAt;
    InsertLow(keys, pos, sep, mid + 1);
    InsertLow(keys, pos, sep, mid + 2);
    InsertLow(children, pos + 1, right, mid + 2);
    CutAt(keys, pos, sep, mid + 1);
  }

  lemma HalvedLow(keys: seq<Key>, children: seq<PageId>, sep: Key, right: PageId, pos: nat)
    requires |keys| == INTERNAL_MAX && |children| == |keys| + 1
    requires sep < keys[|keys| / 2] && pos == UpperBound(keys[..|keys| / 2], sep)
    ensures var mid := |keys| / 2;
            Halved(keys, children, sep, right, keys[mid], InsertAt(keys[..mid], pos, sep), InsertAt(children[..mid + 1], pos + 1, right),
                   keys[mid + 1..], children[mid + 1..])
  {
    var mid := |keys| / 2;
    LowParts(keys, children, sep, right, mid, pos);
    hide HalvedAt, UpperBound;
    assert RoutedAt(keys, sep) == pos;
  }

  lemma HalvedHigh(keys: seq<Key>, children: seq<PageId>, sep: Key, right: PageId, pos: nat)
    requires |keys| == INTERNAL_MAX && |children| == |keys| + 1
    requires sep >= keys[|keys| / 2] && pos == UpperBound(keys[|keys| / 2 + 1..], sep)
    ensures var mid := |keys| / 2;
            Halved(keys, children, sep, right, keys[mid], keys[..mid], children[..mid + 1],
                   InsertAt(keys[mid + 1..], pos, sep), InsertAt(children[mid + 1..], pos + 1, right))
  {
    var mid := |keys| / 2;
    HighParts(keys, children, sep, right, mid, pos);
    hide HalvedAt, UpperBound;
    assert RoutedAt(keys, sep) == mid + 1 + pos;
  }

  class NonUniqueTree {
    var pages: map<PageId, Node>
    var free: seq<PageId>
    var pageCount: nat
    var root: PageId

    ghost var tree: Tree
    ghost var height: nat
    // The leaves as they are linked, and every entry inserted so far.
    ghost var chain: seq<PageId>
    ghost var inserted: seq<Entry>
    // Whether every separator so far went strictly below the next one.
    ghost var strict: bool

    ghost predicate PoolOk() reads `pages, `free, `pageCount {
      && pageCount >= 1
      && (forall id | id in pages :: 0 < id < pageCount)
      && (forall i | 0 <= i < |free| :: 0 < free[i] < pageCount && free[i] !in pages)
      && (forall i, j | 0 <= i < j < |free| :: free[i] != free[j])
    }

    ghost predicate Valid() reads this {
      && PoolOk() && tree.id == root && Nodes(pages, tree) && Foot(tree) == pages.Keys && Shape(tree, height)
      && Linked(pages, chain)
      && (strict ==> Sound(tree, height, 0, KEY_END) && chain == LeafIds(tree) && Entries(tree) == Stable(inserted))
    }

    constructor ()
      ensures Valid() && strict && inserted == [] && tree == Leaf(root, []) && chain == [root]
    {
      pages, free, pageCount, root := map[1 := LeafNode([], NULL_PAGE)], [], 2, 1;
      tree, height, chain, inserted, strict := Leaf(1, []), 0, [1], [], true;
    }

    method AllocatePage() returns (id: PageId)
      requires PoolOk()
      modifies this`free, this`pageCount
      ensures PoolOk() && id !in pages && id != NULL_PAGE && id < pageCount && id !in free
    {
      if free != [] {
        id := free[0];
        free := free[1..];
      } else {
        id := pageCount;
        pageCount := pageCount + 1;
      }
    }

    method WritePage(id: PageId, node: Node)
      requires PoolOk() && (id in pages || (0 < id < pageCount && id !in free))
      modifies this`pages
      ensures PoolOk() && pages == old(pages)[id := node]
    {
      pages := pages[id := node];
    }

    /** The first key after `k`, by halving. */
    static method ChildIndexFor(keys: seq<Key>, k: Key) returns (i: nat)
      ensures i == UpperBound(keys, k)
    {
      var lo, hi := 0, |keys|;
      while lo < hi
        invariant lo <= hi <= |keys|
        invariant FirstAbove(keys, k, lo, hi) == UpperBound(keys, k)
      {
        var mid := (lo + hi) / 2;
        if keys[mid] <= k { lo := mid + 1; } else { hi := mid; }
      }
      i := lo;
    }

    method InsertLeaf(nodeId: PageId, es: seq<Entry>, next: PageId, e: Entry, ghost t: Tree)
        returns (split: Option<Split>, ghost ids: seq<PageId>)
      requires PoolOk() && t == Leaf(nodeId, es) && nodeId in pages && pages[nodeId] == LeafNode(es, next)
      requires |es| <= LEAF_MAX
      modifies this`pages, this`free, this`pageCount
      ensures PoolOk() && |ids| == 1 && Became(old(pages), pages, t, Inserted(t, e, ids), split)
      ensures LinksKept(old(pages), pages, nodeId, ids[0], |es| >= LEAF_MAX) && ids[0] !in old(pages)
    {
      ghost var p := pages;
      if |es| < LEAF_MAX {
        hide Became, UpperBound;
        var i := ChildIndexFor(KeysOf(es), e.key);
        WritePage(nodeId, LeafNode(InsertAt(es, i, e), next));
        split, ids := None, [NULL_PAGE];
        BecameLeaf(p, pages, t, e, ids, split);
      } else {
        hide Became, UpperBound, InsertAt;
        var rightId := AllocatePage();
        var left, right := SplitEntries(es, e);
        WritePage(nodeId, LeafNode(left, rightId));
        WritePage(rightId, LeafNode(right, next));
        split, ids := Some(Split(right[0].key, rightId)), [rightId];
        BecameLeaf(p, pages, t, e, ids, split);
      }
    }

    /** A full leaf's entries and one more, in two leaves. */
    static method SplitEntries(es: seq<Entry>, e: Entry) returns (left: seq<Entry>, right: seq<Entry>)
      requires |es| == LEAF_MAX
      ensures right != [] && forall id, y :: LeafInserted(id, es, e, y) == Two(Leaf(id, left), right[0].key, Leaf(y, right))
    {
      hide UpperBound;
      var mid := |es| / 2;
      left, right := es[..mid], es[mid..];
      if e.key < right[0].key {
        var i := ChildIndexFor(KeysOf(left), e.key);
        left := InsertAt(left, i, e);
      } else {
        var i := ChildIndexFor(KeysOf(right), e.key);
        right := InsertAt(right, i, e);
      }
    }

    static method SplitInternal(keys: seq<Key>, children: seq<PageId>, sep: Key, right: PageId)
        returns (median: Key, leftKeys: seq<Key>, leftChildren: seq<PageId>, rightKeys: seq<Key>, rightChildren: seq<PageId>)
      requires |keys| == INTERNAL_MAX && |children| == |keys| + 1
      ensures Halved(keys, children, sep, right, median, leftKeys, leftChildren, rightKeys, rightChildren)
    {
      hide Halved, RoutedAt;
      var mid := |keys| / 2;
      median := keys[mid];
      leftKeys, leftChildren := keys[..mid], children[..mid + 1];
      rightKeys, rightChildren := keys[mid + 1..], children[mid + 1..];
      if sep < median {
        var pos := ChildIndexFor(leftKeys, sep);
        HalvedLow(keys, children, sep, right, pos);
        leftKeys, leftChildren := InsertAt(leftKeys, pos, sep), InsertAt(leftChildren, pos + 1, right);
      } else {
        var pos := ChildIndexFor(rightKeys, sep);
        HalvedHigh(keys, children, sep, right, pos);
        rightKeys, rightChildren := InsertAt(rightKeys, pos, sep), InsertAt(rightChildren, pos + 1, right);
      }
    }

    method InsertRec(nodeId: PageId, e: Entry, ghost t: Tree, ghost h: nat) returns (split: Option<Split>, ghost ids: seq<PageId>)
      requires PoolOk() && Nodes(pages, t) && Shape(t, h) && t.id == nodeId
      modifies this`pages, this`free, this`pageCount
      ensures PoolOk() && |ids| == h + 1 && Became(old(pages), pages, t, Inserted(t, e, ids), split)
      ensures LinksKept(old(pages), pages, Landing(t, e).id, ids[0], LeafSplits(t, e)) && ids[0] !in old(pages)
      decreases h
    {
      hide Became, LinksKept, RoutedAt, SplitBranch;
      match pages[nodeId]
      case LeafNode(es, next) =>
        split, ids := InsertLeaf(nodeId, es, next, e, t);
      case InternalNode(keys, children) =>
        var ci := ChildIndexFor(keys, e.key);
        ghost var kid := t.kids[ci];
        ghost var p := pages;
        KidHere(pages, t, h, ci);
        var childSplit;
        ghost var below;
        childSplit, below := InsertRec(children[ci], e, kid, h - 1);
        split, ids := InstallChild(nodeId, keys, children, ci, childSplit, e, t, h, below, p);
    }

    /** A full node, a child of which has split. */
    method SplitNode(nodeId: PageId, keys: seq<Key>, children: seq<PageId>, ghost ci: nat, s: Split,
                     ghost t: Tree, ghost m: Placement, ghost p: map<PageId, Node>)
        returns (split: Option<Split>, ghost y: PageId)
      requires PoolOk() && Nodes(p, t) && t.Branch? && t.id == nodeId && |keys| == INTERNAL_MAX && nodeId in pages
      requires keys == t.keys && children == Ids(t.kids) && ci < |t.kids| == |t.keys| + 1 && pages[nodeId].InternalNode?
      requires m.Two? && s == Split(m.sep, m.right.id) && Became(p, pages, t.kids[ci], m, Some(s))
      modifies this`pages, this`free, this`pageCount
      ensures PoolOk() && Became(p, pages, t, SplitBranch(t, ci, m.left, m.sep, m.right, y), split)
      ensures old(pages).Keys <= pages.Keys
      ensures forall id | id in pages :: (id in old(pages) && pages[id] == old(pages)[id]) || (pages[id].InternalNode? && (id in old(pages) ==> id == nodeId))
    {
      ghost var q := pages;
      assert m.left.id == t.kids[ci].id;
      hide Became, RoutedAt, SplitBranch, Nodes;
      var rightId := AllocatePage();
      y := rightId;
      var median, leftKeys, leftChildren, rightKeys, rightChildren := SplitInternal(keys, children, s.sepKey, s.right);
      WritePage(nodeId, InternalNode(leftKeys, leftChildren));
      WritePage(rightId, InternalNode(rightKeys, rightChildren));
      split := Some(Split(median, rightId));
      SplitPages(t, ci, m.left, m.sep, m.right, rightId);
      BecameSplit(p, q, pages, t, ci, m, Some(s), rightId);
    }

    /** What a child's insertion makes of its parent. */
    method InstallChild(nodeId: PageId, keys: seq<Key>, children: seq<PageId>, ci: nat, childSplit: Option<Split>, e: Entry,
                        ghost t: Tree, ghost h: nat, ghost below: seq<PageId>, ghost p: map<PageId, Node>)
        returns (split: Option<Split>, ghost ids: seq<PageId>)
      requires PoolOk() && Nodes(p, t) && Shape(t, h) && t.Branch? && t.id == nodeId
      requires keys == t.keys && children == Ids(t.kids) && ci == UpperBound(keys, e.key) < |t.kids|
      requires |below| == h && Became(p, pages, t.kids[ci], Inserted(t.kids[ci], e, below), childSplit)
      requires LinksKept(p, pages, Landing(t.kids[ci], e).id, below[0], LeafSplits(t.kids[ci], e)) && below[0] !in p
      modifies this`pages, this`free, this`pageCount
      ensures PoolOk() && |ids| == h + 1 && Became(p, pages, t, Inserted(t, e, ids), split)
      ensures LinksKept(p, pages, Landing(t, e).id, ids[0], LeafSplits(t, e)) && ids[0] !in p
    {
      ghost var q, m := pages, Inserted(t.kids[ci], e, below);
      ChildFacts(p, q, t, ci, m, childSplit);
      BranchSizes(t, h);
      hide *;
      match childSplit
      case None =>
        split, ids := None, below + [NULL_PAGE];
        BecameJoined(p, q, q, t, ci, m, childSplit);
      case Some(s) =>
        if |keys| < INTERNAL_MAX {
          var node := InternalNode(InsertAt(keys, ci, s.sepKey), InsertAt(children, ci + 1, s.right));
          WritePage(nodeId, node);
          split, ids := None, below + [NULL_PAGE];
          BecameJoined(p, q, pages, t, ci, m, childSplit);
          LinksInstalled(p, q, nodeId, node, Landing(t.kids[ci], e).id, below[0], LeafSplits(t.kids[ci], e));
        } else {
          ghost var y;
          split, y := SplitNode(nodeId, keys, children, ci, s, t, m, p);
          ids := below + [y];
          LinksThen(p, q, pages, Landing(t.kids[ci], e).id, below[0], LeafSplits(t.kids[ci], e));
        }
      InsertBranch(t, h, e, ci, below, ids[h]);
      assert ids == below + [ids[h]];
    }

    /** The root splits last, and has a new one above it. */
    method InsertPages(e: Entry) returns (ghost ids: seq<PageId>)
      requires PoolOk() && tree.id == root && Nodes(pages, tree) && Foot(tree) == pages.Keys && Shape(tree, height)
      modifies this`pages, this`free, this`pageCount, this`root, this`tree, this`height
      ensures PoolOk() && tree.id == root && Nodes(pages, tree) && Foot(tree) == pages.Keys && Shape(tree, height)
      ensures |ids| == old(height) + 2 && tree == InsertRoot(old(tree), e, ids) && ids[0] !in old(pages)
      ensures LinksKept(old(pages), pages, Landing(old(tree), e).id, ids[0], LeafSplits(old(tree), e))
    {
      hide Became, LinksKept, RoutedAt, SplitBranch, Shape, Nodes, Inserted, Landing, LeafSplits, InsertRoot, Foot;
      ghost var t, h, p := tree, height, pages;
      var split;
      ghost var below;
      split, below := InsertRec(root, e, tree, height);
      ghost var q := pages;
      ghost var y := NULL_PAGE;
      if split.Some? {
        var newRoot := AllocatePage();
        WritePage(newRoot, InternalNode([split.value.sepKey], [root, split.value.right]));
        root, height, y := newRoot, height + 1, newRoot;
      }
      ids := below + [y];
      tree := InsertRoot(t, e, ids);
      RootBecame(p, q, pages, t, h, e, below, split, y);
      RootLinks(p, q, pages, Landing(t, e).id, ids[0], LeafSplits(t, e), y, if y in pages then pages[y] else InternalNode([], []));
    }

    /** Insert an entry, after those with its key. As long as every separator that entered a
        full node went strictly below the next one there, the leaves stay linked in the
        tree's order; and the first time one does not, they do not. */
    method Insert(key: Key, value: Value) returns (ghost ids: seq<PageId>)
      requires Valid()
      modifies this
      ensures Valid() && inserted == old(inserted) + [Entry(key, value)]
      ensures |ids| == old(height) + 2 && tree == InsertRoot(old(tree), Entry(key, value), ids)
      ensures chain == ChainAfter(old(chain), old(tree), Entry(key, value), ids[0]) && ids[0] !in old(chain)
      ensures strict == (old(strict) && StrictlyRouted(old(tree), Entry(key, value), Lower(ids)))
      ensures old(strict) ==> (chain == LeafIds(tree) <==> strict)
    {
      hide LinksKept, Shape, Nodes, Sound, StrictlyRouted, Linked, Landing, LeafSplits, ChainAfter, InsertRoot, Stable, LeafIds, Foot;
      var e := Entry(key, value);
      ghost var t, h, p := tree, height, pages;
      ids := InsertPages(e);
      LinkedAfter(p, pages, chain, Landing(t, e).id, ids[0], LeafSplits(t, e));
      LeavesLinked(p, t, chain);
      ChainAfterIs(chain, t, e, ids[0]);
      if strict { StrictStep(t, h, height, e, ids, chain, inserted); }
      chain := ChainAfter(chain, t, e, ids[0]);
      strict := strict && StrictlyRouted(t, e, Lower(ids));
      inserted := inserted + [e];
    }

    /** The first key not below `k`, by halving. */
    static method FirstChildFor(keys: seq<Key>, k: Key) returns (i: nat)
      ensures i == LowerBound(keys, k)
    {
      var lo, hi := 0, |keys|;
      while lo < hi
        invariant lo <= hi <= |keys|
        invariant FirstNotBelow(keys, k, lo, hi) == LowerBound(keys, k)
      {
        var mid := (lo + hi) / 2;
        if keys[mid] < k { lo := mid + 1; } else { hi := mid; }
      }
      i := lo;
    }

    /** Down to the leftmost leaf that can hold `lo`. */
    method Seek(lo: Key) returns (id: PageId)
      requires Valid()
      ensures var l := SeekLeaf(tree, lo); l.Leaf? && l.id == id
      ensures id in pages && pages[id].LeafNode? && pages[id].entries == SeekLeaf(tree, lo).entries
    {
      id := root;
      ghost var cur, h := tree, height;
      while pages[id].InternalNode?
        invariant Nodes(pages, cur) && Shape(cur, h) && cur.id == id
        invariant SeekLeaf(tree, lo) == SeekLeaf(cur, lo)
        decreases h
      {
        var keys, children := pages[id].keys, pages[id].children;
        var i := FirstChildFor(keys, lo);
        KidHere(pages, cur, h, i);
        id := children[i];
        cur, h := cur.kids[i], h - 1;
      }
    }

    /** Read the index from `lo` on: the leaf that may hold it, then every leaf linked after
        that one. As long as the run was strict these are all the entries at or after `lo`,
        in order, equal keys as they were inserted. */
    method Scan(lo: Key) returns (out: seq<Entry>)
      requires Valid()
      ensures var l := SeekLeaf(tree, lo);
              l.Leaf? && out == FromKey(l.entries, lo) + ChainEntries(pages, AfterIn(chain, l.id))
      ensures strict ==> out == FromKey(Stable(inserted), lo)
    {
      hide Nodes, Shape, Sound, Foot, SeekLeaf, Stable, Linked, Below, AtOrAfter;
      var id := Seek(lo);
      ghost var l := SeekLeaf(tree, lo);
      var es := pages[id].entries;
      var i := FirstChildFor(KeysOf(es), lo);
      out := es[i..];
      ghost var first := out;
      ChainHas(pages, chain, id);
      ghost var j := AfterAt(chain, id);
      LinkedAt(pages, chain, j);
      var next := pages[id].next;
      ghost var n := j + 1;
      while next != NULL_PAGE
        invariant n <= |chain| && next == (if n < |chain| then chain[n] else NULL_PAGE)
        invariant out + ChainEntries(pages, chain[n..]) == first + ChainEntries(pages, AfterIn(chain, id))
        decreases |chain| - n
      {
        LinkedAt(pages, chain, n);
        ChainNext(pages, chain, n);
        OneMore(out, pages[next].entries, ChainEntries(pages, chain[n + 1..]));
        out := out + pages[next].entries;
        next := pages[next].next;
        n := n + 1;
      }
      ChainEnded(pages, chain, n);
      assert out + [] == out;
      if strict {
        hide ChainEntries, AfterIn;
        LandChain(pages, tree, height, lo);
        LandsFirst(tree, height, 0, KEY_END, lo);
        FromKeyIs(Land(tree, lo).0, Land(tree, lo).1, lo);
      }
    }
  }

  function FromKey(es: seq<Entry>, k: Key): seq<Entry> { es[LowerBound(KeysOf(es), k)..] }

  lemma FromKeyIs(before: seq<Entry>, from: seq<Entry>, k: Key)
    requires Below(before, k) && AtOrAfter(from, k)
    ensures FromKey(before + from, k) == from
  {
    var es := before + from;
    assert forall i | 0 <= i < |es| :: KeysOf(es)[i] == es[i].key;
    LowerBoundIs(KeysOf(es), k, |before|);
  }

  /** Of entries in order, those at or after a key: all of them, and no other. */
  lemma {:induction false} FromKeyMeans(es: seq<Entry>, lo: Key, k: Key)
    requires Ordered(es, 0, KEY_END)
    ensures Ordered(FromKey(es, lo), lo, KEY_END)
    ensures ValuesOf(FromKey(es, lo), k) == if k >= lo then ValuesOf(es, k) else []
  {
    var n := LowerBound(KeysOf(es), lo);
    CutMeans(es, lo, n);
    hide LowerBound, KeysOf, Ordered;
    assert es == es[..n] + es[n..];
    ValuesConcat(es[..n], es[n..], k);
    if k >= lo { NoValues(es[..n], k); } else { NoValues(es[n..], k); }
  }

  lemma CutMeans(es: seq<Entry>, lo: Key, n: nat)
    requires Ordered(es, 0, KEY_END) && n == LowerBound(KeysOf(es), lo)
    ensures n <= |es| && Ordered(es[n..], lo, KEY_END)
    ensures (forall i | 0 <= i < n :: es[..n][i].key < lo) && forall i | 0 <= i < |es| - n :: es[n..][i].key >= lo
  {
    hide LowerBound;
    var keys := KeysOf(es);
    assert n > 0 ==> keys[n - 1] == es[n - 1].key;
    assert n < |es| ==> keys[n] == es[n].key;
  }

  /** The entries at or after a key as a strict run has them: in key order, and under each key
      every value inserted under it, in the order they were. */
  lemma {:induction false} ScanMeans(inserted: seq<Entry>, lo: Key, k: Key)
    ensures Ordered(FromKey(Stable(inserted), lo), lo, KEY_END)
    ensures ValuesOf(FromKey(Stable(inserted), lo), k) == if k >= lo then ValuesOf(inserted, k) else []
  {
    StableMeans(inserted, k);
    FromKeyMeans(Stable(inserted), lo, k);
  }

  /** The leaf a search by the leftmost child reaches. */
  function SeekLeaf(t: Tree, k: Key): Tree {
    match t
    case Leaf(_, _) => t
    case Branch(_, keys, kids) => if |kids| != |keys| + 1 then t else SeekLeaf(kids[LowerBound(keys, k)], k)
  }

  /** The ids linked after `x`. */
  function AfterIn(ids: seq<PageId>, x: PageId): seq<PageId> {
    if ids == [] then [] else if ids[0] == x then ids[1..] else AfterIn(ids[1..], x)
  }

  function ChainEntries(pages: map<PageId, Node>, ids: seq<PageId>): seq<Entry> {
    if ids == [] then []
    else (if ids[0] in pages && pages[ids[0]].LeafNode? then pages[ids[0]].entries else []) + ChainEntries(pages, ids[1..])
  }

  lemma ChainHas(pages: map<PageId, Node>, chain: seq<PageId>, id: PageId)
    requires Linked(pages, chain) && id in pages && pages[id].LeafNode?
    ensures id in chain
  {
  }

  lemma {:induction false} AfterAt(ids: seq<PageId>, x: PageId) returns (j: nat)
    requires x in ids
    ensures j < |ids| && ids[j] == x && AfterIn(ids, x) == ids[j + 1..]
  {
    if ids[0] == x {
      j := 0;
    } else {
      var i := AfterAt(ids[1..], x);
      j := i + 1;
    }
  }

  lemma {:induction false} ChainNext(pages: map<PageId, Node>, chain: seq<PageId>, n: nat)
    requires n < |chain| && chain[n] in pages && pages[chain[n]].LeafNode?
    ensures ChainEntries(pages, chain[n..]) == pages[chain[n]].entries + ChainEntries(pages, chain[n + 1..])
  {
    assert chain[n..][1..] == chain[n + 1..];
  }

  lemma OneMore<T>(a: seq<T>, b: seq<T>, c: seq<T>) ensures a + (b + c) == (a + b) + c {}

  lemma {:induction false} ChainEnded(pages: map<PageId, Node>, chain: seq<PageId>, n: nat)
    requires Linked(pages, chain) && n <= |chain| && (n < |chain| ==> chain[n] == NULL_PAGE) && NULL_PAGE !in pages
    ensures n == |chain| && ChainEntries(pages, chain[n..]) == []
  {
    if n < |chain| {
      LinkedAt(pages, chain, n);
      assert false;
    }
  }

  // ---- the chain of a tree in order ----

  lemma {:induction false} ChainConcat(pages: map<PageId, Node>, a: seq<PageId>, b: seq<PageId>)
    ensures ChainEntries(pages, a + b) == ChainEntries(pages, a) + ChainEntries(pages, b)
  {
    if a == [] {
      assert a + b == b;
    } else {
      ChainConcat(pages, a[1..], b);
      assert (a + b)[1..] == a[1..] + b;
      var first := if a[0] in pages && pages[a[0]].LeafNode? then pages[a[0]].entries else [];
      OneMore(first, ChainEntries(pages, a[1..]), ChainEntries(pages, b));
    }
  }

  lemma {:induction false} ChainHolds(pages: map<PageId, Node>, t: Tree)
    requires Nodes(pages, t)
    ensures ChainEntries(pages, LeafIds(t)) == Entries(t)
    decreases t, 0
  {
    if t.Branch? { ChainHoldsAll(pages, t.kids); }
    else { assert ChainEntries(pages, [t.id][1..]) == []; }
  }

  lemma {:induction false} ChainHoldsAll(pages: map<PageId, Node>, kids: seq<Tree>)
    requires NodesOf(pages, kids)
    ensures ChainEntries(pages, LeafIdsOf(kids)) == Flat(kids)
    decreases kids, 0
  {
    if kids != [] {
      ChainHolds(pages, kids[0]);
      ChainHoldsAll(pages, kids[1..]);
      ChainConcat(pages, LeafIds(kids[0]), LeafIdsOf(kids[1..]));
    }
  }

  lemma {:induction false} AfterInMiddle(a: seq<PageId>, b: seq<PageId>, c: seq<PageId>, x: PageId)
    requires x in b && x !in a
    ensures AfterIn(a + b + c, x) == AfterIn(b, x) + c
  {
    if a != [] {
      AfterInMiddle(a[1..], b, c, x);
      assert (a + b + c)[1..] == a[1..] + b + c;
    } else if b[0] == x {
      assert (a + b + c)[1..] == b[1..] + c;
    } else {
      AfterInMiddle([], b[1..], c, x);
      assert (a + b + c)[1..] == [] + b[1..] + c;
    }
  }

  /** Where a search lands in the tree is where it starts along the chain. */
  lemma {:induction false} LandChain(pages: map<PageId, Node>, t: Tree, h: nat, k: Key)
    requires Nodes(pages, t) && Shape(t, h)
    ensures var l := SeekLeaf(t, k);
            && l.Leaf? && l.id in LeafIds(t)
            && Land(t, k).1 == FromKey(l.entries, k) + ChainEntries(pages, AfterIn(LeafIds(t), l.id))
    decreases h
  {
    if t.Branch? {
      var i := LowerBound(t.keys, k);
      NodesParts(pages, t.kids, i);
      LeavesAre(pages, t);
      hide Nodes, Foot, FootOf;
      LandChain(pages, t.kids[i], h - 1, k);
      hide Shape;
      LandBranch(pages, t, i, k);
    } else {
      assert AfterIn([t.id], t.id) == [];
    }
  }

  lemma {:induction false} LandBranch(pages: map<PageId, Node>, t: Tree, i: nat, k: Key)
    requires t.Branch? && |t.kids| == |t.keys| + 1 && i == LowerBound(t.keys, k) && NodesOf(pages, t.kids[i + 1..]) && Distinct(LeafIds(t))
    requires var l := SeekLeaf(t.kids[i], k);
             && l.Leaf? && l.id in LeafIds(t.kids[i])
             && Land(t.kids[i], k).1 == FromKey(l.entries, k) + ChainEntries(pages, AfterIn(LeafIds(t.kids[i]), l.id))
    ensures var l := SeekLeaf(t, k);
            && l.Leaf? && l.id in LeafIds(t)
            && Land(t, k).1 == FromKey(l.entries, k) + ChainEntries(pages, AfterIn(LeafIds(t), l.id))
  {
    var l, a, b, c := SeekLeaf(t.kids[i], k), LeafIdsOf(t.kids[..i]), LeafIds(t.kids[i]), LeafIdsOf(t.kids[i + 1..]);
    LeafIdsParts(t.kids, i);
    Apart(a, b, c);
    AfterInMiddle(a, b, c, l.id);
    ChainConcat(pages, AfterIn(b, l.id), c);
    ChainHoldsAll(pages, t.kids[i + 1..]);
    OneMore(FromKey(l.entries, k), ChainEntries(pages, AfterIn(b, l.id)), Flat(t.kids[i + 1..]));
  }

  lemma LinksInstalled(p: map<PageId, Node>, q: map<PageId, Node>, id: PageId, n: Node, x: PageId, y: PageId, splits: bool)
    requires LinksKept(p, q, x, y, splits) && id in q && q[id].InternalNode? && n.InternalNode?
    ensures LinksKept(p, q[id := n], x, y, splits)
  {
    LinksThen(p, q, q[id := n], x, y, splits);
  }

  lemma RootLinks(p: map<PageId, Node>, q: map<PageId, Node>, q': map<PageId, Node>, x: PageId, z: PageId, splits: bool, y: PageId, n: Node)
    requires LinksKept(p, q, x, z, splits) && (q' == q || (y !in q && n.InternalNode? && q' == q[y := n]))
    ensures LinksKept(p, q', x, z, splits)
  {
    LinksThen(p, q, q', x, z, splits);
  }

  lemma {:induction false} LeavesLinked(pages: map<PageId, Node>, t: Tree, chain: seq<PageId>)
    requires Nodes(pages, t) && Linked(pages, chain) && Foot(t) == pages.Keys
    ensures Distinct(chain) && Distinct(LeafIds(t)) && forall id :: (id in chain <==> id in LeafIds(t)) && (id in chain ==> id in pages)
  {
    LeavesAre(pages, t);
  }

  lemma {:induction false} ChainAfterIs(chain: seq<PageId>, t: Tree, e: Entry, y: PageId)
    ensures ChainAfter(chain, t, e, y) == if LeafSplits(t, e) then Spliced(chain, Landing(t, e).id, y) else chain
  {
  }

  /** The root's page after an insertion: a root that split has a new one above it. */
  lemma RootBecame(p: map<PageId, Node>, q: map<PageId, Node>, q': map<PageId, Node>, t: Tree, h: nat, e: Entry,
                   below: seq<PageId>, split: Option<Split>, y: PageId)
    requires Nodes(p, t) && Foot(t) == p.Keys && Shape(t, h) && Became(p, q, t, Inserted(t, e, below), split)
    requires split.None? ==> q' == q
    requires split.Some? ==> y !in q && q' == q[y := InternalNode([split.value.sepKey], [t.id, split.value.right])]
    ensures var t' := InsertRoot(t, e, below + [y]);
            Nodes(q', t') && Foot(t') == q'.Keys && t'.id == (if split.None? then t.id else y) && Shape(t', if split.None? then h else h + 1)
  {
    var ids, m := below + [y], Inserted(t, e, below);
    assert Lower(ids) == below && Top(ids) == y;
    InsertShape(t, h, e, below);
    hide Inserted, Nodes, Foot, Shape;
    match m
    case One(_) =>
    case Two(l, sep, r) => RootSplit(q, q', t.id, h, l, sep, r, y);
  }

  lemma RootSplit(q: map<PageId, Node>, q': map<PageId, Node>, id: PageId, h: nat, l: Tree, sep: Key, r: Tree, y: PageId)
    requires Nodes(q, l) && Nodes(q, r) && Foot(l) !! Foot(r) && Foot(l) + Foot(r) == q.Keys && l.id == id
    requires Shape(l, h) && Shape(r, h) && y !in q && q' == q[y := InternalNode([sep], [id, r.id])]
    ensures var t' := Branch(y, [sep], [l, r]);
            Nodes(q', t') && Foot(t') == q'.Keys && Shape(t', h + 1)
  {
    var kids := [l, r];
    assert kids == [l] + [r];
    hide Nodes, Foot, Shape;
    NodesOne(q, l);
    NodesOne(q, r);
    FootOne(l);
    FootOne(r);
    NodesConcat(q, [l], [r]);
    FootConcat([l], [r]);
    NodesOfFrame(q, q', kids);
    assert Ids(kids) == [id, r.id];
    NodesBranch(q', y, [sep], kids);
    BranchShape(y, [sep], kids, h + 1);
  }

  lemma {:induction false} StableNext(es: seq<Entry>, e: Entry) ensures Stable(es + [e]) == InsertAfter(Stable(es), e) {
    assert (es + [e])[..|es + [e]| - 1] == es;
  }

  /** What a run that has been strict so far comes to. */
  lemma {:induction false} StrictStep(t: Tree, h: nat, h': nat, e: Entry, ids: seq<PageId>, chain: seq<PageId>, inserted: seq<Entry>)
    requires Sound(t, h, 0, KEY_END) && chain == LeafIds(t) && Entries(t) == Stable(inserted) && Distinct(chain)
    requires |ids| == h + 2 && ids[0] !in chain && Shape(InsertRoot(t, e, ids), h')
    ensures ChainAfter(chain, t, e, ids[0]) == LeafIds(InsertRoot(t, e, ids)) <==> StrictlyRouted(t, e, Lower(ids))
    ensures StrictlyRouted(t, e, Lower(ids)) ==>
              Sound(InsertRoot(t, e, ids), h', 0, KEY_END) && Entries(InsertRoot(t, e, ids)) == Stable(inserted + [e])
  {
    hide *;
    RootChain(t, h, e, ids);
    StableNext(inserted, e);
    if StrictlyRouted(t, e, Lower(ids)) {
      RootSound(t, h, e, ids);
      SoundHeight(InsertRoot(t, e, ids), h, h');
    }
  }

  lemma SoundHeight(t: Tree, h: nat, h': nat)
    requires (Sound(t, h, 0, KEY_END) || Sound(t, h + 1, 0, KEY_END)) && Shape(t, h')
    ensures Sound(t, h', 0, KEY_END)
  {
    hide Sound, Shape;
    var k := if Sound(t, h, 0, KEY_END) then h else h + 1;
    SoundShape(t, k, 0, KEY_END);
    OneHeight(t, k, h');
  }

  lemma {:induction false} OneHeight(t: Tree, h: nat, h': nat)
    requires Shape(t, h) && Shape(t, h')
    ensures h == h'
    decreases h
  {
    if t.Branch? { OneHeight(t.kids[0], h - 1, h' - 1); }
  }

  /** An insertion, a level at a time. */
  lemma {:induction false} InsertBranch(t: Tree, h: nat, e: Entry, ci: nat, below: seq<PageId>, y: PageId)
    requires t.Branch? && |t.kids| == |t.keys| + 1 && |t.keys| <= INTERNAL_MAX && ci == UpperBound(t.keys, e.key) && |below| == h
    ensures var m, ids := Inserted(t.kids[ci], e, below), below + [y];
            && Inserted(t, e, ids) == (if m.One? || |t.keys| < INTERNAL_MAX then One(Joined(t, ci, m)) else SplitBranch(t, ci, m.left, m.sep, m.right, y))
            && Landing(t, e) == Landing(t.kids[ci], e) && (LeafSplits(t, e) <==> LeafSplits(t.kids[ci], e))
            && (h > 0 ==> ids[0] == below[0])
  {
    var ids := below + [y];
    assert Lower(ids) == below && Top(ids) == y;
    hide SplitBranch, Lower, Top;
  }

  lemma KidHere(pages: map<PageId, Node>, t: Tree, h: nat, ci: nat)
    requires Nodes(pages, t) && Shape(t, h) && t.Branch? && ci < |t.kids|
    ensures h > 0 && Nodes(pages, t.kids[ci]) && Shape(t.kids[ci], h - 1) && Ids(t.kids)[ci] == t.kids[ci].id
  {
    NodesParts(pages, t.kids, ci);
  }

  lemma {:induction false} BranchSizes(t: Tree, h: nat)
    requires t.Branch? && Shape(t, h)
    ensures h > 0 && |t.keys| <= INTERNAL_MAX && |t.kids| == |Ids(t.kids)| == |t.keys| + 1
  {
  }

  lemma {:induction false} ChildFacts(p: map<PageId, Node>, q: map<PageId, Node>, t: Tree, ci: nat, m: Placement, split: Option<Split>)
    requires Nodes(p, t) && t.Branch? && ci < |t.kids| && Became(p, q, t.kids[ci], m, split)
    ensures t.id in q && q[t.id] == InternalNode(t.keys, Ids(t.kids))
    ensures m.One? <==> split.None?
    ensures m.Two? ==> split == Some(Split(m.sep, m.right.id))
  {
    KidFacts(p, t, ci);
  }

  /** The pages of a full node's halves are those of the two nodes. */
  lemma SplitPages(t: Tree, ci: nat, l: Tree, sep: Key, r: Tree, y: PageId)
    requires t.Branch? && ci < |t.kids| == |t.keys| + 1 && |t.keys| == INTERNAL_MAX && l.id == t.kids[ci].id
    ensures var s := SplitBranch(t, ci, l, sep, r, y);
            && s.Two? && s.left.Branch? && s.right.Branch? && |Ids(t.kids)| == |t.keys| + 1
            && Halved(t.keys, Ids(t.kids), sep, r.id, s.sep, s.left.keys, Ids(s.left.kids), s.right.keys, Ids(s.right.kids))
  {
    hide RoutedAt;
    var at := RoutedAt(t.keys, sep);
    IdsReplaced(t.kids, ci, l);
    IdsInserted(t.kids[ci := l], at + 1, r);
  }
}
