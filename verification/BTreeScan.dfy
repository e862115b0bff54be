/** The chain of leaves under a tree, and reading it in order (src/btree.cpp:368-433). */
module BTreeScan {
  import opened Sequences
  import opened BTreeShape
  import opened BTreeContents

  function LeavesOf(kids: seq<Tree>): seq<Tree> {
    if kids == [] then [] else (if kids[0].Leaf? then [kids[0]] else LeavesOf(kids[0].kids)) + LeavesOf(kids[1..])
  }

  ghost predicate AllLeaves(kids: seq<Tree>) { forall i | 0 <= i < |kids| :: kids[i].Leaf? }

  /** The leaves under some siblings are chained in the order of their entries,
      from the first to whatever follows the last. */
  lemma {:induction false} LeafChain(pages: map<PageId, Node>, kids: seq<Tree>, succ: PageId)
    requires RepKids(pages, kids, succ)
    ensures RepKids(pages, LeavesOf(kids), succ) && AllLeaves(LeavesOf(kids)) && Flat(LeavesOf(kids)) == Flat(kids)
    ensures FirstOf(LeavesOf(kids), succ) == FirstOf(kids, succ) && FootOf(LeavesOf(kids)) <= FootOf(kids)
    ensures kids != [] ==> LeavesOf(kids) != []
    decreases kids
  {
    if kids != [] {
      var t, rest := kids[0], kids[1..];
      LeafChain(pages, rest, succ);
      var first := if t.Leaf? then [t] else LeavesOf(t.kids);
      if t.Leaf? {
        RepOne(pages, t, FirstOf(rest, succ));
        FlatOne(t);
        FootOne(t);
      } else {
        LeafChain(pages, t.kids, FirstOf(rest, succ));
      }
      JoinChains(pages, first, LeavesOf(rest), succ);
    }
  }

  lemma {:induction false} JoinChains(pages: map<PageId, Node>, a: seq<Tree>, b: seq<Tree>, succ: PageId)
    requires RepKids(pages, a, FirstOf(b, succ)) && RepKids(pages, b, succ) && FootOf(a) !! FootOf(b)
    ensures RepKids(pages, a + b, succ) && Flat(a + b) == Flat(a) + Flat(b) && FootOf(a + b) == FootOf(a) + FootOf(b)
  {
    RepConcat(pages, a, b, succ);
    FlatConcat(a, b);
    FootConcat(a, b);
  }

  /** A descent: the tree under `cur`, with the trees before and after it. */
  ghost predicate Descent(pages: map<PageId, Node>, all: seq<Entry>, before: seq<Entry>, cur: Tree, after: seq<Tree>) {
    RepKids(pages, [cur] + after, NULL_PAGE) && all == before + Entries(cur) + Flat(after)
  }

  /** One step down, to child `ci`. */
  lemma DescendTo(pages: map<PageId, Node>, all: seq<Entry>, before: seq<Entry>, cur: Tree, after: seq<Tree>, ci: nat)
    requires Descent(pages, all, before, cur, after) && cur.Branch? && ci < |cur.kids|
    ensures cur.id in pages && pages[cur.id] == InternalNode(cur.keys, Ids(cur.kids))
    ensures Descent(pages, all, before + Flat(cur.kids[..ci]), cur.kids[ci], cur.kids[ci + 1..] + after)
  {
    var a, c, b := cur.kids[..ci], cur.kids[ci], cur.kids[ci + 1..];
    RepConcat(pages, [cur], after, NULL_PAGE);
    RepOne(pages, cur, FirstOf(after, NULL_PAGE));
    FootOne(cur);
    hide RepKids, FootOf, Flat;
    assert cur.kids == a + [c] + b;
    RepThree(pages, a, [c], b, FirstOf(after, NULL_PAGE));
    RepConcat(pages, [c], b, FirstOf(after, NULL_PAGE));
    FootConcat([c], b);
    RepConcat(pages, [c] + b, after, NULL_PAGE);
    Assoc([c], b, after);
    FlatThree(cur.kids, ci);
    FlatConcat(b, after);
    Split4(before, Flat(a), Entries(c), Flat(b), Flat(after));
  }

  lemma Split4<T>(a: seq<T>, b: seq<T>, c: seq<T>, d: seq<T>, e: seq<T>)
    ensures a + (b + c + d) + e == (a + b) + c + (d + e)
  {
  }

  /** At the leaf the descent ends at. */
  lemma {:induction false} DescentEnds(pages: map<PageId, Node>, all: seq<Entry>, before: seq<Entry>, cur: Tree, after: seq<Tree>)
    requires Descent(pages, all, before, cur, after) && cur.Leaf?
    ensures cur.id in pages && pages[cur.id] == LeafNode(cur.entries, FirstOf(LeavesOf(after), NULL_PAGE))
    ensures RepKids(pages, LeavesOf(after), NULL_PAGE) && AllLeaves(LeavesOf(after)) && Flat(LeavesOf(after)) == Flat(after)
    ensures all == before + cur.entries + Flat(after)
  {
    RepConcat(pages, [cur], after, NULL_PAGE);
    RepOne(pages, cur, FirstOf(after, NULL_PAGE));
    LeafChain(pages, after, NULL_PAGE);
  }

  /** The chain of leaves under a whole tree holds exactly its entries, in order. */
  lemma {:induction false} WholeChain(pages: map<PageId, Node>, t: Tree)
    requires Rep(pages, t, NULL_PAGE)
    ensures Descent(pages, Entries(t), [], t, [])
  {
    RepOne(pages, t, NULL_PAGE);
    assert [t] + [] == [t];
    assert [] + Entries(t) + Flat([]) == Entries(t);
  }

  lemma DescentHere(pages: map<PageId, Node>, all: seq<Entry>, before: seq<Entry>, cur: Tree, after: seq<Tree>)
    requires Descent(pages, all, before, cur, after)
    ensures cur.id in pages
    ensures cur.Leaf? <==> pages[cur.id].LeafNode?
    ensures cur.Branch? ==> pages[cur.id] == InternalNode(cur.keys, Ids(cur.kids))
  {
    RepConcat(pages, [cur], after, NULL_PAGE);
    RepOne(pages, cur, FirstOf(after, NULL_PAGE));
  }

  /** Descending to the child `k` belongs to leaves nothing below it behind. */
  lemma SeekStep(cur: Tree, h: nat, lo: nat, hi: nat, ci: nat, k: Key, before: seq<Entry>, after: seq<Tree>)
    requires cur.Branch? && Good(cur, h, lo, hi) && ci <= |cur.keys|
    requires Bound(cur.keys, lo, hi, ci) <= k < Bound(cur.keys, lo, hi, ci + 1)
    requires AtLeast(before, k) == [] && AtLeast(Flat(after), k) == Flat(after)
    ensures AtLeast(before + Flat(cur.kids[..ci]), k) == []
    ensures AtLeast(Flat(cur.kids[ci + 1..] + after), k) == Flat(cur.kids[ci + 1..] + after)
  {
    ChildSides(cur.keys, cur.kids, h, lo, hi, ci, k);
    AtLeastConcat(before, Flat(cur.kids[..ci]), k);
    AtLeastAll(Flat(cur.kids[..ci]), k);
    FlatConcat(cur.kids[ci + 1..], after);
    AtLeastConcat(Flat(cur.kids[ci + 1..]), Flat(after), k);
    AtLeastAll(Flat(cur.kids[ci + 1..]), k);
  }

  /** At the leaf `k` belongs to, the scan starts at its first entry >= `k`. */
  lemma {:induction false} SeekEnds(all: seq<Entry>, before: seq<Entry>, es: seq<Entry>, rest: seq<Entry>, i: nat, k: Key)
    requires all == before + es + rest && i <= |es|
    requires AtLeast(before, k) == [] && AtLeast(rest, k) == rest
    requires (forall j | 0 <= j < i :: es[j].key < k) && (forall j | i <= j < |es| :: es[j].key >= k)
    ensures AtLeast(all, k) == es[i..] + rest
  {
    LeafAtLeast(es, i, k);
    AtLeastConcat(before + es, rest, k);
    AtLeastConcat(before, es, k);
    hide AtLeast;
    assert [] + es[i..] == es[i..];
  }

  lemma {:induction false} LeafAtLeast(es: seq<Entry>, i: nat, k: Key)
    requires i <= |es| && (forall j | 0 <= j < i :: es[j].key < k) && (forall j | i <= j < |es| :: es[j].key >= k)
    ensures AtLeast(es, k) == es[i..]
  {
    assert es == es[..i] + es[i..];
    AtLeastConcat(es[..i], es[i..], k);
    AtLeastAll(es[..i], k);
    AtLeastAll(es[i..], k);
  }

  /** A place in the chain: `idx` entries into `leaf`, with `after` still to come. */
  ghost predicate OnChain(pages: map<PageId, Node>, leafId: PageId, leaf: Node, idx: nat, after: seq<Tree>) {
    && leaf.LeafNode? && leafId != NULL_PAGE && idx <= |leaf.entries|
    && leaf.next == FirstOf(after, NULL_PAGE) && RepKids(pages, after, NULL_PAGE) && AllLeaves(after)
    && forall id | id in pages :: id != NULL_PAGE
  }

  function Unread(leafId: PageId, leaf: Node, idx: nat, after: seq<Tree>): seq<Entry> {
    if leafId != NULL_PAGE && leaf.LeafNode? && idx <= |leaf.entries| then leaf.entries[idx..] + Flat(after) else []
  }

  /** Walking the sibling chain from a leaf that has been read to its end. */
  lemma ChainStep(pages: map<PageId, Node>, leafId: PageId, leaf: Node, idx: nat, after: seq<Tree>)
    requires OnChain(pages, leafId, leaf, idx, after) && idx == |leaf.entries|
    ensures leaf.next == NULL_PAGE ==> Unread(leafId, leaf, idx, after) == []
    ensures leaf.next != NULL_PAGE ==>
              && leaf.next in pages && after != [] && OnChain(pages, leaf.next, pages[leaf.next], 0, after[1..])
              && Unread(leaf.next, pages[leaf.next], 0, after[1..]) == Unread(leafId, leaf, idx, after)
  {
    if after != [] {
      var t := after[0];
      assert t.Leaf? && Rep(pages, t, Next(after, 0, NULL_PAGE));
      assert Next(after, 0, NULL_PAGE) == FirstOf(after[1..], NULL_PAGE);
      assert pages[t.id] == LeafNode(t.entries, FirstOf(after[1..], NULL_PAGE)) && t.id == leaf.next;
      assert t.entries[0..] == t.entries;
      assert leaf.entries[idx..] + Flat(after) == Flat(after);
    }
  }

  lemma LastEntry(all: seq<Entry>, before: seq<Entry>, es: seq<Entry>)
    requires all == before + es + Flat([]) && (before == [] || es != [])
    ensures var last := if all == [] then [] else [all[|all| - 1]];
            (es == [] ==> last == es[0..] + Flat([])) && (es != [] ==> last == es[|es| - 1..] + Flat([]))
  {
  }

  /** A cursor opened where a descent ended. */
  lemma {:induction false} StartsOnChain(pages: map<PageId, Node>, all: seq<Entry>, before: seq<Entry>, cur: Tree, after: seq<Tree>, idx: nat)
    requires Descent(pages, all, before, cur, after) && cur.Leaf? && idx <= |cur.entries|
    requires forall id | id in pages :: id != NULL_PAGE
    ensures cur.id in pages && OnChain(pages, cur.id, pages[cur.id], idx, LeavesOf(after))
    ensures Unread(cur.id, pages[cur.id], idx, LeavesOf(after)) == cur.entries[idx..] + Flat(after)
  {
    DescentEnds(pages, all, before, cur, after);
    hide RepKids, Flat;
  }

  /** `cur` ends the tree: nothing lies right of it, and it is not empty unless the
      tree is. */
  ghost predicate RightEdge(pages: map<PageId, Node>, all: seq<Entry>, cur: Tree, h: nat) {
    && (exists lo: nat, hi: nat :: Good(cur, h, lo, hi))
    && (exists before :: Descent(pages, all, before, cur, []) && (before == [] || Half(cur)))
    && (forall id | id in pages :: id != NULL_PAGE)
  }

  lemma {:induction false} RightEdgeStart(pages: map<PageId, Node>, t: Tree, h: nat)
    requires Rep(pages, t, NULL_PAGE) && Good(t, h, 0, KEY_END) && forall id | id in pages :: id != NULL_PAGE
    ensures RightEdge(pages, Entries(t), t, h)
  {
    WholeChain(pages, t);
    hide Rep, Good, Descent;
    assert Good(t, h, 0, KEY_END);
  }

  lemma RightEdgeHere(pages: map<PageId, Node>, all: seq<Entry>, cur: Tree, h: nat)
    requires RightEdge(pages, all, cur, h)
    ensures cur.id in pages && (cur.Leaf? <==> pages[cur.id].LeafNode?)
    ensures cur.Branch? ==>
              && h > 0 && |cur.kids| == |cur.keys| + 1 && pages[cur.id] == InternalNode(cur.keys, Ids(cur.kids))
              && RightEdge(pages, all, cur.kids[|cur.keys|], h - 1)
    ensures cur.Leaf? ==>
              var idx := if cur.entries == [] then 0 else |cur.entries| - 1;
              && pages[cur.id].entries == cur.entries && OnChain(pages, cur.id, pages[cur.id], idx, [])
              && Unread(cur.id, pages[cur.id], idx, []) == if all == [] then [] else [all[|all| - 1]]
  {
    hide Good, Descent, OnChain, Unread, RepKids, Flat;
    var lo: nat, hi: nat :| Good(cur, h, lo, hi);
    var before :| Descent(pages, all, before, cur, []) && (before == [] || Half(cur));
    DescentHere(pages, all, before, cur, []);
    if cur.Branch? {
      RightChild(pages, all, before, cur, h, lo, hi);
    } else {
      DescentEnds(pages, all, before, cur, []);
      StartsOnChain(pages, all, before, cur, [], if cur.entries == [] then 0 else |cur.entries| - 1);
      LastEntry(all, before, cur.entries);
    }
  }

  lemma {:induction false} RightChild(pages: map<PageId, Node>, all: seq<Entry>, before: seq<Entry>, cur: Tree, h: nat, lo: nat, hi: nat)
    requires RightEdge(pages, all, cur, h) && Descent(pages, all, before, cur, []) && cur.Branch? && Good(cur, h, lo, hi)
    ensures h > 0 && |cur.kids| == |cur.keys| + 1 && RightEdge(pages, all, cur.kids[|cur.keys|], h - 1)
  {
    var n := |cur.keys|;
    assert |cur.kids| == n + 1;
    var c := cur.kids[n];
    assert Good(c, h - 1, Bound(cur.keys, lo, hi, n), Bound(cur.keys, lo, hi, n + 1)) && Half(c);
    hide Good, Descent;
    DescendTo(pages, all, before, cur, [], n);
    assert cur.kids[n + 1..] + [] == [];
  }
}
