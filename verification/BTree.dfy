/** The B+Tree (src/btree.cpp): a unique index, one node to a page. */
module BTreeIndex {
  import opened Wrappers
  import opened BTreeShape
  import opened BTreeContents
  import opened BTreeSplit
  import opened BTreeMerge
  import opened BTreeScan

  class BTree {
    var pages: map<PageId, Node>
    var free: seq<PageId>
    var pageCount: nat
    var root: PageId

    ghost var tree: Tree
    ghost var height: nat

    /** Every page is in the tree's file and not on the free list. */
    ghost predicate PoolOk() reads `pages, `free, `pageCount {
      && pageCount >= 1
      && (forall id | id in pages :: 0 < id < pageCount)
      && (forall i | 0 <= i < |free| :: 0 < free[i] < pageCount && free[i] !in pages)
      && (forall i, j | 0 <= i < j < |free| :: free[i] != free[j])
    }

    ghost predicate Valid() reads this {
      && PoolOk() && tree.id == root
      && Rep(pages, tree, NULL_PAGE) && Good(tree, height, 0, KEY_END) && Fits(tree)
      && (tree.Branch? ==> |tree.keys| >= 1)
    }

    ghost function Contents(): seq<Entry> reads this { Entries(tree) }

    /** The finite map the tree stands for. */
    ghost function Table(): map<Key, Value> reads this { AsMap(Entries(tree)) }

    /** What a change to the tree may do to the pages: only its own and newly
        allocated ones are written, and every page it no longer needs is freed. */
    twostate predicate OwnPages() reads this {
      Rewritten(old(pages), pages, Foot(old(tree)), First(old(tree)), [tree], NULL_PAGE)
    }

    method AllocatePage() returns (id: PageId)
      requires PoolOk()
      modifies this`pages, this`free, this`pageCount
      ensures PoolOk() && id !in old(pages) && id != NULL_PAGE
      ensures pages == old(pages)[id := LeafNode([], NULL_PAGE)]
    {
      if free != [] {
        id := free[0];
        free := free[1..];
      } else {
        id := pageCount;
        pageCount := pageCount + 1;
      }
      pages := pages[id := LeafNode([], NULL_PAGE)];
    }

    method FreePage(id: PageId)
      requires PoolOk() && id in pages
      modifies this`pages, this`free
      ensures PoolOk() && pages == old(pages) - {id} && free == [id] + old(free)
    {
      pages := pages - {id};
      free := [id] + free;
    }

    method WritePage(id: PageId, node: Node)
      requires PoolOk() && id in pages
      modifies this`pages
      ensures PoolOk() && pages == old(pages)[id := node]
    {
      pages := pages[id := node];
    }

    method InsertLeaf(nodeId: PageId, es: seq<Entry>, next: PageId, key: Key, value: Value, overwrite: bool,
                      ghost lo: nat, ghost hi: nat)
        returns (split: Option<Split>, inserted: bool, ghost m: seq<Tree>)
      requires PoolOk() && nodeId in pages && pages[nodeId] == LeafNode(es, next)
      requires SortedIn(es, lo, hi) && lo <= key < hi && |es| <= LEAF_MAX
      modifies this`pages, this`free, this`pageCount
      ensures PoolOk() && Rebuilt(old(pages), pages, Leaf(nodeId, es), m, next)
      ensures Placed(m, split, 0, lo, hi, |es|)
      ensures Flat(m) == (if HasKey(es, key) && !overwrite then es else Upsert(es, key, value))
      ensures inserted <==> !HasKey(es, key)
    {
      hide Upsert, HasKey, Rebuilt, Placed;
      ghost var t := Leaf(nodeId, es);
      var i := LowerBound(es, key);
      AtIndex(es, lo, hi, i, key, value);
      if i < |es| && es[i].key == key {
        var es' := es;
        if overwrite {
          es' := es[i := Entry(key, value)];
          WritePage(nodeId, LeafNode(es', next));
        }
        split, inserted, m := None, false, [Leaf(nodeId, es')];
        OneLeaf(old(pages), pages, t, es', next);
        OneLeafGood(t, es', lo, hi);
        return;
      }
      inserted := true;
      if |es| < LEAF_MAX {
        var es' := es[..i] + [Entry(key, value)] + es[i..];
        InsertSorted(es, i, Entry(key, value), lo, hi);
        WritePage(nodeId, LeafNode(es', next));
        split, m := None, [Leaf(nodeId, es')];
        OneLeaf(old(pages), pages, t, es', next);
        OneLeafGood(t, es', lo, hi);
        return;
      }
      split, m := SplitLeaf(nodeId, es, next, key, value, i, lo, hi);
    }

    /** A full leaf: split, then insert into the half the key belongs to. The
        separator is the right leaf's smallest key, and stays there. */
    method SplitLeaf(nodeId: PageId, es: seq<Entry>, next: PageId, key: Key, value: Value, ghost i: nat,
                     ghost lo: nat, ghost hi: nat)
        returns (split: Option<Split>, ghost m: seq<Tree>)
      requires PoolOk() && nodeId in pages && pages[nodeId] == LeafNode(es, next)
      requires SortedIn(es, lo, hi) && lo <= key < hi && |es| == LEAF_MAX && Gap(es, key, i)
      modifies this`pages, this`free, this`pageCount
      ensures PoolOk() && Rebuilt(old(pages), pages, Leaf(nodeId, es), m, next)
      ensures split.Some? && Placed(m, split, 0, lo, hi, |es|)
      ensures Flat(m) == es[..i] + [Entry(key, value)] + es[i..]
    {
      hide SortedIn, Rebuilt, Placed;
      var rightId := AllocatePage();
      var left, right := SplitEntries(es, Entry(key, value), i, lo, hi);
      var sep := right[0].key;
      WritePage(nodeId, LeafNode(left, rightId));
      WritePage(rightId, LeafNode(right, next));
      split := Some(Split(sep, rightId));
      m := [Leaf(nodeId, left), Leaf(rightId, right)];
      TwoLeaves(old(pages), pages, Leaf(nodeId, es), left, rightId, right, next, lo, hi);
    }

    /** Inserts below `nodeId`, the root of the subtree `t`. */
    method InsertRec(nodeId: PageId, key: Key, value: Value, overwrite: bool,
                     ghost t: Tree, ghost h: nat, ghost lo: nat, ghost hi: nat, ghost succ: PageId)
        returns (split: Option<Split>, inserted: bool, ghost m: seq<Tree>)
      requires PoolOk() && t.id == nodeId && Rep(pages, t, succ) && Good(t, h, lo, hi) && Fits(t) && lo <= key < hi
      modifies this`pages, this`free, this`pageCount
      ensures PoolOk() && Rebuilt(old(pages), pages, t, m, succ) && Placed(m, split, h, lo, hi, Size(t))
      ensures Flat(m) == if HasKey(Entries(t), key) && !overwrite then Entries(t) else Upsert(Entries(t), key, value)
      ensures inserted <==> !HasKey(Entries(t), key)
      decreases h
    {
      hide Upsert, HasKey, Rebuilt, Placed, KidsRebuilt, GoodKids, RepKids, FootOf, SortedIn;
      match pages[nodeId]
      case LeafNode(es, next) =>
        split, inserted, m := InsertLeaf(nodeId, es, next, key, value, overwrite, lo, hi);
      case InternalNode(keys, children) =>
        var ci := ChildIndexFor(keys, key);
        ghost var c, l, r := t.kids[ci], Bound(keys, lo, hi, ci), Bound(keys, lo, hi, ci + 1);
        ChildRep(pages, t, ci, succ);
        ChildGood(t, h, lo, hi, ci);
        var childSplit;
        ghost var k;
        childSplit, inserted, k := InsertRec(children[ci], key, value, overwrite, c, h - 1, l, r, Next(t.kids, ci, succ));
        KidsFromChild(old(pages), pages, t, ci, k, succ);
        ChildChange(keys, t.kids, h, lo, hi, ci, key, value);
        FlatMiddle(t.kids[..ci], k, t.kids[ci + 1..]);
        ghost var kids := t.kids[..ci] + k + t.kids[ci + 1..];
        match childSplit
        case None =>
          split, m := None, [Branch(nodeId, keys, kids)];
          SameChild(old(pages), pages, t, h, lo, hi, ci, k, succ);
        case Some(s) =>
          split, m := InsertChild(nodeId, keys, children, ci, s, t, h, lo, hi, k, succ, old(pages));
    }

    /** Installs a child's new sibling; a full node is split around its median, which
        moves up. */
    method InsertChild(nodeId: PageId, keys: seq<Key>, children: seq<PageId>, ci: nat, s: Split,
                       ghost t: Tree, ghost h: nat, ghost lo: nat, ghost hi: nat, ghost k: seq<Tree>,
                       ghost succ: PageId, ghost p: map<PageId, Node>)
        returns (split: Option<Split>, ghost m: seq<Tree>)
      requires PoolOk() && t.Branch? && t.id == nodeId && Good(t, h, lo, hi) && Fits(t)
      requires t.keys == keys && Ids(t.kids) == children && ci <= |keys| && nodeId in pages
      requires Placed(k, Some(s), h - 1, Bound(keys, lo, hi, ci), Bound(keys, lo, hi, ci + 1), Size(t.kids[ci]))
      requires k != [] && k[0].id == t.kids[ci].id && KidsRebuilt(p, pages, t, t.kids[..ci] + k + t.kids[ci + 1..], succ)
      modifies this`pages, this`free, this`pageCount
      ensures PoolOk() && Rebuilt(p, pages, t, m, succ) && Placed(m, split, h, lo, hi, Size(t))
      ensures Flat(m) == Flat(t.kids[..ci] + k + t.kids[ci + 1..])
    {
      hide Rebuilt, Placed, KidsRebuilt, GoodKids, RepKids, FootOf, SortedIn;
      ghost var keys', kids' := keys[..ci] + [s.sepKey] + keys[ci..], t.kids[..ci] + k + t.kids[ci + 1..];
      ghost var q := pages;
      Overfull(t, h, lo, hi, ci, s, k);
      if |keys| < INTERNAL_MAX {
        WritePage(nodeId, InternalNode(keys[..ci] + [s.sepKey] + keys[ci..],
                                       children[..ci + 1] + [s.right] + children[ci + 1..]));
        split, m := None, [Branch(nodeId, keys', kids')];
        OneBranch(p, q, pages, t, keys', kids', succ);
        OneBranchGood(t, h, lo, hi, keys', kids');
        return;
      }
      var rightId := AllocatePage();
      var median, leftKeys, leftChildren, rightKeys, rightChildren := SplitInternal(keys, children, ci, s);
      ghost var c := |leftKeys|;
      WritePage(nodeId, InternalNode(leftKeys, leftChildren));
      WritePage(rightId, InternalNode(rightKeys, rightChildren));
      split := Some(Split(median, rightId));
      m := [Branch(nodeId, keys'[..c], kids'[..c + 1]), Branch(rightId, keys'[c + 1..], kids'[c + 1..])];
      TwoBranches(p, q, pages, t, h, lo, hi, keys', kids', c, rightId, succ);
    }

    // ---- deletion ----

    /** The left sibling's last entry moved to the child. */
    method BorrowFromLeft(down: Key, leftId: PageId, childId: PageId,
                          ghost l: Tree, ghost r: Tree, ghost h: nat, ghost lo: nat, ghost hi: nat, ghost succ: PageId)
        returns (up: Key, ghost l': Tree, ghost r': Tree)
      requires PoolOk() && RepKids(pages, [l, r], succ) && l.id == leftId && r.id == childId
      requires lo < down < hi && Good(l, h, lo, down) && Good(r, h, down, hi)
      requires Size(l) > MinSize(l) && Fits(l) && Size(r) == MinSize(r) - 1
      modifies this`pages
      ensures PoolOk() && l'.id == leftId && r'.id == childId && Evened(l', up, r', h, lo, hi)
      ensures Rewritten(old(pages), pages, FootOf([l, r]), First(l), [l', r'], succ) && Flat([l', r']) == Flat([l, r])
    {
      Pair(pages, l, r, succ);
      hide RepKids, FootOf, Flat, Evened, Rewritten, SortedIn, GoodKids;
      match pages[leftId]
      case LeafNode(le, ln) =>
        var ce, cn := pages[childId].entries, pages[childId].next;
        var li := |le| - 1;
        LeavesEvened(l, down, r, lo, hi, li);
        LastMoves(le, ce);
        ce := [le[li]] + ce;
        le := le[..li];
        up := ce[0].key;
        WritePage(leftId, LeafNode(le, ln));
        WritePage(childId, LeafNode(ce, cn));
        l', r' := Leaf(leftId, le), Leaf(childId, ce);
        LeavesRewritten(old(pages), pages, l, r, le, ce, succ);
      case InternalNode(lk, lc) =>
        var ck, cc := pages[childId].keys, pages[childId].children;
        var n := |lk|;
        ghost var j, k := lk + [down] + ck, l.kids + r.kids;
        BranchesEvened(l, down, r, h, lo, hi, n - 1);
        LastRotates(lk, down, ck);
        IdsConcat(l.kids, r.kids);
        LastMoves(lc, cc);
        up := lk[n - 1];
        WritePage(leftId, InternalNode(lk[..n - 1], lc[..n]));
        WritePage(childId, InternalNode([down] + ck, [lc[n]] + cc));
        l', r' := Branch(leftId, j[..n - 1], k[..n]), Branch(childId, j[n..], k[n..]);
        BranchesRewritten(old(pages), pages, l, r, down, n - 1, succ);
    }

    /** The right sibling's first entry moved to the child. */
    method BorrowFromRight(down: Key, childId: PageId, rightId: PageId,
                           ghost l: Tree, ghost r: Tree, ghost h: nat, ghost lo: nat, ghost hi: nat, ghost succ: PageId)
        returns (up: Key, ghost l': Tree, ghost r': Tree)
      requires PoolOk() && RepKids(pages, [l, r], succ) && l.id == childId && r.id == rightId
      requires lo < down < hi && Good(l, h, lo, down) && Good(r, h, down, hi)
      requires Size(r) > MinSize(r) && Fits(r) && Size(l) == MinSize(l) - 1
      modifies this`pages
      ensures PoolOk() && l'.id == childId && r'.id == rightId && Evened(l', up, r', h, lo, hi)
      ensures Rewritten(old(pages), pages, FootOf([l, r]), First(l), [l', r'], succ) && Flat([l', r']) == Flat([l, r])
    {
      Pair(pages, l, r, succ);
      hide RepKids, FootOf, Flat, Evened, Rewritten, SortedIn, GoodKids;
      match pages[rightId]
      case LeafNode(re, rn) =>
        var ce, cn := pages[childId].entries, pages[childId].next;
        LeavesEvened(l, down, r, lo, hi, |ce| + 1);
        FirstMoves(ce, re);
        ce := ce + [re[0]];
        re := re[1..];
        up := re[0].key;
        WritePage(childId, LeafNode(ce, cn));
        WritePage(rightId, LeafNode(re, rn));
        l', r' := Leaf(childId, ce), Leaf(rightId, re);
        LeavesRewritten(old(pages), pages, l, r, ce, re, succ);
      case InternalNode(rk, rc) =>
        var ck, cc := pages[childId].keys, pages[childId].children;
        ghost var j, k, n := ck + [down] + rk, l.kids + r.kids, |ck| + 1;
        BranchesEvened(l, down, r, h, lo, hi, n);
        FirstRotates(ck, down, rk);
        IdsConcat(l.kids, r.kids);
        FirstMoves(cc, rc);
        up := rk[0];
        WritePage(childId, InternalNode(ck + [down], cc + [rc[0]]));
        WritePage(rightId, InternalNode(rk[1..], rc[1..]));
        l', r' := Branch(childId, j[..n], k[..n + 1]), Branch(rightId, j[n + 1..], k[n + 1..]);
        BranchesRewritten(old(pages), pages, l, r, down, n, succ);
    }

    /** Two siblings that cannot spare an entry, on the left one's page: they fit. */
    method Merge(down: Key, leftId: PageId, rightId: PageId,
                 ghost l: Tree, ghost r: Tree, ghost h: nat, ghost lo: nat, ghost hi: nat, ghost succ: PageId)
        returns (ghost m: Tree)
      requires PoolOk() && RepKids(pages, [l, r], succ) && l.id == leftId && r.id == rightId
      requires lo < down < hi && Good(l, h, lo, down) && Good(r, h, down, hi)
      requires Size(l) + Size(r) == MinSize(l) + MinSize(r) - 1
      modifies this`pages, this`free
      ensures PoolOk() && m.id == leftId && Good(m, h, lo, hi) && Half(m) && Fits(m)
      ensures Rewritten(old(pages), pages, FootOf([l, r]), First(l), [m], succ) && Flat([m]) == Flat([l, r])
      ensures free == [rightId] + old(free)
    {
      Pair(pages, l, r, succ);
      hide RepKids, FootOf, Flat, Rewritten, SortedIn;
      match pages[leftId]
      case LeafNode(le, ln) =>
        var re, rn := pages[rightId].entries, pages[rightId].next;
        SortedConcat(le, re, lo, down, hi);
        WritePage(leftId, LeafNode(le + re, rn));
        FreePage(rightId);
        m := Leaf(leftId, le + re);
        LeavesMerged(old(pages), pages, l, r, succ);
      case InternalNode(lk, lc) =>
        var rk, rc := pages[rightId].keys, pages[rightId].children;
        GoodJoin(l, down, r, h, lo, hi);
        hide GoodKids;
        IdsConcat(l.kids, r.kids);
        WritePage(leftId, InternalNode(lk + [down] + rk, lc + rc));
        FreePage(rightId);
        m := Branch(leftId, lk + [down] + rk, l.kids + r.kids);
        BranchesMerged(old(pages), pages, l, r, down, succ);
    }

    /** Repairs child `ci`, one entry too small, of a parent held in memory: takes an
        entry from a sibling that can spare it, and otherwise merges. */
    method FixChildUnderflow(keys: seq<Key>, children: seq<PageId>, ci: nat,
                             ghost kids: seq<Tree>, ghost h: nat, ghost lo: nat, ghost hi: nat, ghost succ: PageId)
        returns (keys': seq<Key>, children': seq<PageId>, ghost kids': seq<Tree>)
      requires PoolOk() && RepKids(pages, kids, succ) && children == Ids(kids)
      requires h > 0 && |keys| >= 1 && |kids| == |keys| + 1 && ci < |kids|
      requires KeysIn(keys, lo, hi) && GoodExcept(keys, kids, h, lo, hi, ci) && Size(kids[ci]) == MinSize(kids[ci]) - 1
      modifies this`pages, this`free
      ensures PoolOk() && Fixed(old(pages), pages, kids, keys', kids', h, lo, hi, succ)
      ensures children' == Ids(kids') && |keys| - 1 <= |keys'| <= |keys|
    {
      hide RepKids, FootOf, Flat, Rewritten, Good, GoodKids, GoodExcept, KeysIn, Evened, Fixed;
      ghost var l, r, m;
      var up;
      ExceptChild(keys, kids, h, lo, hi, ci, ci);
      if ci > 0 {
        PairRep(pages, kids, ci - 1, succ);
        ExceptChild(keys, kids, h, lo, hi, ci, ci - 1);
        var left := pages[children[ci - 1]];
        if Count(left) > MinCount(left) {
          up, l, r := BorrowFromLeft(keys[ci - 1], children[ci - 1], children[ci], kids[ci - 1], kids[ci], h - 1,
                                     Bound(keys, lo, hi, ci - 1), Bound(keys, lo, hi, ci + 1), FirstOf(kids[ci + 1..], succ));
          keys', children', kids' := keys[ci - 1 := up], children, kids[ci - 1 := l][ci := r];
          PairEvened(old(pages), pages, keys, kids, h, lo, hi, ci, ci - 1, l, up, r, succ);
          return;
        }
      }
      if ci < |keys| {
        PairRep(pages, kids, ci, succ);
        ExceptChild(keys, kids, h, lo, hi, ci, ci + 1);
        var right := pages[children[ci + 1]];
        if Count(right) > MinCount(right) {
          up, l, r := BorrowFromRight(keys[ci], children[ci], children[ci + 1], kids[ci], kids[ci + 1], h - 1,
                                      Bound(keys, lo, hi, ci), Bound(keys, lo, hi, ci + 2), FirstOf(kids[ci + 2..], succ));
          keys', children', kids' := keys[ci := up], children, kids[ci := l][ci + 1 := r];
          PairEvened(old(pages), pages, keys, kids, h, lo, hi, ci, ci, l, up, r, succ);
          return;
        }
      }
      var i := if ci > 0 then ci - 1 else ci;
      PairRep(pages, kids, i, succ);
      m := Merge(keys[i], children[i], children[i + 1], kids[i], kids[i + 1], h - 1,
                 Bound(keys, lo, hi, i), Bound(keys, lo, hi, i + 2), FirstOf(kids[i + 2..], succ));
      keys', children' := keys[..i] + keys[i + 1..], children[..i + 1] + children[i + 2..];
      kids' := kids[..i] + [m] + kids[i + 2..];
      PairMerged(old(pages), pages, keys, kids, h, lo, hi, ci, i, m, succ);
    }

    method EraseLeaf(nodeId: PageId, es: seq<Entry>, next: PageId, key: Key, ghost lo: nat, ghost hi: nat)
        returns (found: bool, underflow: bool, ghost t': Tree)
      requires PoolOk() && nodeId in pages && pages[nodeId] == LeafNode(es, next) && lo < hi && SortedIn(es, lo, hi)
      modifies this`pages, this`free
      ensures PoolOk() && Rebuilt(old(pages), pages, Leaf(nodeId, es), [t'], next)
      ensures t' == Leaf(nodeId, Remove(es, key)) && Good(t', 0, lo, hi) && |es| - 1 <= |t'.entries| <= |es|
      ensures (found <==> HasKey(es, key)) && (found ==> (underflow <==> !Half(t')))
      ensures !found ==> t'.entries == es && pages == old(pages) && free == old(free)
    {
      hide Remove, HasKey, Rebuilt;
      SameTree(pages, Leaf(nodeId, es), next);
      var i := LowerBound(es, key);
      AtIndex(es, lo, hi, i, key, 0);
      if i >= |es| || es[i].key != key {
        found, underflow, t' := false, false, Leaf(nodeId, es);
        return;
      }
      var es' := es[..i] + es[i + 1..];
      WritePage(nodeId, LeafNode(es', next));
      OneLeaf(old(pages), pages, Leaf(nodeId, es), es', next);
      found, underflow, t' := true, |es'| < LEAF_MIN, Leaf(nodeId, es');
    }

    /** A branch whose child `ci` has lost an entry: repairs it and writes the branch. */
    method EraseAt(nodeId: PageId, keys: seq<Key>, children: seq<PageId>, ci: nat, childUnderflow: bool,
                   ghost t: Tree, ghost kids: seq<Tree>, ghost h: nat, ghost lo: nat, ghost hi: nat,
                   ghost succ: PageId, ghost p: map<PageId, Node>)
        returns (ghost t': Tree)
      requires PoolOk() && t.Branch? && t.id == nodeId && nodeId in pages && t.keys == keys && FootOf(t.kids) <= p.Keys
      requires KidsRebuilt(p, pages, t, kids, succ) && Ids(kids) == children && |keys| >= 1 && h > 0
      requires KeysIn(keys, lo, hi) && GoodExcept(keys, kids, h, lo, hi, ci) && |kids| == |keys| + 1 && ci < |kids|
      requires Size(kids[ci]) >= MinSize(kids[ci]) - 1 && (childUnderflow <==> !Half(kids[ci]))
      modifies this`pages, this`free
      ensures PoolOk() && Rebuilt(p, pages, t, [t'], succ)
      ensures Good(t', h, lo, hi) && t'.Branch? && |keys| - 1 <= |t'.keys| <= |keys|
      ensures Entries(t') == Flat(kids)
      ensures nodeId in pages && Count(pages[nodeId]) == |t'.keys|
    {
      hide GoodExcept, GoodKids, KeysIn, RepKids, FootOf, Flat, Rebuilt, Rewritten;
      var keys', children' := keys, children;
      ghost var kids', q := kids, pages;
      RewrittenParts(p, q, t, kids, succ);
      if childUnderflow {
        keys', children', kids' := FixChildUnderflow(keys, children, ci, kids, h, lo, hi, succ);
        RewriteThen(p, q, pages, FootOf(t.kids), First(t), kids, kids', succ);
      } else {
        ExceptNone(keys, kids, h, lo, hi, ci);
      }
      q := pages;
      RewrittenParts(p, q, t, kids', succ);
      WritePage(nodeId, InternalNode(keys', children'));
      OneBranch(p, q, pages, t, keys', kids', succ);
      t' := Branch(nodeId, keys', kids');
      FlatOne(t');
      GoodCount(keys', kids', h, lo, hi);
    }

    /** Removes `key` below `nodeId`, the root of the subtree `t`. */
    method EraseRec(nodeId: PageId, key: Key, ghost t: Tree, ghost h: nat, ghost lo: nat, ghost hi: nat, ghost succ: PageId)
        returns (found: bool, underflow: bool, ghost t': Tree)
      requires PoolOk() && t.id == nodeId && Rep(pages, t, succ) && Good(t, h, lo, hi) && Fits(t) && lo <= key < hi
      requires t.Branch? ==> |t.keys| >= 1
      modifies this`pages, this`free
      ensures PoolOk() && Rebuilt(old(pages), pages, t, [t'], succ)
      ensures Good(t', h, lo, hi) && Size(t) - 1 <= Size(t') <= Size(t)
      ensures Entries(t') == Remove(Entries(t), key) && (found <==> HasKey(Entries(t), key))
      ensures found ==> (underflow <==> !Half(t'))
      ensures !found ==> t' == t && pages == old(pages) && free == old(free)
      decreases h
    {
      hide Remove, HasKey, Rewritten, Rebuilt, KidsRebuilt, GoodKids, RepKids, FootOf, SortedIn, Flat;
      SameTree(pages, t, succ);
      match pages[nodeId]
      case LeafNode(es, next) =>
        found, underflow, t' := EraseLeaf(nodeId, es, next, key, lo, hi);
      case InternalNode(keys, children) =>
        var ci := ChildIndexFor(keys, key);
        ghost var c, l, r := t.kids[ci], Bound(keys, lo, hi, ci), Bound(keys, lo, hi, ci + 1);
        ChildRep(pages, t, ci, succ);
        ChildGood(t, h, lo, hi, ci);
        ChildChange(keys, t.kids, h, lo, hi, ci, key, 0);
        var childUnderflow;
        ghost var c';
        found, childUnderflow, c' := EraseRec(children[ci], key, c, h - 1, l, r, Next(t.kids, ci, succ));
        if !found {
          underflow, t' := |keys| < INTERNAL_MIN, t;
          return;
        }
        KidsFromChild(old(pages), pages, t, ci, [c'], succ);
        Sandwich(t.kids, ci, [c']);
        FlatMiddle(t.kids[..ci], [c'], t.kids[ci + 1..]);
        FlatOne(c');
        SameIds(t.kids, ci, c');
        Lessened(t, h, lo, hi, ci, c');
        t' := EraseAt(nodeId, keys, children, ci, childUnderflow, t, t.kids[ci := c'], h, lo, hi, succ, old(pages));
        underflow := Count(pages[nodeId]) < INTERNAL_MIN;
    }

    // ---- the operations ----

    /** Plants an empty tree among the pages of a file. */
    constructor (pages: map<PageId, Node>, free: seq<PageId>, pageCount: nat)
      requires pageCount >= 1 && (forall id | id in pages :: 0 < id < pageCount)
      requires forall i | 0 <= i < |free| :: 0 < free[i] < pageCount && free[i] !in pages
      requires forall i, j | 0 <= i < j < |free| :: free[i] != free[j]
      ensures Valid() && Table() == map[] && height == 0
      ensures this.pages.Keys - pages.Keys == Foot(tree) && forall id | id in pages :: id in this.pages && this.pages[id] == pages[id]
    {
      this.pages, this.free, this.pageCount := pages, free, pageCount;
      root, tree, height := 0, Leaf(0, []), 0;
      new;
      var id := AllocatePage();
      root, tree := id, Leaf(id, []);
    }

    method Insert(key: Key, value: Value) returns (inserted: bool)
      requires Valid()
      modifies this
      ensures Valid() && OwnPages()
      ensures Table() == old(Table())[key := value] && (inserted <==> key !in old(Table()))
    {
      inserted := InsertWith(key, value, true);
    }

    method InsertNew(key: Key, value: Value) returns (inserted: bool)
      requires Valid()
      modifies this
      ensures Valid() && OwnPages()
      ensures Table() == (if inserted then old(Table())[key := value] else old(Table()))
      ensures inserted <==> key !in old(Table())
    {
      inserted := InsertWith(key, value, false);
    }

    method InsertWith(key: Key, value: Value, overwrite: bool) returns (inserted: bool)
      requires Valid()
      modifies this
      ensures Valid() && OwnPages() && (inserted <==> key !in old(Table()))
      ensures Table() == if inserted || overwrite then old(Table())[key := value] else old(Table())
      ensures old(height) <= height <= old(height) + 1
    {
      hide Rep, Good, Rewritten, Placed, AsMap, Find, HasKey, Upsert, Flat, Entries, Foot, First, PoolOk;
      ghost var t, p := tree, pages;
      var split;
      ghost var m;
      split, inserted, m := InsertRec(root, key, value, overwrite, tree, height, 0, KEY_END, NULL_PAGE);
      AsMapFind(Entries(t), key);
      FindKey(Entries(t), key);
      MapChange(Entries(t), key, value);
      match split
      case Some(s) =>
        ghost var q := pages;
        var newRoot := AllocatePage();
        WritePage(newRoot, InternalNode([s.sepKey], [root, s.right]));
        GrownRoot(p, q, pages, t, height, m, s, newRoot);
        root, tree, height := newRoot, Branch(newRoot, [s.sepKey], m), height + 1;
        RootRep(p, pages, Foot(t), First(t), tree);
      case None =>
        Absorbed(t, m, height);
        tree := m[0];
        RootRep(p, pages, Foot(t), First(t), tree);
    }

    method Erase(key: Key) returns (found: bool)
      requires Valid()
      modifies this
      ensures Valid() && OwnPages() && (found <==> key in old(Table())) && Table() == old(Table()) - {key}
      ensures old(height) - 1 <= height <= old(height)
    {
      hide Rep, Good, Rewritten, AsMap, Find, HasKey, Remove, Flat, Entries, Foot, First, PoolOk;
      ghost var t, p := tree, pages;
      FootInPages(p, t, NULL_PAGE);
      var underflow;
      found, underflow, tree := EraseRec(root, key, tree, height, 0, KEY_END, NULL_PAGE);
      AsMapFind(Entries(t), key);
      FindKey(Entries(t), key);
      MapChange(Entries(t), key, 0);
      RootRep(p, pages, Foot(t), First(t), tree);
      SameFit(t, tree, height);
      if !found { return; }
      match pages[root]
      case LeafNode(_, _) =>
      case InternalNode(keys, children) =>
        if |keys| == 0 {
          Collapsed(p, pages, Foot(t), First(t), tree, height);
          var only := children[0];
          FreePage(root);
          root, tree, height := only, tree.kids[0], height - 1;
          RootRep(p, pages, Foot(t), First(t), tree);
        }
    }

    /** Reads one page a level. */
    method Search(key: Key) returns (found: Option<Value>, ghost visited: nat)
      requires Valid()
      ensures found == if key in Table() then Some(Table()[key]) else None
      ensures visited == height + 1
    {
      hide Find, AsMap, SortedIn, GoodKids, RepKids, FootOf, Flat;
      AsMapFind(Entries(tree), key);
      var nodeId := root;
      ghost var cur, succ, h: nat, lo: nat, hi: nat := tree, NULL_PAGE, height, 0, KEY_END;
      visited := 0;
      while true
        invariant Rep(pages, cur, succ) && cur.id == nodeId && Good(cur, h, lo, hi) && lo <= key < hi
        invariant Find(Entries(cur), key) == Find(Entries(tree), key) && visited + h == height
        decreases h
      {
        visited := visited + 1;
        match pages[nodeId]
        case LeafNode(es, _) =>
          LeafAscends(es, lo, hi);
          var i := LowerBound(es, key);
          FindInLeaf(es, i, key);
          return if i < |es| && es[i].key == key then Some(es[i].value) else None, visited;
        case InternalNode(keys, children) =>
          var ci := ChildIndexFor(keys, key);
          ChildRep(pages, cur, ci, succ);
          ChildGood(cur, h, lo, hi, ci);
          ChildSides(keys, cur.kids, h, lo, hi, ci, key);
          FlatThree(cur.kids, ci);
          FindMiddle(Flat(cur.kids[..ci]), Entries(cur.kids[ci]), Flat(cur.kids[ci + 1..]), key);
          nodeId := children[ci];
          succ, lo, hi := Next(cur.kids, ci, succ), Bound(keys, lo, hi, ci), Bound(keys, lo, hi, ci + 1);
          cur, h := cur.kids[ci], h - 1;
      }
    }

    /** Levels down the leftmost spine. */
    method Height() returns (levels: nat)
      requires Valid()
      ensures levels == height + 1
      ensures height >= 1 ==> |Contents()| >= 2 * Fewest(height - 1)
    {
      hide SortedIn, GoodKids, RepKids, FootOf, Flat;
      levels := 1;
      var nodeId := root;
      ghost var cur, succ, h: nat, lo: nat, hi: nat := tree, NULL_PAGE, height, 0, KEY_END;
      if height >= 1 { HeightBound(tree, height, 0, KEY_END); }
      while true
        invariant Rep(pages, cur, succ) && cur.id == nodeId && Good(cur, h, lo, hi) && levels + h == height + 1
        decreases h
      {
        match pages[nodeId]
        case LeafNode(_, _) => return;
        case InternalNode(keys, children) =>
          ChildRep(pages, cur, 0, succ);
          ChildGood(cur, h, lo, hi, 0);
          nodeId := children[0];
          levels := levels + 1;
          succ, hi := Next(cur.kids, 0, succ), Bound(keys, lo, hi, 1);
          cur, h := cur.kids[0], h - 1;
      }
    }

    // ---- range scans ----

    /** Opens a cursor at the first entry >= `lo`. */
    method Seek(lo: Key) returns (c: Cursor)
      requires Valid()
      ensures fresh(c) && c.tree == this && c.Valid() && c.Reads(AtLeast(Contents(), lo))
      ensures Lists(c.Rest(), Table(), lo)
    {
      hide SortedIn, GoodKids, RepKids, FootOf, Flat, AtLeast, Descent, OnChain, Unread;
      var id := root;
      ghost var cur, h: nat, l: nat, r: nat := tree, height, 0, KEY_END;
      ghost var before: seq<Entry>, after: seq<Tree> := [], [];
      WholeChain(pages, tree);
      AtLeastAll([], lo);
      DescentHere(pages, Contents(), before, cur, after);
      while pages[id].InternalNode?
        invariant cur.id == id && Good(cur, h, l, r) && l <= lo < r
        invariant Descent(pages, Contents(), before, cur, after)
        invariant AtLeast(before, lo) == [] && AtLeast(Flat(after), lo) == Flat(after)
        invariant id in pages
        decreases h
      {
        DescentHere(pages, Contents(), before, cur, after);
        var ci := ChildIndexFor(pages[id].keys, lo);
        DescendTo(pages, Contents(), before, cur, after, ci);
        ChildGood(cur, h, l, r, ci);
        SeekStep(cur, h, l, r, ci, lo, before, after);
        id := pages[id].children[ci];
        before, after := before + Flat(cur.kids[..ci]), cur.kids[ci + 1..] + after;
        l, r := Bound(cur.keys, l, r, ci), Bound(cur.keys, l, r, ci + 1);
        cur, h := cur.kids[ci], h - 1;
        DescentHere(pages, Contents(), before, cur, after);
      }
      DescentHere(pages, Contents(), before, cur, after);
      DescentEnds(pages, Contents(), before, cur, after);
      LeafAscends(cur.entries, l, r);
      var idx := LowerBound(pages[id].entries, lo);
      SeekEnds(Contents(), before, cur.entries, Flat(after), idx, lo);
      StartsOnChain(pages, Contents(), before, cur, after, idx);
      c := new Cursor(this, id, pages[id], idx, LeavesOf(after));
      c.Settle();
      Listed(lo);
    }

    lemma {:induction false} Listed(lo: Key)
      requires Valid()
      ensures Lists(AtLeast(Contents(), lo), Table(), lo)
    {
      GoodEntries(tree, height, 0, KEY_END);
      ListsFrom(Contents(), lo, 0, KEY_END);
    }

    /** A cursor at the last entry: the rightmost child at every level. */
    method Last() returns (c: Cursor)
      requires Valid()
      ensures fresh(c) && c.tree == this && c.Valid()
      ensures c.Reads(if Contents() == [] then [] else [Contents()[|Contents()| - 1]])
      ensures c.valid <==> Table() != map[]
      ensures c.valid ==> c.key in Table() && Table()[c.key] == c.value && forall k | k in Table() :: k <= c.key
    {
      hide Good, GoodKids, RepKids, Flat, OnChain, Unread, RightEdge;
      var id := root;
      ghost var cur, h: nat := tree, height;
      RightEdgeStart(pages, tree, height);
      RightEdgeHere(pages, Contents(), cur, h);
      while pages[id].InternalNode?
        invariant cur.id == id && id in pages && RightEdge(pages, Contents(), cur, h)
        decreases h
      {
        RightEdgeHere(pages, Contents(), cur, h);
        id := pages[id].children[|pages[id].keys|];
        cur, h := cur.kids[|cur.keys|], h - 1;
        RightEdgeHere(pages, Contents(), cur, h);
      }
      RightEdgeHere(pages, Contents(), cur, h);
      var count := |pages[id].entries|;
      var idx := if count > 0 then count - 1 else 0;
      c := new Cursor(this, id, pages[id], idx, []);
      c.Settle();
      LastOfAll();
    }

    lemma LastOfAll()
      requires Valid()
      ensures Contents() == [] <==> Table() == map[]
      ensures Contents() != [] ==>
                var e := Contents()[|Contents()| - 1]; e.key in Table() && Table()[e.key] == e.value && forall k | k in Table() :: k <= e.key
    {
      hide Valid, Entries, AsMap, AtLeast, Lists;
      Listed(0);
      AtLeastAll(Contents(), 0);
      LastListed(Contents(), Table());
    }

    /** A range scan: the cursor to exhaustion. */
    method Scan(lo: Key) returns (out: seq<Entry>)
      requires Valid()
      ensures out == AtLeast(Contents(), lo) && Lists(out, Table(), lo)
    {
      hide *;
      Listed(lo);
      ghost var all := AtLeast(Contents(), lo);
      var c := Seek(lo);
      out := [];
      ghost var rest := all;
      assert out + rest == all;
      while c.valid
        invariant fresh(c) && c.tree == this && c.Valid() && c.Reads(rest) && out + rest == all
        decreases |rest|
      {
        c.ReadsNext(rest);
        out := out + [Entry(c.key, c.value)];
        c.Next();
        assert all == out + rest[1..];
        rest := rest[1..];
      }
      c.ReadsNext(rest);
    }
  }

  /** A forward cursor over the chain of leaves, holding a copy of the one it is in. */
  class Cursor {
    const tree: BTree
    var leafId: PageId
    var leaf: Node
    var idx: nat
    var key: Key
    var value: Value
    var valid: bool

    /** The leaves after the current one. */
    ghost var after: seq<Tree>

    /** What the cursor has still to read, the entry it is at first. */
    ghost function Rest(): seq<Entry> reads this { Unread(leafId, leaf, idx, after) }

    ghost predicate Valid() reads this, tree {
      && (valid <==> Rest() != [])
      && (valid ==> OnChain(tree.pages, leafId, leaf, idx, after))
      && (valid ==> idx < |leaf.entries| && leaf.entries[idx] == Entry(key, value))
      && (!valid ==> leafId == NULL_PAGE)
    }

    /** `rest` is what there is still to read; `key` and `value` are its first entry. */
    ghost predicate Reads(rest: seq<Entry>) reads this {
      rest == Rest() && (valid <==> rest != []) && (valid ==> rest[0] == Entry(key, value))
    }

    lemma ReadsNext(rest: seq<Entry>)
      requires Reads(rest)
      ensures rest == Rest() && (valid <==> rest != [])
      ensures valid ==> rest == [Entry(key, value)] + rest[1..]
    {
    }

    constructor (tree: BTree, leafId: PageId, leaf: Node, idx: nat, ghost after: seq<Tree>)
      requires leaf.LeafNode? && leafId != NULL_PAGE && idx <= |leaf.entries|
      ensures this.tree == tree && this.leafId == leafId && this.leaf == leaf && this.idx == idx && this.after == after
      ensures Rest() == Unread(leafId, leaf, idx, after)
    {
      this.tree, this.leafId, this.leaf, this.idx, this.after := tree, leafId, leaf, idx, after;
      key, value, valid := 0, 0, false;
    }

    /** From the leaf and index, finds the next real entry, or none. */
    method Settle()
      requires leafId != NULL_PAGE ==> OnChain(tree.pages, leafId, leaf, idx, after)
      modifies this
      ensures Valid() && Reads(old(Rest()))
    {
      while true
        invariant leafId != NULL_PAGE ==> OnChain(tree.pages, leafId, leaf, idx, after)
        invariant Rest() == old(Rest())
        decreases |after|, leafId != NULL_PAGE
      {
        hide RepKids, AllLeaves, First, Flat;
        if leafId == NULL_PAGE {
          valid := false;
          return;
        }
        if idx < |leaf.entries| {
          key, value, valid := leaf.entries[idx].key, leaf.entries[idx].value, true;
          return;
        }
        ChainStep(tree.pages, leafId, leaf, idx, after);
        leafId := leaf.next;
        if leafId == NULL_PAGE {
          valid := false;
          return;
        }
        leaf := tree.pages[leafId];
        after := after[1..];
        idx := 0;
      }
    }

    /** Advances to the next entry in key order. */
    method Next()
      requires Valid()
      modifies this
      ensures Valid() && Reads(if old(valid) then old(Rest())[1..] else [])
    {
      idx := idx + 1;
      Settle();
    }
  }
}
