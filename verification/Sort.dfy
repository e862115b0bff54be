/** ORDER BY, with and without a LIMIT (src/operator.cpp:1404-1556). */
module SortSpec {
  import opened Rows
  import opened SortOrder

  /** `x` put where it belongs among rows already in order. */
  function Put(keys: seq<SortKey>, x: Item, s: seq<Item>): seq<Item> {
    if s == [] then [x] else if Precedes(keys, x, s[0]) then [x] + s else [s[0]] + Put(keys, x, s[1..])
  }

  /** The stable sort. */
  function Ordered(keys: seq<SortKey>, items: seq<Item>): seq<Item> {
    if items == [] then [] else Put(keys, items[|items| - 1], Ordered(keys, items[..|items| - 1]))
  }

  function ItemsOf(rows: seq<Row>): (items: seq<Item>)
    ensures |items| == |rows| && forall i | 0 <= i < |rows| :: items[i] == Item(rows[i], i)
  {
    seq(|rows|, i requires 0 <= i < |rows| => Item(rows[i], i))
  }

  function RowsOf(items: seq<Item>): seq<Row> { seq(|items|, i requires 0 <= i < |items| => items[i].row) }

  ghost predicate Sorted(keys: seq<SortKey>, s: seq<Item>) { forall i, j | 0 <= i < j < |s| :: Precedes(keys, s[i], s[j]) }

  ghost predicate NotIn(pos: nat, s: seq<Item>) { forall i | 0 <= i < |s| :: s[i].pos != pos }

  lemma {:induction false} PutBag(keys: seq<SortKey>, x: Item, s: seq<Item>)
    ensures multiset(Put(keys, x, s)) == multiset(s) + multiset{x} && |Put(keys, x, s)| == |s| + 1
  {
    if s != [] {
      PutBag(keys, x, s[1..]);
      assert s == [s[0]] + s[1..];
    }
  }

  lemma {:induction false} PutMembers(keys: seq<SortKey>, x: Item, s: seq<Item>)
    ensures forall y :: y in Put(keys, x, s) <==> y in s || y == x
  {
    if s != [] {
      PutMembers(keys, x, s[1..]);
      assert s == [s[0]] + s[1..];
    }
  }

  lemma {:induction false} PutSorted(keys: seq<SortKey>, x: Item, s: seq<Item>)
    requires Sorted(keys, s) && NotIn(x.pos, s)
    ensures Sorted(keys, Put(keys, x, s))
  {
    if s != [] {
      PrecedesTotal(keys, x, s[0]);
      var tail := s[1..];
      if Precedes(keys, x, s[0]) {
        forall j | 0 <= j < |s| ensures Precedes(keys, x, s[j]) {
          if j > 0 { PrecedesTransitive(keys, x, s[0], s[j]); }
        }
        SortedCons(keys, x, s);
      } else {
        PutSorted(keys, x, tail);
        PutMembers(keys, x, tail);
        var p := Put(keys, x, tail);
        forall j | 0 <= j < |p| ensures Precedes(keys, s[0], p[j]) {
          assert p[j] in p;
          if p[j] != x { var i :| 0 <= i < |tail| && tail[i] == p[j]; assert s[i + 1] == p[j]; }
        }
        SortedCons(keys, s[0], p);
      }
    }
  }

  lemma {:induction false} SortedCons(keys: seq<SortKey>, x: Item, s: seq<Item>)
    requires Sorted(keys, s) && forall j | 0 <= j < |s| :: Precedes(keys, x, s[j])
    ensures Sorted(keys, [x] + s)
  {
  }

  /** Distinct positions, all below `n`. */
  ghost predicate Below(items: seq<Item>, n: nat) {
    && (forall i | 0 <= i < |items| :: items[i].pos < n)
    && (forall i, j | 0 <= i < j < |items| :: items[i].pos != items[j].pos)
  }

  lemma {:induction false} OrderedSorted(keys: seq<SortKey>, items: seq<Item>, n: nat)
    requires Below(items, n)
    ensures Sorted(keys, Ordered(keys, items)) && multiset(Ordered(keys, items)) == multiset(items)
    ensures |Ordered(keys, items)| == |items|
  {
    if items != [] {
      var k := |items| - 1;
      var x, s := items[k], Ordered(keys, items[..k]);
      BelowInit(items, n);
      hide *;
      OrderedSorted(keys, items[..k], n);
      PutBag(keys, x, s);
      NewPosition(items, s, n);
      PutSorted(keys, x, s);
      OrderedNext(keys, items);
    }
  }

  lemma BelowInit(items: seq<Item>, n: nat)
    requires Below(items, n) && items != []
    ensures Below(items[..|items| - 1], n)
  {
  }

  lemma {:induction false} OrderedNext(keys: seq<SortKey>, items: seq<Item>)
    requires items != []
    ensures var k := |items| - 1;
            Ordered(keys, items) == Put(keys, items[k], Ordered(keys, items[..k])) && multiset(items) == multiset(items[..k]) + multiset{items[k]}
  {
    hide Put;
    assert items == items[..|items| - 1] + [items[|items| - 1]];
  }

  lemma NewPosition(items: seq<Item>, s: seq<Item>, n: nat)
    requires items != [] && multiset(s) == multiset(items[..|items| - 1]) && Below(items, n)
    ensures NotIn(items[|items| - 1].pos, s)
  {
    var k := |items| - 1;
    SameMembers(s, items[..k]);
    forall i | 0 <= i < |s| ensures s[i].pos != items[k].pos {
      var j :| 0 <= j < k && items[..k][j] == s[i];
      assert items[j].pos != items[k].pos;
    }
  }

  lemma SameMembers(a: seq<Item>, b: seq<Item>)
    requires multiset(a) == multiset(b)
    ensures forall i | 0 <= i < |a| :: a[i] in b
  {
    forall i | 0 <= i < |a| ensures a[i] in b { assert a[i] in multiset(a); }
  }

  /** One row more, of which the first `n` are kept: the newcomer displaces the worst of
      them, or does not get in. */
  lemma {:induction false} PutTake(keys: seq<SortKey>, x: Item, s: seq<Item>, n: nat)
    requires Sorted(keys, s) && 0 < n <= |s| && NotIn(x.pos, s)
    ensures |Put(keys, x, s)| == |s| + 1
    ensures Put(keys, x, s)[..n] == if Precedes(keys, x, s[n - 1]) then Put(keys, x, s[..n - 1]) else s[..n]
  {
    PutBag(keys, x, s);
    if Precedes(keys, x, s[0]) {
      if n > 1 { PrecedesTransitive(keys, x, s[0], s[n - 1]); }
      PutFirst(keys, x, s, n);
    } else {
      if n > 1 { PutTake(keys, x, s[1..], n - 1); }
      PutLater(keys, x, s, n);
    }
  }

  lemma {:induction false} PutFirst(keys: seq<SortKey>, x: Item, s: seq<Item>, n: nat)
    requires 0 < n <= |s| && Precedes(keys, x, s[0])
    ensures Put(keys, x, s)[..n] == [x] + s[..n - 1] && Put(keys, x, s[..n - 1]) == [x] + s[..n - 1]
  {
    hide Precedes;
    if n > 1 { assert s[..n - 1][0] == s[0]; }
  }

  lemma {:induction false} PutLater(keys: seq<SortKey>, x: Item, s: seq<Item>, n: nat)
    requires 0 < n <= |s| && !Precedes(keys, x, s[0]) && |Put(keys, x, s)| == |s| + 1
    ensures n == 1 ==> Put(keys, x, s)[..n] == s[..n]
    ensures n > 1 ==> |Put(keys, x, s[1..])| == |s| && Put(keys, x, s)[..n] == [s[0]] + Put(keys, x, s[1..])[..n - 1]
    ensures n > 1 ==> Put(keys, x, s[..n - 1]) == [s[0]] + Put(keys, x, s[1..][..n - 2])
    ensures n > 1 ==> s[1..][n - 2] == s[n - 1] && s[..n] == [s[0]] + s[1..][..n - 1]
  {
    hide Precedes;
    PutBag(keys, x, s[1..]);
    if n > 1 { assert s[..n - 1][0] == s[0] && s[..n - 1][1..] == s[1..][..n - 2]; }
  }

  /** The order of a bag of rows is one sequence. */
  lemma {:induction false} SortedUnique(keys: seq<SortKey>, a: seq<Item>, b: seq<Item>)
    requires Sorted(keys, a) && Sorted(keys, b) && multiset(a) == multiset(b)
    ensures a == b
  {
    assert |multiset(a)| == |a| && |multiset(b)| == |b|;
    if a != [] {
      SameFirst(keys, a, b);
      SameTail(a, b);
      SortedUnique(keys, a[1..], b[1..]);
      assert a == [a[0]] + a[1..] && b == [b[0]] + b[1..];
    }
  }

  /** The first rows of the input put in order: `at` says where each row was. */
  ghost predicate Arranged(keys: seq<SortKey>, rows: seq<Row>, at: seq<nat>, out: seq<Row>) {
    && |out| <= |at| == |rows| && (forall i | 0 <= i < |at| :: at[i] < |rows|)
    && (forall i, j | 0 <= i < j < |at| :: at[i] != at[j] && Before(keys, rows[at[i]], at[i], rows[at[j]], at[j]))
    && (forall i | 0 <= i < |out| :: out[i] == rows[at[i]])
  }

  ghost predicate Sorts(keys: seq<SortKey>, rows: seq<Row>, out: seq<Row>) { exists at :: Arranged(keys, rows, at, out) }

  /** The specification's order, by value: every row of the input once, each before the next
      by the first term in which they differ, or else by arrival. */
  lemma {:induction false} OrderedMeans(keys: seq<SortKey>, rows: seq<Row>, n: nat)
    requires n <= |rows| && forall i | 0 <= i < |rows| :: KeysTyped(keys, rows[i])
    ensures |Ordered(keys, ItemsOf(rows))| == |rows| && Sorts(keys, rows, RowsOf(Ordered(keys, ItemsOf(rows))[..n]))
  {
    var items := ItemsOf(rows);
    OrderedSorted(keys, items, |rows|);
    var s := Ordered(keys, items);
    SameMembers(s, items);
    var at := seq(|s|, i requires 0 <= i < |s| => s[i].pos);
    forall i | 0 <= i < |s| ensures s[i].pos < |rows| && s[i].row == rows[s[i].pos] {
      var j :| 0 <= j < |items| && items[j] == s[i];
    }
    forall i, j | 0 <= i < j < |s| ensures at[i] != at[j] && Before(keys, rows[at[i]], at[i], rows[at[j]], at[j]) {
      PrecedesMeans(keys, s[i], s[j]);
      if at[i] == at[j] { PrecedesTotal(keys, s[i], s[i]); }
    }
    assert Arranged(keys, rows, at, RowsOf(s[..n]));
  }

  lemma SameFirst(keys: seq<SortKey>, a: seq<Item>, b: seq<Item>)
    requires Sorted(keys, a) && Sorted(keys, b) && multiset(a) == multiset(b) && a != [] && b != []
    ensures a[0] == b[0]
  {
    hide Precedes;
    SameMembers(a, b);
    SameMembers(b, a);
    var i :| 0 <= i < |b| && b[i] == a[0];
    var j :| 0 <= j < |a| && a[j] == b[0];
    PrecedesTotal(keys, a[0], b[0]);
  }

  lemma SameTail(a: seq<Item>, b: seq<Item>)
    requires multiset(a) == multiset(b) && a != [] && b != [] && a[0] == b[0]
    ensures multiset(a[1..]) == multiset(b[1..])
  {
    assert a == [a[0]] + a[1..] && b == [b[0]] + b[1..];
    assert multiset(a[1..]) == multiset(a) - multiset{a[0]};
    assert multiset(b[1..]) == multiset(b) - multiset{b[0]};
  }
}

/** The Sort operator. */
module SortOperator {
  import opened Wrappers
  import opened Rows
  import opened Batches
  import opened SortOrder
  import opened SortSpec

  /** A held row: its first key folded, and where it is. */
  datatype Entry = Entry(prefix: nat, row: nat)

  function ItemAt(rows: seq<Row>, at: seq<nat>, e: Entry): Item {
    if e.row < |rows| && e.row < |at| then Item(rows[e.row], at[e.row]) else Item([], 0)
  }

  function Held(rows: seq<Row>, at: seq<nat>, order: seq<Entry>): (items: seq<Item>)
    ensures |items| == |order|
  {
    seq(|order|, i requires 0 <= i < |order| => ItemAt(rows, at, order[i]))
  }

  /** The comparison the heap and the sort are given: prefixes first. */
  predicate EntryBefore(keys: seq<SortKey>, rows: seq<Row>, at: seq<nat>, a: Entry, b: Entry) {
    if a.prefix != b.prefix then a.prefix < b.prefix else Precedes(keys, ItemAt(rows, at, a), ItemAt(rows, at, b))
  }

  /** An entry that tells the truth about its row. */
  ghost predicate Truthful(keys: seq<SortKey>, double: real -> nat, prefixes: bool, rows: seq<Row>, at: seq<nat>, e: Entry) {
    && Folds(double) && e.row < |rows| && e.row < |at| && RowOk(keys, rows[e.row])
    && e.prefix == if prefixes then Prefix(keys, rows[e.row], double) else 0
  }

  ghost predicate AllTruthful(keys: seq<SortKey>, double: real -> nat, prefixes: bool, rows: seq<Row>, at: seq<nat>,
                              order: seq<Entry>) {
    && (forall i | 0 <= i < |order| :: Truthful(keys, double, prefixes, rows, at, order[i]))
    && (forall i, j | 0 <= i < j < |order| :: ItemAt(rows, at, order[i]).pos != ItemAt(rows, at, order[j]).pos)
  }

  /** Comparing entries is comparing their rows. */
  lemma {:induction false} EntryAgrees(keys: seq<SortKey>, double: real -> nat, prefixes: bool, rows: seq<Row>, at: seq<nat>, a: Entry, b: Entry)
    requires Truthful(keys, double, prefixes, rows, at, a) && Truthful(keys, double, prefixes, rows, at, b)
    ensures EntryBefore(keys, rows, at, a, b) <==> Precedes(keys, ItemAt(rows, at, a), ItemAt(rows, at, b))
  {
    var x, y := ItemAt(rows, at, a), ItemAt(rows, at, b);
    PrecedesTotal(keys, x, y);
    if a.prefix < b.prefix { PrefixAgrees(keys, x, y, double); }
    if b.prefix < a.prefix { PrefixAgrees(keys, y, x, double); }
  }

  /** The greatest row is first. */
  ghost predicate TopFirst(keys: seq<SortKey>, held: seq<Item>) {
    forall i | 0 < i < |held| :: Precedes(keys, held[i], held[0])
  }

  /** A bag of entries stands for a bag of rows. */
  lemma {:induction false} HeldBag(rows: seq<Row>, at: seq<nat>, a: seq<Entry>, b: seq<Entry>)
    requires multiset(a) == multiset(b)
    ensures multiset(Held(rows, at, a)) == multiset(Held(rows, at, b)) && |a| == |b|
  {
    assert |multiset(a)| == |a| && |multiset(b)| == |b|;
    if a != [] {
      assert a[0] in multiset(b);
      var i :| 0 <= i < |b| && b[i] == a[0];
      var c := b[..i] + b[i + 1..];
      Without(a, b, i);
      HeldBag(rows, at, a[1..], c);
      HeldCons(rows, at, a);
      HeldMiddle(rows, at, b, i);
    }
  }

  lemma Without<T>(a: seq<T>, b: seq<T>, i: nat)
    requires multiset(a) == multiset(b) && a != [] && i < |b| && b[i] == a[0]
    ensures multiset(a[1..]) == multiset(b[..i] + b[i + 1..])
  {
    assert a == [a[0]] + a[1..] && b == b[..i] + [b[i]] + b[i + 1..];
    assert multiset(a[1..]) == multiset(a) - multiset{a[0]};
    assert multiset(b) == multiset(b[..i]) + multiset{b[i]} + multiset(b[i + 1..]);
  }

  lemma HeldCons(rows: seq<Row>, at: seq<nat>, a: seq<Entry>)
    requires a != []
    ensures multiset(Held(rows, at, a)) == multiset{ItemAt(rows, at, a[0])} + multiset(Held(rows, at, a[1..]))
  {
    assert Held(rows, at, a) == [ItemAt(rows, at, a[0])] + Held(rows, at, a[1..]);
  }

  lemma HeldMiddle(rows: seq<Row>, at: seq<nat>, b: seq<Entry>, i: nat)
    requires i < |b|
    ensures multiset(Held(rows, at, b)) ==
            multiset{ItemAt(rows, at, b[i])} + multiset(Held(rows, at, b[..i] + b[i + 1..]))
  {
    assert Held(rows, at, b) == Held(rows, at, b[..i]) + [ItemAt(rows, at, b[i])] + Held(rows, at, b[i + 1..]);
    assert Held(rows, at, b[..i] + b[i + 1..]) == Held(rows, at, b[..i]) + Held(rows, at, b[i + 1..]);
  }

  lemma SwapBag<T>(s: seq<T>, i: nat, j: nat)
    requires i < |s| && j < |s|
    ensures multiset(s[i := s[j]][j := s[i]]) == multiset(s)
  {
  }

  // ---- the library's heap and sort, by their contracts ----

  lemma SwapSlots(order: seq<Entry>, i: nat, j: nat)
    requires i < |order| && j < |order|
    ensures forall m :: Slots(order, m) ==> Slots(order[i := order[j]][j := order[i]], m)
  {
  }

  lemma SwapTruthful(keys: seq<SortKey>, double: real -> nat, prefixes: bool, rows: seq<Row>, at: seq<nat>,
                     order: seq<Entry>, i: nat, j: nat)
    requires AllTruthful(keys, double, prefixes, rows, at, order) && i < |order| && j < |order|
    ensures AllTruthful(keys, double, prefixes, rows, at, order[i := order[j]][j := order[i]])
  {
  }

  /** Any two held rows are in one order or the other. */
  lemma {:induction false} Either(keys: seq<SortKey>, double: real -> nat, prefixes: bool, rows: seq<Row>, at: seq<nat>, order: seq<Entry>,
               i: nat, j: nat)
    requires AllTruthful(keys, double, prefixes, rows, at, order) && i < |order| && j < |order|
    ensures EntryBefore(keys, rows, at, order[i], order[j]) <==> Precedes(keys, Held(rows, at, order)[i], Held(rows, at, order)[j])
    ensures i != j ==> Precedes(keys, Held(rows, at, order)[i], Held(rows, at, order)[j]) !=
                       Precedes(keys, Held(rows, at, order)[j], Held(rows, at, order)[i])
  {
    EntryAgrees(keys, double, prefixes, rows, at, order[i], order[j]);
    PrecedesTotal(keys, Held(rows, at, order)[i], Held(rows, at, order)[j]);
  }

  /** The greatest of the first `hi` entries. */
  method Greatest(keys: seq<SortKey>, rows: seq<Row>, at: seq<nat>, order: seq<Entry>, hi: nat,
                  ghost double: real -> nat, ghost prefixes: bool) returns (m: nat)
    requires 0 < hi <= |order| && AllTruthful(keys, double, prefixes, rows, at, order)
    ensures m < hi
    ensures forall i | 0 <= i < hi && i != m :: Precedes(keys, Held(rows, at, order)[i], Held(rows, at, order)[m])
  {
    hide Precedes, AllTruthful, EntryBefore;
    m := 0;
    for k := 1 to hi
      invariant m < k
      invariant forall i | 0 <= i < k && i != m :: Precedes(keys, Held(rows, at, order)[i], Held(rows, at, order)[m])
    {
      Either(keys, double, prefixes, rows, at, order, m, k);
      if EntryBefore(keys, rows, at, order[m], order[k]) {
        forall i | 0 <= i < k && i != m ensures Precedes(keys, Held(rows, at, order)[i], Held(rows, at, order)[k]) {
          PrecedesTransitive(keys, Held(rows, at, order)[i], Held(rows, at, order)[m], Held(rows, at, order)[k]);
        }
        m := k;
      }
    }
  }

  /** The least of the entries from `lo` on. */
  method Least(keys: seq<SortKey>, rows: seq<Row>, at: seq<nat>, order: seq<Entry>, lo: nat,
               ghost double: real -> nat, ghost prefixes: bool) returns (m: nat)
    requires lo < |order| && AllTruthful(keys, double, prefixes, rows, at, order)
    ensures lo <= m < |order|
    ensures forall i | lo <= i < |order| && i != m :: Precedes(keys, Held(rows, at, order)[m], Held(rows, at, order)[i])
  {
    hide Precedes, AllTruthful, EntryBefore;
    m := lo;
    for k := lo + 1 to |order|
      invariant lo <= m < k
      invariant forall i | lo <= i < k && i != m :: Precedes(keys, Held(rows, at, order)[m], Held(rows, at, order)[i])
    {
      Either(keys, double, prefixes, rows, at, order, k, m);
      if EntryBefore(keys, rows, at, order[k], order[m]) {
        forall i | lo <= i < k && i != m ensures Precedes(keys, Held(rows, at, order)[k], Held(rows, at, order)[i]) {
          PrecedesTransitive(keys, Held(rows, at, order)[k], Held(rows, at, order)[m], Held(rows, at, order)[i]);
        }
        m := k;
      }
    }
  }

  /** push_heap: the last entry joins the heap before it. */
  method PushHeap(keys: seq<SortKey>, rows: seq<Row>, at: seq<nat>, order: seq<Entry>,
                  ghost double: real -> nat, ghost prefixes: bool) returns (heap: seq<Entry>)
    requires order != [] && AllTruthful(keys, double, prefixes, rows, at, order)
    ensures multiset(heap) == multiset(order) && |heap| == |order| && AllTruthful(keys, double, prefixes, rows, at, heap)
    ensures TopFirst(keys, Held(rows, at, heap)) && forall k :: Slots(order, k) ==> Slots(heap, k)
  {
    hide Precedes, AllTruthful, EntryBefore, Slots;
    var m := Greatest(keys, rows, at, order, |order|, double, prefixes);
    heap := order[0 := order[m]][m := order[0]];
    SwapSlots(order, 0, m);
    SwapBag(order, 0, m);
    SwapTruthful(keys, double, prefixes, rows, at, order, 0, m);
    assert Held(rows, at, heap) == Held(rows, at, order)[0 := Held(rows, at, order)[m]][m := Held(rows, at, order)[0]];
  }

  /** pop_heap: the greatest entry goes to the back. */
  method PopHeap(keys: seq<SortKey>, rows: seq<Row>, at: seq<nat>, order: seq<Entry>,
                 ghost double: real -> nat, ghost prefixes: bool) returns (heap: seq<Entry>)
    requires order != [] && AllTruthful(keys, double, prefixes, rows, at, order)
    ensures multiset(heap) == multiset(order) && |heap| == |order| && AllTruthful(keys, double, prefixes, rows, at, heap)
    ensures heap[|heap| - 1] == order[0] && forall k :: Slots(order, k) ==> Slots(heap, k)
  {
    hide Precedes, AllTruthful, EntryBefore, Slots;
    var last := |order| - 1;
    heap := order[0 := order[last]][last := order[0]];
    SwapSlots(order, 0, last);
    SwapBag(order, 0, last);
    SwapTruthful(keys, double, prefixes, rows, at, order, 0, last);
    if last > 0 {
      ghost var popped := heap;
      var m := Greatest(keys, rows, at, heap, last, double, prefixes);
      SwapBag(heap, 0, m);
      SwapSlots(heap, 0, m);
      SwapTruthful(keys, double, prefixes, rows, at, heap, 0, m);
      heap := heap[0 := heap[m]][m := heap[0]];
      assert heap[last] == popped[last];
    }
  }

  /** sort: the entries in order. */
  method SortEntries(keys: seq<SortKey>, rows: seq<Row>, at: seq<nat>, order: seq<Entry>,
                     ghost double: real -> nat, ghost prefixes: bool) returns (sorted: seq<Entry>)
    requires AllTruthful(keys, double, prefixes, rows, at, order)
    ensures multiset(sorted) == multiset(order) && |sorted| == |order| && AllTruthful(keys, double, prefixes, rows, at, sorted)
    ensures Sorted(keys, Held(rows, at, sorted))
  {
    hide Precedes, AllTruthful, EntryBefore;
    sorted := order;
    for k := 0 to |order|
      invariant multiset(sorted) == multiset(order) && |sorted| == |order|
      invariant AllTruthful(keys, double, prefixes, rows, at, sorted)
      invariant SortedTo(keys, Held(rows, at, sorted), k)
    {
      var m := Least(keys, rows, at, sorted, k, double, prefixes);
      SwapBag(sorted, k, m);
      SwapTruthful(keys, double, prefixes, rows, at, sorted, k, m);
      SortedSwap(keys, Held(rows, at, sorted), k, m);
      assert Held(rows, at, sorted[k := sorted[m]][m := sorted[k]]) ==
             Held(rows, at, sorted)[k := Held(rows, at, sorted)[m]][m := Held(rows, at, sorted)[k]];
      sorted := sorted[k := sorted[m]][m := sorted[k]];
    }
  }

  /** The first `k` rows are in order, and before all the others. */
  ghost predicate SortedTo(keys: seq<SortKey>, s: seq<Item>, k: nat) {
    forall i, j | 0 <= i < j < |s| && i < k :: Precedes(keys, s[i], s[j])
  }

  lemma {:induction false} SortedSwap(keys: seq<SortKey>, s: seq<Item>, k: nat, m: nat)
    requires SortedTo(keys, s, k) && k <= m < |s|
    requires forall i | k <= i < |s| && i != m :: Precedes(keys, s[m], s[i])
    ensures SortedTo(keys, s[k := s[m]][m := s[k]], k + 1)
  {
    hide Precedes;
  }

  // ---- the best n so far ----

  function Min(a: nat, b: nat): nat { if a < b then a else b }

  /** The order of everything read. */
  function Whole(keys: seq<SortKey>, input: seq<Row>): seq<Item> { Ordered(keys, ItemsOf(input)) }

  lemma WholeSorted(keys: seq<SortKey>, input: seq<Row>)
    ensures |Whole(keys, input)| == |input| && Sorted(keys, Whole(keys, input))
    ensures multiset(Whole(keys, input)) == multiset(ItemsOf(input))
    ensures NotIn(|input|, Whole(keys, input))
  {
    OrderedSorted(keys, ItemsOf(input), |input|);
    var s := Whole(keys, input);
    SameMembers(s, ItemsOf(input));
  }

  lemma {:induction false} WholeMore(keys: seq<SortKey>, input: seq<Row>, r: Row)
    ensures Whole(keys, input + [r]) == Put(keys, Item(r, |input|), Whole(keys, input))
  {
    var items := ItemsOf(input + [r]);
    assert items[..|input|] == ItemsOf(input);
  }

  /** The greatest of the first `m` rows of an order is the last of them. */
  lemma TopIsWorst(keys: seq<SortKey>, held: seq<Item>, s: seq<Item>, m: nat)
    requires Sorted(keys, s) && 0 < m <= |s| && multiset(held) == multiset(s[..m]) && TopFirst(keys, held)
    ensures held != [] && held[0] == s[m - 1]
  {
    hide Precedes;
    assert |multiset(held)| == |held| && |multiset(s[..m])| == m;
    var t := s[..m];
    SameMembers(held, t);
    SameMembers(t, held);
    var i :| 0 <= i < m && t[i] == held[0];
    var j :| 0 <= j < |held| && held[j] == t[m - 1];
    PrecedesTotal(keys, held[0], held[j]);
  }

  /** What the operator holds part way through its input: the first `n` rows of the order of
      what it has read, the worst of them on top. */
  ghost predicate Keeps(keys: seq<SortKey>, double: real -> nat, prefixes: bool, rows: seq<Row>, at: seq<nat>,
                        order: seq<Entry>, input: seq<Row>, n: nat) {
    var m := Min(n, |input|);
    && |rows| == |at| == (if 0 < n <= |input| then n + 1 else m) && |order| == m
    && Slots(order, m) && AllTruthful(keys, double, prefixes, rows, at, order)
    && |Whole(keys, input)| == |input|
    && multiset(Held(rows, at, order)) == multiset(Whole(keys, input)[..m]) && TopFirst(keys, Held(rows, at, order))
  }

  /** Entries in different slots, below `m`. */
  ghost predicate Slots(order: seq<Entry>, m: nat) {
    && (forall i | 0 <= i < |order| :: order[i].row < m)
    && (forall i, j | 0 <= i < j < |order| :: order[i].row != order[j].row)
  }

  /** A row while fewer than `n` are held. */
  lemma Grown(keys: seq<SortKey>, rows: seq<Row>, at: seq<nat>, order: seq<Entry>, input: seq<Row>, n: nat, r: Row, p: nat)
    requires |rows| == |at| == |order| == |input| < n && Slots(order, |order|)
    requires |Whole(keys, input)| == |input| && multiset(Held(rows, at, order)) == multiset(Whole(keys, input)[..|input|])
    ensures var (rows', at', order') := (rows + [r], at + [|input|], order + [Entry(p, |rows|)]);
            && Slots(order', |order'|) && |Whole(keys, input + [r])| == |input| + 1
            && Held(rows', at', order') == Held(rows, at, order) + [Item(r, |input|)]
            && multiset(Held(rows', at', order')) == multiset(Whole(keys, input + [r])[..|input| + 1])
  {
    hide Ordered, Put, Whole;
    WholeMore(keys, input, r);
    var s := Whole(keys, input);
    PutBag(keys, Item(r, |input|), s);
    assert s[..|input|] == s;
    var s' := Whole(keys, input + [r]);
    assert s'[..|input| + 1] == s';
    assert Held(rows + [r], at + [|input|], order + [Entry(p, |rows|)]) == Held(rows, at, order) + [Item(r, |input|)];
  }

  /** A row when `n` are held: it displaces the worst of them, or does not get in. */
  lemma {:induction false} Displaced(keys: seq<SortKey>, held: seq<Item>, input: seq<Row>, n: nat, r: Row)
    requires 0 < n <= |input| && |Whole(keys, input)| == |input| && |held| == n
    requires multiset(held) == multiset(Whole(keys, input)[..n]) && TopFirst(keys, held)
    ensures var (x, s') := (Item(r, |input|), Whole(keys, input + [r]));
            && |s'| == |input| + 1
            && multiset(s'[..n]) == if Precedes(keys, x, held[0]) then multiset(held) - multiset{held[0]} + multiset{x}
                                    else multiset(held)
  {
    hide Precedes, Put, Ordered, Sorted, TopFirst, Whole, NotIn;
    WholeSorted(keys, input);
    WholeMore(keys, input, r);
    DisplacedIn(keys, held, Whole(keys, input), Item(r, |input|), n);
  }

  lemma {:induction false} DisplacedIn(keys: seq<SortKey>, held: seq<Item>, s: seq<Item>, x: Item, n: nat)
    requires 0 < n <= |s| && |held| == n && Sorted(keys, s) && NotIn(x.pos, s)
    requires multiset(held) == multiset(s[..n]) && TopFirst(keys, held)
    ensures |Put(keys, x, s)| == |s| + 1
    ensures multiset(Put(keys, x, s)[..n]) == if Precedes(keys, x, held[0])
                                              then multiset(held) - multiset{held[0]} + multiset{x} else multiset(held)
  {
    hide Precedes, Put, Sorted, TopFirst, NotIn;
    TopIsWorst(keys, held, s, n);
    PutTake(keys, x, s, n);
    if Precedes(keys, x, held[0]) {
      var best := s[..n - 1];
      PutBag(keys, x, best);
      LastOut(best, s[n - 1]);
      assert s[..n] == best + [s[n - 1]];
    }
  }

  lemma LastOut<T>(s: seq<T>, x: T)
    ensures multiset(s + [x]) - multiset{x} == multiset(s)
  {
  }

  class Sort {
    const child: Input
    const keys: seq<SortKey>
    const limit: Option<nat>
    const double: real -> nat
    const prefixes: bool
    const batchRows: nat

    var rows: seq<Row>
    var at: seq<nat>
    var order: seq<Entry>
    var next: nat
    var read: nat

    /** The rows read so far. */
    ghost var input: seq<Row>

    ghost predicate Holding(n: nat) reads this {
      && read == |input| && n > 0 && Folds(double)
      && Keeps(keys, double, prefixes, rows, at, order, input, n)
    }

    constructor (child: Input, keys: seq<SortKey>, limit: Option<nat>, double: real -> nat, prefixes: bool, batchRows: nat)
      ensures this.child == child && this.keys == keys && this.limit == limit && this.double == double
      ensures this.prefixes == prefixes && this.batchRows == batchRows
    {
      this.child, this.keys, this.limit, this.double := child, keys, limit, double;
      this.prefixes, this.batchRows := prefixes, batchRows;
      rows, at, order, next, read, input := [], [], [], 0, 0, [];
    }

    function PrefixOf(r: Row): nat { if prefixes then Prefix(keys, r, double) else 0 }

    /** A row of the input, when only the first `n` of the order are wanted. */
    method Offer(r: Row, n: nat)
      requires Holding(n) && RowOk(keys, r)
      modifies this`rows, this`at, this`order, this`read, this`input
      ensures Holding(n) && input == old(input) + [r]
    {
      hide Keeps, Whole, Folds, RowOk;
      KeptCount(keys, double, prefixes, rows, at, order, input, n);
      ghost var before := input;
      input := input + [r];
      var s := read;
      read := read + 1;
      if |order| < n {
        Grow(r, s, n, before);
        return;
      }
      Consider(r, PrefixOf(r), s, n, before);
    }

    /** The same on the batch path, where a row whose first key comes after the worst
        row kept is turned away before it is copied. */
    method OfferFromBatch(r: Row, n: nat)
      requires Holding(n) && RowOk(keys, r)
      modifies this`rows, this`at, this`order, this`read, this`input
      ensures Holding(n) && input == old(input) + [r]
    {
      hide Keeps, Whole, Folds, RowOk;
      KeptCount(keys, double, prefixes, rows, at, order, input, n);
      ghost var before := input;
      input := input + [r];
      var s := read;
      read := read + 1;
      if |order| < n {
        Grow(r, s, n, before);
        return;
      }
      var p := PrefixOf(r);
      if p > order[0].prefix {
        TurnedAway(keys, double, prefixes, rows, at, order, before, n, r, p);
        return;
      }
      Consider(r, p, s, n, before);
    }

    /** Fewer than `n` rows are held: this one is. */
    method Grow(r: Row, s: nat, n: nat, ghost before: seq<Row>)
      requires s == |before| < n && Folds(double) && RowOk(keys, r)
      requires Keeps(keys, double, prefixes, rows, at, order, before, n)
      modifies this`rows, this`at, this`order
      ensures Keeps(keys, double, prefixes, rows, at, order, before + [r], n)
    {
      hide Keeps, Whole, Folds, RowOk;
      Growing(keys, double, prefixes, rows, at, order, before, n, r);
      order := order + [Entry(PrefixOf(r), |rows|)];
      rows := rows + [r];
      at := at + [s];
      ghost var pushed := order;
      order := PushHeap(keys, rows, at, order, double, prefixes);
      HeldBag(rows, at, pushed, order);
      GrownKeeps(keys, double, prefixes, rows, at, pushed, order, before + [r], n);
      if |order| == n {
        rows := rows + [[]];
        at := at + [0];
      }
    }

    /** `n` rows are held: this one displaces the worst of them, or does not. */
    method Consider(r: Row, p: nat, s: nat, n: nat, ghost before: seq<Row>)
      requires 0 < n <= |before| == s && Folds(double) && RowOk(keys, r) && p == PrefixOf(r)
      requires Keeps(keys, double, prefixes, rows, at, order, before, n)
      modifies this`rows, this`at, this`order
      ensures Keeps(keys, double, prefixes, rows, at, order, before + [r], n)
    {
      hide Keeps, Whole, Folds, RowOk, EntryBefore, AllTruthful, Slots, Truthful, TopFirst, Held, Prefix;
      Considering(keys, double, prefixes, rows, at, order, before, n, r, p);
      rows := rows[n := r];
      at := at[n := s];
      var cand := Entry(p, n);
      if EntryBefore(keys, rows, at, cand, order[0]) {
        ghost var was, rows1, at1 := order, rows, at;
        order := PopHeap(keys, rows, at, order, double, prefixes);
        var w := order[|order| - 1].row;
        Replacing(keys, double, prefixes, rows, at, was, order, before, n, r, p);
        rows := rows[w := rows[n]][n := rows[w]];
        at := at[w := s];
        order := order[|order| - 1 := Entry(p, w)];
        ghost var pushed := order;
        order := PushHeap(keys, rows, at, order, double, prefixes);
        HeldBag(rows, at, pushed, order);
        Replaced(keys, double, prefixes, rows, at, pushed, order, before + [r], n);
      }
    }

    /** How many rows are wanted of `m`. */
    function Wanted(m: nat): nat { match limit case None => m case Some(n) => Min(n, m) }

    /** What the operator has still to yield. */
    ghost function Stream(): seq<Row> reads this {
      if next <= |order| then RowsOf(Held(rows, at, order))[next..] else []
    }

    /** Read the input and put it in order: all of it, or the first `n` rows of the order. */
    method Open()
      requires Folds(double) && forall i | 0 <= i < |child.rows| :: RowOk(keys, child.rows[i])
      modifies this, child
      ensures child.Valid() && Ready()
      ensures |Whole(keys, child.rows)| == |child.rows|
      ensures Stream() == RowsOf(Whole(keys, child.rows)[..Wanted(|child.rows|)])
      ensures Sorts(keys, child.rows, Stream())
      ensures |Stream()| == if limit.Some? && limit.value < |child.rows| then limit.value else |child.rows|
    {
      hide Reading, Whole, Folds, RowOk, Input.Rest, Sorts, Held;
      Clear();
      child.Open();
      var r := child.Next();
      while r.Some?
        invariant child.Valid() && child.pos == |input| + if r.Some? then 1 else 0
        invariant r == if |input| < |child.rows| then Some(child.rows[|input|]) else None
        invariant |input| <= |child.rows| && input == child.rows[..|input|]
        invariant next == 0 && Reading()
        decreases |child.rows| - |input|
      {
        Take(r.value, false);
        r := child.Next();
      }
      assert child.rows[..|input|] == child.rows;
      PutInOrder();
      Yields();
    }

    /** One row of the input. */
    method Take(r: Row, batch: bool)
      requires Reading() && RowOk(keys, r)
      modifies this`rows, this`at, this`order, this`read, this`input
      ensures Reading() && input == old(input) + [r]
    {
      hide Keeps, Whole, RowOk, Folds;
      match limit {
        case None => Append(r);
        case Some(n) =>
          if n == 0 { Skip(r); } else if batch { OfferFromBatch(r, n); } else { Offer(r, n); }
      }
    }

    /** The same from batches. */
    method OpenBatches()
      requires Folds(double) && forall i | 0 <= i < |child.rows| :: RowOk(keys, child.rows[i])
      requires batchRows > 0
      modifies this, child
      ensures child.Valid() && Ready()
      ensures |Whole(keys, child.rows)| == |child.rows|
      ensures Stream() == RowsOf(Whole(keys, child.rows)[..Wanted(|child.rows|)])
      ensures Sorts(keys, child.rows, Stream())
      ensures |Stream()| == if limit.Some? && limit.value < |child.rows| then limit.value else |child.rows|
    {
      hide Reading, Whole, Folds, RowOk, Sorts, Held;
      Clear();
      child.Open();
      var b := child.NextBatch(batchRows);
      while b != []
        invariant child.Valid() && child.rows == input + b + child.Rest() && (b == [] ==> child.Rest() == [])
        invariant next == 0 && Reading()
        decreases |child.Rest()|, |b|
      {
        TakeBatch(b, child.Rest());
        b := child.NextBatch(batchRows);
      }
      assert input + [] + [] == input;
      PutInOrder();
      Yields();
    }

    /** What is yielded is the input in order, by value. */
    lemma Yields()
      requires forall i | 0 <= i < |child.rows| :: RowOk(keys, child.rows[i])
      requires |Whole(keys, child.rows)| == |child.rows|
      requires Stream() == RowsOf(Whole(keys, child.rows)[..Wanted(|child.rows|)])
      ensures Sorts(keys, child.rows, Stream())
      ensures |Stream()| == if limit.Some? && limit.value < |child.rows| then limit.value else |child.rows|
    {
      forall i | 0 <= i < |child.rows| ensures KeysTyped(keys, child.rows[i]) { assert RowOk(keys, child.rows[i]); RowTyped(keys, child.rows[i]); }
      OrderedMeans(keys, child.rows, Wanted(|child.rows|));
    }

    method TakeBatch(b: seq<Row>, ghost rest: seq<Row>)
      requires Reading() && child.rows == input + b + rest
      requires forall i | 0 <= i < |child.rows| :: RowOk(keys, child.rows[i])
      modifies this`rows, this`at, this`order, this`read, this`input
      ensures Reading() && input == old(input) + b
    {
      hide Reading, RowOk;
      var k := 0;
      while k < |b|
        invariant k <= |b| && input == old(input) + b[..k] && Reading()
      {
        RowOkAt(old(input), b, rest, k);
        assert b[..k + 1] == b[..k] + [b[k]];
        Take(b[k], true);
        k := k + 1;
      }
      assert b[..k] == b;
    }

    lemma RowOkAt(before: seq<Row>, b: seq<Row>, rest: seq<Row>, k: nat)
      requires child.rows == before + b + rest && k < |b|
      requires forall i | 0 <= i < |child.rows| :: RowOk(keys, child.rows[i])
      ensures RowOk(keys, b[k])
    {
      assert b[k] == child.rows[|before| + k];
    }

    /** Part way through the input. */
    ghost predicate Reading() reads `rows, `at, `order, `read, `input {
      && read == |input| && Folds(double)
      && match limit
         case None => Everything(keys, double, prefixes, rows, at, order, input)
         case Some(n) => if n == 0 then order == [] else Keeps(keys, double, prefixes, rows, at, order, input, n)
    }

    method Clear()
      requires Folds(double)
      modifies this
      ensures Reading() && input == [] && next == 0
    {
      rows, at, order, next, read, input := [], [], [], 0, 0, [];
      NothingHeld(keys, double, prefixes);
    }

    method Skip(r: Row)
      requires limit == Some(0) && Reading()
      modifies this`read, this`input
      ensures Reading() && input == old(input) + [r]
    {
      read := read + 1;
      input := input + [r];
    }

    method Append(r: Row)
      requires limit == None && Reading() && RowOk(keys, r)
      modifies this`rows, this`at, this`order, this`read, this`input
      ensures Reading() && input == old(input) + [r]
    {
      hide Prefix, RowOk, Folds;
      order := order + [Entry(PrefixOf(r), |rows|)];
      rows := rows + [r];
      at := at + [read];
      read := read + 1;
      input := input + [r];
    }

    method PutInOrder()
      requires Reading() && next == 0
      modifies this`order
      ensures Ready() && |Whole(keys, input)| == |input|
      ensures Stream() == RowsOf(Whole(keys, input)[..Wanted(|input|)])
    {
      hide Whole, Folds, RowOk, AllTruthful, Sorted, Precedes;
      WholeSorted(keys, input);
      AsRead(keys, double, prefixes, rows, at, order, input, limit);
      ghost var was := order;
      order := SortEntries(keys, rows, at, order, double, prefixes);
      HeldBag(rows, at, was, order);
      TruthfulPlaces(keys, double, prefixes, rows, at, order);
      SortedPrefix(keys, Whole(keys, input), Wanted(|input|));
      SortedUnique(keys, Held(rows, at, order), Whole(keys, input)[..Wanted(|input|)]);
    }

    /** Put in order, and part way through yielding it. */
    ghost predicate Ready() reads this {
      next <= |order| && forall i | 0 <= i < |order| :: order[i].row < |rows| && order[i].row < |at|
    }

    method Produce() returns (r: Option<Row>)
      requires Ready()
      modifies this`next
      ensures Ready()
      ensures if old(Stream()) == [] then r == None && Stream() == []
              else r == Some(old(Stream())[0]) && Stream() == old(Stream())[1..]
    {
      if next >= |order| { return None; }
      r := Some(rows[order[next].row]);
      next := next + 1;
    }

    /** At most `max` rows, gathered by position; none is the end. */
    method ProduceBatch(max: nat) returns (out: seq<Row>)
      requires Ready() && max > 0 && batchRows > 0
      modifies this`next
      ensures Ready() && |out| <= max && old(Stream()) == out + Stream() && (out == [] <==> old(Stream()) == [])
    {
      if next >= |order| { return []; }
      var n := Min(Min(max, batchRows), |order| - next);
      out := [];
      while |out| < n
        invariant |out| <= n
        invariant forall j | 0 <= j < |out| :: out[j] == rows[order[next + j].row]
      {
        out := out + [rows[order[next + |out|].row]];
      }
      assert out == RowsOf(Held(rows, at, order))[next..next + n];
      next := next + n;
    }
  }

  /** Every row read, as it was read. */
  ghost predicate Everything(keys: seq<SortKey>, double: real -> nat, prefixes: bool, rows: seq<Row>, at: seq<nat>,
                             order: seq<Entry>, input: seq<Row>) {
    && rows == input && |at| == |order| == |rows|
    && (forall i | 0 <= i < |rows| :: at[i] == i && order[i].row == i && Truthful(keys, double, prefixes, rows, at, order[i]))
  }

  lemma NothingHeld(keys: seq<SortKey>, double: real -> nat, prefixes: bool)
    ensures Everything(keys, double, prefixes, [], [], [], [])
    ensures forall n: nat | n > 0 :: Keeps(keys, double, prefixes, [], [], [], [], n)
  {
    assert Whole(keys, []) == [];
    assert Held([], [], []) == [];
  }

  /** What has been read, as a bag. */
  lemma AsRead(keys: seq<SortKey>, double: real -> nat, prefixes: bool, rows: seq<Row>, at: seq<nat>,
               order: seq<Entry>, input: seq<Row>, limit: Option<nat>)
    requires match limit
             case None => Everything(keys, double, prefixes, rows, at, order, input)
             case Some(n) => if n == 0 then order == [] else Keeps(keys, double, prefixes, rows, at, order, input, n)
    ensures |Whole(keys, input)| == |input| && AllTruthful(keys, double, prefixes, rows, at, order)
    ensures var m := match limit case None => |input| case Some(n) => Min(n, |input|);
            multiset(Held(rows, at, order)) == multiset(Whole(keys, input)[..m])
  {
    WholeSorted(keys, input);
    var s := Whole(keys, input);
    assert s[..|s|] == s && s[..0] == [];
    hide Ordered, Precedes, Prefix, RowOk, Folds, Sorted;
    if limit == None { assert Held(rows, at, order) == ItemsOf(input); }
  }

  lemma TruthfulPlaces(keys: seq<SortKey>, double: real -> nat, prefixes: bool, rows: seq<Row>, at: seq<nat>, order: seq<Entry>)
    requires AllTruthful(keys, double, prefixes, rows, at, order)
    ensures forall i | 0 <= i < |order| :: order[i].row < |rows| && order[i].row < |at|
  {
    assert forall i | 0 <= i < |order| :: Truthful(keys, double, prefixes, rows, at, order[i]);
  }

  lemma SortedPrefix(keys: seq<SortKey>, s: seq<Item>, m: nat)
    requires Sorted(keys, s) && m <= |s|
    ensures Sorted(keys, s[..m])
  {
    hide Precedes;
  }

  lemma KeptCount(keys: seq<SortKey>, double: real -> nat, prefixes: bool, rows: seq<Row>, at: seq<nat>,
                  order: seq<Entry>, input: seq<Row>, n: nat)
    requires Keeps(keys, double, prefixes, rows, at, order, input, n)
    ensures |order| == Min(n, |input|)
  {
  }

  lemma Growing(keys: seq<SortKey>, double: real -> nat, prefixes: bool, rows: seq<Row>, at: seq<nat>,
                order: seq<Entry>, input: seq<Row>, n: nat, r: Row)
    requires |input| < n && Folds(double) && RowOk(keys, r) && Keeps(keys, double, prefixes, rows, at, order, input, n)
    ensures var p := if prefixes then Prefix(keys, r, double) else 0;
            var (rows', at', order') := (rows + [r], at + [|input|], order + [Entry(p, |rows|)]);
            && |rows'| == |at'| == |order'| == |input| + 1 && Slots(order', |order'|)
            && AllTruthful(keys, double, prefixes, rows', at', order')
            && |Whole(keys, input + [r])| == |input| + 1
            && multiset(Held(rows', at', order')) == multiset(Whole(keys, input + [r])[..|input| + 1])
  {
    var p := if prefixes then Prefix(keys, r, double) else 0;
    Grown(keys, rows, at, order, input, n, r, p);
    NewPositionHeld(keys, rows, at, order, input);
    hide Whole, Precedes, Prefix, Folds, RowOk;
    var (rows', at', order') := (rows + [r], at + [|input|], order + [Entry(p, |rows|)]);
    forall i | 0 <= i < |order| ensures ItemAt(rows', at', order'[i]) == ItemAt(rows, at, order[i]) {}
  }

  /** No row held has the next row's position. */
  lemma NewPositionHeld(keys: seq<SortKey>, rows: seq<Row>, at: seq<nat>, order: seq<Entry>, input: seq<Row>)
    requires |order| <= |input| && |Whole(keys, input)| == |input|
    requires multiset(Held(rows, at, order)) == multiset(Whole(keys, input)[..|order|])
    ensures forall i | 0 <= i < |order| :: ItemAt(rows, at, order[i]).pos != |input|
  {
    WholeSorted(keys, input);
    hide Whole;
    SameMembers(Held(rows, at, order), Whole(keys, input)[..|order|]);
    forall i | 0 <= i < |order| ensures ItemAt(rows, at, order[i]).pos != |input| {
      assert Held(rows, at, order)[i] in Whole(keys, input)[..|order|];
    }
  }

  lemma GrownKeeps(keys: seq<SortKey>, double: real -> nat, prefixes: bool, rows: seq<Row>, at: seq<nat>,
                   pushed: seq<Entry>, order: seq<Entry>, input: seq<Row>, n: nat)
    requires 0 < |input| <= n && |rows| == |at| == |pushed| == |order| == |input| && Slots(order, |order|)
    requires AllTruthful(keys, double, prefixes, rows, at, order) && TopFirst(keys, Held(rows, at, order))
    requires |Whole(keys, input)| == |input| && multiset(Held(rows, at, order)) == multiset(Held(rows, at, pushed))
    requires multiset(Held(rows, at, pushed)) == multiset(Whole(keys, input)[..|input|])
    ensures |order| < n ==> Keeps(keys, double, prefixes, rows, at, order, input, n)
    ensures |order| == n ==> Keeps(keys, double, prefixes, rows + [[]], at + [0], order, input, n)
  {
    hide Whole, Precedes, Prefix, Folds, RowOk;
    assert Held(rows + [[]], at + [0], order) == Held(rows, at, order);
  }

  /** The scratch slot belongs to no entry. */
  lemma ScratchFree(keys: seq<SortKey>, double: real -> nat, prefixes: bool, rows: seq<Row>, at: seq<nat>,
                    order: seq<Entry>, n: nat, r: Row, pos: nat)
    requires |rows| == |at| == n + 1 && Slots(order, n) && AllTruthful(keys, double, prefixes, rows, at, order)
    ensures var (rows', at') := (rows[n := r], at[n := pos]);
            Held(rows', at', order) == Held(rows, at, order) && AllTruthful(keys, double, prefixes, rows', at', order)
  {
    hide Prefix, Folds, RowOk;
    var (rows', at') := (rows[n := r], at[n := pos]);
    forall i | 0 <= i < |order|
      ensures ItemAt(rows', at', order[i]) == ItemAt(rows, at, order[i]) && Truthful(keys, double, prefixes, rows', at', order[i])
    {
      assert Truthful(keys, double, prefixes, rows, at, order[i]);
    }
    assert Held(rows', at', order) == Held(rows, at, order);
  }

  /** The newcomer in the scratch slot. */
  lemma Considering(keys: seq<SortKey>, double: real -> nat, prefixes: bool, rows: seq<Row>, at: seq<nat>,
                    order: seq<Entry>, input: seq<Row>, n: nat, r: Row, p: nat)
    requires 0 < n <= |input| && Folds(double) && RowOk(keys, r) && Keeps(keys, double, prefixes, rows, at, order, input, n)
    requires p == if prefixes then Prefix(keys, r, double) else 0
    ensures |rows| == |at| == n + 1 && |order| == n
    ensures var (rows', at') := (rows[n := r], at[n := |input|]);
            && Held(rows', at', order) == Held(rows, at, order)
            && AllTruthful(keys, double, prefixes, rows', at', order) && Slots(order, n)
            && Truthful(keys, double, prefixes, rows', at', Entry(p, n))
            && |Whole(keys, input)| == |input| && multiset(Held(rows', at', order)) == multiset(Whole(keys, input)[..n])
            && TopFirst(keys, Held(rows', at', order))
            && (!EntryBefore(keys, rows', at', Entry(p, n), order[0]) ==>
                  Keeps(keys, double, prefixes, rows', at', order, input + [r], n))
  {
    hide Whole, Precedes, Prefix, Folds, RowOk, EntryBefore, TopFirst, Slots;
    var (rows', at') := (rows[n := r], at[n := |input|]);
    ScratchFree(keys, double, prefixes, rows, at, order, n, r, |input|);
    EntryAgrees(keys, double, prefixes, rows', at', Entry(p, n), order[0]);
    Displaced(keys, Held(rows, at, order), input, n, r);
  }

  /** Turned away by its prefix alone. */
  lemma TurnedAway(keys: seq<SortKey>, double: real -> nat, prefixes: bool, rows: seq<Row>, at: seq<nat>,
                   order: seq<Entry>, input: seq<Row>, n: nat, r: Row, p: nat)
    requires 0 < n <= |input| && Folds(double) && RowOk(keys, r) && Keeps(keys, double, prefixes, rows, at, order, input, n)
    requires p == (if prefixes then Prefix(keys, r, double) else 0) && |order| == n && p > order[0].prefix
    ensures Keeps(keys, double, prefixes, rows, at, order, input + [r], n)
  {
    Considering(keys, double, prefixes, rows, at, order, input, n, r, p);
    Displaced(keys, Held(rows, at, order), input, n, r);
    var (rows', at') := (rows[n := r], at[n := |input|]);
    EntryAgrees(keys, double, prefixes, rows', at', Entry(p, n), order[0]);
    assert ItemAt(rows', at', order[0]) == Held(rows', at', order)[0] == Held(rows, at, order)[0];
    hide Whole, Precedes, Prefix, Folds, RowOk;
  }

  /** The newcomer in the place of the worst row, which is at the back. */
  lemma Replacing(keys: seq<SortKey>, double: real -> nat, prefixes: bool, rows: seq<Row>, at: seq<nat>,
                  was: seq<Entry>, order: seq<Entry>, input: seq<Row>, n: nat, r: Row, p: nat)
    requires 0 < n <= |input| && |rows| == |at| == n + 1 && |was| == |order| == n && rows[n] == r && at[n] == |input|
    requires AllTruthful(keys, double, prefixes, rows, at, was) && AllTruthful(keys, double, prefixes, rows, at, order)
    requires Truthful(keys, double, prefixes, rows, at, Entry(p, n)) && Slots(order, n)
    requires multiset(order) == multiset(was) && order[n - 1] == was[0]
    requires EntryBefore(keys, rows, at, Entry(p, n), was[0])
    requires |Whole(keys, input)| == |input| && multiset(Held(rows, at, was)) == multiset(Whole(keys, input)[..n])
    requires TopFirst(keys, Held(rows, at, was))
    ensures var w := order[n - 1].row;
            var (rows', at', order') := (rows[w := rows[n]][n := rows[w]], at[w := |input|], order[n - 1 := Entry(p, w)]);
            && w < n && AllTruthful(keys, double, prefixes, rows', at', order') && Slots(order', n)
            && |Whole(keys, input + [r])| == |input| + 1
            && multiset(Held(rows', at', order')) == multiset(Whole(keys, input + [r])[..n])
  {
    hide Whole, Precedes, Prefix, Folds, RowOk, EntryBefore, TopFirst;
    var last, x := n - 1, Item(r, |input|);
    assert Truthful(keys, double, prefixes, rows, at, was[0]);
    EntryAgrees(keys, double, prefixes, rows, at, Entry(p, n), was[0]);
    HeldBag(rows, at, was, order);
    NewPositionHeld(keys, rows, at, order, input);
    Displaced(keys, Held(rows, at, was), input, n, r);
    InPlace(keys, double, prefixes, rows, at, order, n, |input|, p);
    ghost var held := Held(rows, at, order);
    assert held[last] == Held(rows, at, was)[0];
    UpdateBag(held, last, x);
  }

  lemma UpdateBag<T>(s: seq<T>, i: nat, x: T)
    requires i < |s|
    ensures multiset(s[i := x]) == multiset(s) - multiset{s[i]} + multiset{x}
  {
  }

  lemma InPlace(keys: seq<SortKey>, double: real -> nat, prefixes: bool, rows: seq<Row>, at: seq<nat>,
                order: seq<Entry>, n: nat, pos: nat, p: nat)
    requires 0 < n && |rows| == |at| == n + 1 && |order| == n && at[n] == pos
    requires AllTruthful(keys, double, prefixes, rows, at, order) && Slots(order, n)
    requires Truthful(keys, double, prefixes, rows, at, Entry(p, n))
    requires forall i | 0 <= i < n :: ItemAt(rows, at, order[i]).pos != pos
    ensures var w := order[n - 1].row;
            var (rows', at', order') := (rows[w := rows[n]][n := rows[w]], at[w := pos], order[n - 1 := Entry(p, w)]);
            && w < n && AllTruthful(keys, double, prefixes, rows', at', order') && Slots(order', n)
            && Held(rows', at', order') == Held(rows, at, order)[n - 1 := Item(rows[n], pos)]
  {
    hide Prefix, Folds, RowOk;
    var w := order[n - 1].row;
    var (rows', at', order') := (rows[w := rows[n]][n := rows[w]], at[w := pos], order[n - 1 := Entry(p, w)]);
    forall i | 0 <= i < n - 1
      ensures ItemAt(rows', at', order'[i]) == ItemAt(rows, at, order[i]) && Truthful(keys, double, prefixes, rows', at', order'[i])
    {
      assert Truthful(keys, double, prefixes, rows, at, order[i]) && order[i].row != w;
    }
    assert ItemAt(rows', at', order'[n - 1]) == Item(rows[n], pos);
  }

  lemma Replaced(keys: seq<SortKey>, double: real -> nat, prefixes: bool, rows: seq<Row>, at: seq<nat>,
                 pushed: seq<Entry>, order: seq<Entry>, input: seq<Row>, n: nat)
    requires 0 < n <= |input| && |rows| == |at| == n + 1 && |order| == n && Slots(order, n)
    requires AllTruthful(keys, double, prefixes, rows, at, order) && TopFirst(keys, Held(rows, at, order))
    requires |Whole(keys, input)| == |input| && multiset(Held(rows, at, order)) == multiset(Held(rows, at, pushed))
    requires multiset(Held(rows, at, pushed)) == multiset(Whole(keys, input)[..n])
    ensures Keeps(keys, double, prefixes, rows, at, order, input, n)
  {
  }
}
