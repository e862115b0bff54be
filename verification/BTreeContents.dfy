/** What the entries of a B+Tree are, as one ascending sequence, and what an
    insertion or a removal does to it. */
module BTreeContents {
  import opened Wrappers
  import opened Sequences
  import opened BTreeShape

  // ---- one ascending sequence, as a map ----

  predicate HasKey(es: seq<Entry>, k: Key) { exists i :: 0 <= i < |es| && es[i].key == k }

  function Below(es: seq<Entry>, k: Key): seq<Entry> {
    if es == [] then [] else (if es[0].key < k then [es[0]] else []) + Below(es[1..], k)
  }

  function Above(es: seq<Entry>, k: Key): seq<Entry> {
    if es == [] then [] else (if es[0].key > k then [es[0]] else []) + Above(es[1..], k)
  }

  /** `k` bound to `v`, whether or not it was bound. */
  function Upsert(es: seq<Entry>, k: Key, v: Value): seq<Entry> { Below(es, k) + [Entry(k, v)] + Above(es, k) }

  function Remove(es: seq<Entry>, k: Key): seq<Entry> { Below(es, k) + Above(es, k) }

  ghost predicate AllLess(es: seq<Entry>, k: nat) { forall i | 0 <= i < |es| :: es[i].key < k }
  ghost predicate AllMore(es: seq<Entry>, k: nat) { forall i | 0 <= i < |es| :: es[i].key > k }

  lemma {:induction false} BelowConcat(a: seq<Entry>, b: seq<Entry>, k: Key)
    ensures Below(a + b, k) == Below(a, k) + Below(b, k)
  {
    if a == [] {
      assert a + b == b;
    } else {
      BelowConcat(a[1..], b, k);
      assert (a + b)[1..] == a[1..] + b;
      var first := if a[0].key < k then [a[0]] else [];
      assert Below(a + b, k) == first + Below(a[1..] + b, k);
      Assoc(first, Below(a[1..], k), Below(b, k));
    }
  }

  lemma {:induction false} AboveConcat(a: seq<Entry>, b: seq<Entry>, k: Key)
    ensures Above(a + b, k) == Above(a, k) + Above(b, k)
  {
    if a == [] {
      assert a + b == b;
    } else {
      AboveConcat(a[1..], b, k);
      assert (a + b)[1..] == a[1..] + b;
      var first := if a[0].key > k then [a[0]] else [];
      assert Above(a + b, k) == first + Above(a[1..] + b, k);
      Assoc(first, Above(a[1..], k), Above(b, k));
    }
  }

  lemma {:induction false} BelowAll(es: seq<Entry>, k: Key)
    ensures AllLess(es, k) ==> Below(es, k) == es && Above(es, k) == []
    ensures AllMore(es, k) ==> Below(es, k) == [] && Above(es, k) == es
  {
    if es != [] {
      BelowAll(es[1..], k);
      assert es == [es[0]] + es[1..];
    }
  }

  /** A change in the middle of a sequence whose ends lie on either side of `k`. */
  lemma Middle(a: seq<Entry>, x: seq<Entry>, b: seq<Entry>, k: Key, v: Value)
    requires AllLess(a, k) && AllMore(b, k)
    ensures Upsert(a + x + b, k, v) == a + Upsert(x, k, v) + b
    ensures Remove(a + x + b, k) == a + Remove(x, k) + b
    ensures HasKey(a + x + b, k) <==> HasKey(x, k)
  {
    MiddleParts(a, x, b, k);
    MiddleKey(a, x, b, k);
    hide Below, Above;
    var below, above, e := Below(x, k), Above(x, k), [Entry(k, v)];
    assert a + below + e + (above + b) == a + (below + e + above) + b;
    assert a + below + (above + b) == a + (below + above) + b;
  }

  lemma {:induction false} MiddleParts(a: seq<Entry>, x: seq<Entry>, b: seq<Entry>, k: Key)
    requires AllLess(a, k) && AllMore(b, k)
    ensures Below(a + x + b, k) == a + Below(x, k) && Above(a + x + b, k) == Above(x, k) + b
  {
    BelowConcat(a + x, b, k);
    BelowConcat(a, x, k);
    AboveConcat(a + x, b, k);
    AboveConcat(a, x, k);
    BelowAll(a, k);
    BelowAll(b, k);
    hide Below, Above;
    assert [] + Above(x, k) == Above(x, k);
    assert a + Below(x, k) + [] == a + Below(x, k);
  }

  lemma MiddleKey(a: seq<Entry>, x: seq<Entry>, b: seq<Entry>, k: Key)
    requires AllLess(a, k) && AllMore(b, k)
    ensures HasKey(a + x + b, k) <==> HasKey(x, k)
  {
    var s := a + x + b;
    if HasKey(s, k) {
      var i :| 0 <= i < |s| && s[i].key == k;
      assert |a| <= i < |a| + |x| && x[i - |a|] == s[i];
    }
    if HasKey(x, k) {
      var i :| 0 <= i < |x| && x[i].key == k;
      assert s[|a| + i] == x[i];
    }
  }

  /** In an ascending leaf, `i` entries below `k`. */
  lemma AtIndex(es: seq<Entry>, lo: nat, hi: nat, i: nat, k: Key, v: Value)
    requires SortedIn(es, lo, hi) && i <= |es|
    requires (forall j | 0 <= j < i :: es[j].key < k) && (forall j | i <= j < |es| :: es[j].key >= k)
    ensures var here := i < |es| && es[i].key == k;
            (HasKey(es, k) <==> here) &&
            (if here then Upsert(es, k, v) == es[i := Entry(k, v)] && Remove(es, k) == es[..i] + es[i + 1..]
             else Upsert(es, k, v) == es[..i] + [Entry(k, v)] + es[i..] && Remove(es, k) == es)
  {
    hide Upsert, Remove, HasKey;
    var here := i < |es| && es[i].key == k;
    var x := if here then [es[i]] else [];
    var b := if here then es[i + 1..] else es[i..];
    Regroup(es, i, x, b, Entry(k, v));
    Middle(es[..i], x, b, k, v);
    Alone(x, k, v);
  }

  lemma Regroup(es: seq<Entry>, i: nat, x: seq<Entry>, b: seq<Entry>, e: Entry)
    requires i <= |es|
    requires (x == [] && b == es[i..]) || (i < |es| && x == [es[i]] && b == es[i + 1..])
    ensures es == es[..i] + x + b && es[..i] + [] + b == es[..i] + b
    ensures x == [] ==> es[..i] + b == es
    ensures x != [] ==> es[..i] + [e] + b == es[i := e]
  {
  }

  lemma Alone(x: seq<Entry>, k: Key, v: Value)
    requires x == [] || (|x| == 1 && x[0].key == k)
    ensures Upsert(x, k, v) == [Entry(k, v)] && Remove(x, k) == [] && (HasKey(x, k) <==> x != [])
  {
    if x != [] {
      assert x[1..] == [];
      assert Below(x, k) == [] + Below([], k) && Above(x, k) == [] + Above([], k);
      assert x[0].key == k && HasKey(x, k);
    }
  }

  /** The order of the tree is the order of its entries. */
  lemma {:induction false} GoodEntries(t: Tree, h: nat, lo: nat, hi: nat)
    requires Good(t, h, lo, hi)
    ensures SortedIn(Entries(t), lo, hi)
    decreases h, 0
  {
    if t.Branch? {
      GoodPrefix(t.keys, t.kids, h, lo, hi, |t.kids|);
      assert t.kids[..|t.kids|] == t.kids;
    }
  }

  lemma {:induction false} GoodPrefix(keys: seq<Key>, kids: seq<Tree>, h: nat, lo: nat, hi: nat, n: nat)
    requires h > 0 && KeysIn(keys, lo, hi) && GoodKids(keys, kids, h, lo, hi) && n <= |kids|
    ensures SortedIn(Flat(kids[..n]), lo, Bound(keys, lo, hi, n))
    decreases h - 1, n
  {
    if n == 0 {
      assert kids[..0] == [];
    } else {
      GoodPrefix(keys, kids, h, lo, hi, n - 1);
      GoodEntries(kids[n - 1], h - 1, Bound(keys, lo, hi, n - 1), Bound(keys, lo, hi, n));
      assert kids[..n] == kids[..n - 1] + [kids[n - 1]];
      FlatConcat(kids[..n - 1], [kids[n - 1]]);
      FlatOne(kids[n - 1]);
      SortedConcat(Flat(kids[..n - 1]), Entries(kids[n - 1]), lo, Bound(keys, lo, hi, n - 1), Bound(keys, lo, hi, n));
    }
  }

  lemma SortedConcat(a: seq<Entry>, b: seq<Entry>, lo: nat, mid: nat, hi: nat)
    requires SortedIn(a, lo, mid) && SortedIn(b, mid, hi) && lo <= mid <= hi
    ensures SortedIn(a + b, lo, hi)
  {
  }

  /** The children on either side of the one whose bounds enclose `k`. */
  lemma {:induction false} ChildSides(keys: seq<Key>, kids: seq<Tree>, h: nat, lo: nat, hi: nat, ci: nat, k: Key)
    requires h > 0 && KeysIn(keys, lo, hi) && GoodKids(keys, kids, h, lo, hi) && ci < |kids|
    requires Bound(keys, lo, hi, ci) <= k < Bound(keys, lo, hi, ci + 1)
    ensures AllLess(Flat(kids[..ci]), k) && AllMore(Flat(kids[ci + 1..]), k)
  {
    hide Good;
    GoodPrefix(keys, kids, h, lo, hi, ci);
    if ci < |keys| {
      GoodCut(0, keys, kids, h, lo, hi, ci + 1, |keys|);
      var c := Cut(0, keys, kids, ci + 1, |keys|);
      assert c.kids == kids[ci + 1..];
      GoodEntries(c, h, Bound(keys, lo, hi, ci + 1), hi);
      assert Entries(c) == Flat(kids[ci + 1..]);
    } else {
      assert kids[ci + 1..] == [];
    }
  }

  /** Only that child is concerned with `k`. */
  lemma {:induction false} ChildChange(keys: seq<Key>, kids: seq<Tree>, h: nat, lo: nat, hi: nat, ci: nat, k: Key, v: Value)
    requires h > 0 && KeysIn(keys, lo, hi) && GoodKids(keys, kids, h, lo, hi) && ci < |kids|
    requires Bound(keys, lo, hi, ci) <= k < Bound(keys, lo, hi, ci + 1)
    ensures var a, x, b := Flat(kids[..ci]), Entries(kids[ci]), Flat(kids[ci + 1..]);
            Flat(kids) == a + x + b && Upsert(Flat(kids), k, v) == a + Upsert(x, k, v) + b &&
            Remove(Flat(kids), k) == a + Remove(x, k) + b && (HasKey(Flat(kids), k) <==> HasKey(x, k))
  {
    ChildSides(keys, kids, h, lo, hi, ci, k);
    hide Good, Upsert, Remove, HasKey;
    FlatThree(kids, ci);
    Middle(Flat(kids[..ci]), Entries(kids[ci]), Flat(kids[ci + 1..]), k, v);
  }

  lemma {:induction false} FlatThree(kids: seq<Tree>, ci: nat)
    requires ci < |kids|
    ensures Flat(kids) == Flat(kids[..ci]) + Entries(kids[ci]) + Flat(kids[ci + 1..])
  {
    hide Flat;
    var a, x, b := kids[..ci], kids[ci], kids[ci + 1..];
    assert kids == a + ([x] + b);
    FlatConcat(a, [x] + b);
    FlatConcat([x], b);
    FlatOne(x);
    Assoc(Flat(a), Entries(x), Flat(b));
  }

  lemma {:induction false} FlatMiddle(a: seq<Tree>, m: seq<Tree>, b: seq<Tree>)
    ensures Flat(a + m + b) == Flat(a) + Flat(m) + Flat(b)
  {
    FlatConcat(a + m, b);
    FlatConcat(a, m);
  }

  // ---- the finite map ----

  function Find(es: seq<Entry>, k: Key): Option<Value> {
    if es == [] then None else if es[0].key == k then Some(es[0].value) else Find(es[1..], k)
  }

  lemma {:induction false} FindKey(es: seq<Entry>, k: Key)
    ensures Find(es, k).Some? <==> HasKey(es, k)
  {
    if es != [] {
      FindKey(es[1..], k);
      if HasKey(es[1..], k) {
        var i :| 0 <= i < |es[1..]| && es[1..][i].key == k;
        assert es[i + 1].key == k;
      }
      if es[0].key != k && HasKey(es, k) {
        var i :| 0 <= i < |es| && es[i].key == k;
        assert es[1..][i - 1].key == k;
      }
    }
  }

  lemma {:induction false} FindConcat(a: seq<Entry>, b: seq<Entry>, k: Key)
    ensures Find(a + b, k) == if Find(a, k).Some? then Find(a, k) else Find(b, k)
  {
    if a == [] {
      assert a + b == b;
    } else {
      FindConcat(a[1..], b, k);
      assert (a + b)[1..] == a[1..] + b;
    }
  }

  lemma {:induction false} FindSides(es: seq<Entry>, k: Key, x: Key)
    ensures Find(Below(es, k), x) == if x < k then Find(es, x) else None
    ensures Find(Above(es, k), x) == if x > k then Find(es, x) else None
  {
    if es != [] {
      FindSides(es[1..], k, x);
      FindConcat(if es[0].key < k then [es[0]] else [], Below(es[1..], k), x);
      FindConcat(if es[0].key > k then [es[0]] else [], Above(es[1..], k), x);
    }
  }

  lemma {:induction false} FindChange(es: seq<Entry>, k: Key, v: Value, x: Key)
    ensures Find(Upsert(es, k, v), x) == if x == k then Some(v) else Find(es, x)
    ensures Find(Remove(es, k), x) == if x == k then None else Find(es, x)
  {
    var below, above, e := Below(es, k), Above(es, k), [Entry(k, v)];
    FindSides(es, k, x);
    FindConcat(below + e, above, x);
    FindConcat(below, e, x);
    FindConcat(below, above, x);
    hide Below, Above;
    assert e[1..] == [];
  }

  /** A lookup concerns only the middle. */
  lemma {:induction false} FindMiddle(a: seq<Entry>, x: seq<Entry>, b: seq<Entry>, k: Key)
    requires AllLess(a, k) && AllMore(b, k)
    ensures Find(a + x + b, k) == Find(x, k)
  {
    FindConcat(a + x, b, k);
    FindConcat(a, x, k);
    FindKey(a, k);
    FindKey(b, k);
  }

  lemma {:induction false} FindAt(es: seq<Entry>, i: nat, k: Key)
    requires i <= |es| && (forall j | 0 <= j < i :: es[j].key < k) && (forall j | i < j < |es| :: es[j].key > k)
    requires i < |es| ==> es[i].key >= k
    ensures Find(es, k) == if i < |es| && es[i].key == k then Some(es[i].value) else None
  {
    var x := if i < |es| then [es[i]] else [];
    var b := if i < |es| then es[i + 1..] else [];
    assert es == es[..i] + x + b;
    FindMiddle(es[..i], x, b, k);
    assert x != [] ==> x[1..] == [];
  }

  function AsMap(es: seq<Entry>): map<Key, Value> {
    if es == [] then map[] else AsMap(es[1..])[es[0].key := es[0].value]
  }

  lemma {:induction false} AsMapFind(es: seq<Entry>, k: Key)
    ensures Find(es, k) == if k in AsMap(es) then Some(AsMap(es)[k]) else None
  {
    if es != [] { AsMapFind(es[1..], k); }
  }

  /** The map changes as its entries do. */
  lemma {:induction false} MapChange(es: seq<Entry>, k: Key, v: Value)
    ensures AsMap(Upsert(es, k, v)) == AsMap(es)[k := v] && AsMap(Remove(es, k)) == AsMap(es) - {k}
  {
    hide Find, AsMap, Upsert, Remove;
    var up, down, m := AsMap(Upsert(es, k, v)), AsMap(Remove(es, k)), AsMap(es);
    forall x: Key
      ensures (x in up <==> x in m[k := v]) && (x in up ==> up[x] == m[k := v][x])
      ensures (x in down <==> x in m - {k}) && (x in down ==> down[x] == m[x])
    {
      AsMapFind(es, x);
      AsMapFind(Upsert(es, k, v), x);
      AsMapFind(Remove(es, k), x);
      FindChange(es, k, v, x);
    }
  }

  // ---- the entries from a key on ----

  function AtLeast(es: seq<Entry>, k: Key): seq<Entry> {
    if es == [] then [] else (if es[0].key >= k then [es[0]] else []) + AtLeast(es[1..], k)
  }

  lemma {:induction false} AtLeastConcat(a: seq<Entry>, b: seq<Entry>, k: Key)
    ensures AtLeast(a + b, k) == AtLeast(a, k) + AtLeast(b, k)
  {
    if a == [] {
      assert a + b == b;
    } else {
      AtLeastConcat(a[1..], b, k);
      assert (a + b)[1..] == a[1..] + b;
      var first := if a[0].key >= k then [a[0]] else [];
      assert AtLeast(a + b, k) == first + AtLeast(a[1..] + b, k);
      Assoc(first, AtLeast(a[1..], k), AtLeast(b, k));
    }
  }

  lemma {:induction false} AtLeastAll(es: seq<Entry>, k: Key)
    ensures AllLess(es, k) ==> AtLeast(es, k) == []
    ensures (forall i | 0 <= i < |es| :: es[i].key >= k) ==> AtLeast(es, k) == es
  {
    if es != [] {
      AtLeastAll(es[1..], k);
      assert es == [es[0]] + es[1..];
    }
  }

  lemma {:induction false} AtLeastMembers(es: seq<Entry>, k: Key, e: Entry)
    ensures e in AtLeast(es, k) <==> e in es && e.key >= k
  {
    if es != [] {
      AtLeastMembers(es[1..], k, e);
      assert es == [es[0]] + es[1..];
    }
  }

  /** ... are the entries whose key is at least it, each once, in ascending order. */
  lemma {:induction false} AtLeastMeaning(es: seq<Entry>, k: Key, lo: nat, hi: nat)
    requires SortedIn(es, lo, hi)
    ensures SortedIn(AtLeast(es, k), lo, hi) && forall e :: e in AtLeast(es, k) <==> e in es && e.key >= k
  {
    forall e ensures e in AtLeast(es, k) <==> e in es && e.key >= k { AtLeastMembers(es, k, e); }
    if es != [] {
      var first, rest := es[0], AtLeast(es[1..], k);
      AtLeastMeaning(es[1..], k, lo, hi);
      forall i | 0 <= i < |rest| ensures first.key < rest[i].key { AtLeastMembers(es[1..], k, rest[i]); }
      hide AtLeast;
      SortedCons(first, rest, lo, hi);
    }
  }

  lemma SortedCons(e: Entry, es: seq<Entry>, lo: nat, hi: nat)
    requires SortedIn(es, lo, hi) && lo <= e.key < hi && forall i | 0 <= i < |es| :: e.key < es[i].key
    ensures SortedIn([e] + es, lo, hi) && SortedIn([] + es, lo, hi)
  {
    assert [] + es == es;
    assert SortedIn(es, e.key + 1, hi) && SortedIn([e], lo, e.key + 1);
    hide SortedIn;
    SortedConcat([e], es, lo, e.key + 1, hi);
  }

  /** A map's pairs from a key on, each once, in ascending order. */
  ghost predicate Lists(es: seq<Entry>, m: map<Key, Value>, lo: Key) {
    && (forall i, j | 0 <= i < j < |es| :: es[i].key < es[j].key)
    && forall e :: e in es <==> e.key >= lo && e.key in m && m[e.key] == e.value
  }

  lemma {:induction false} PairsOfMap(es: seq<Entry>, lo: nat, hi: nat, e: Entry)
    requires SortedIn(es, lo, hi)
    ensures e in es <==> e.key in AsMap(es) && AsMap(es)[e.key] == e.value
    ensures e.key in AsMap(es) ==> lo <= e.key < hi
  {
    if es != [] {
      assert SortedIn(es[1..], es[0].key + 1, hi);
      PairsOfMap(es[1..], es[0].key + 1, hi, e);
      assert es == [es[0]] + es[1..];
    }
  }

  lemma {:induction false} ListsFrom(es: seq<Entry>, k: Key, lo: nat, hi: nat)
    requires SortedIn(es, lo, hi)
    ensures Lists(AtLeast(es, k), AsMap(es), k)
  {
    AtLeastMeaning(es, k, lo, hi);
    forall e: Entry ensures e in es <==> e.key in AsMap(es) && AsMap(es)[e.key] == e.value { PairsOfMap(es, lo, hi, e); }
    hide AtLeast, AsMap;
  }

  lemma LastListed(es: seq<Entry>, m: map<Key, Value>)
    requires Lists(es, m, 0)
    ensures es == [] <==> m == map[]
    ensures es != [] ==> var e := es[|es| - 1]; e.key in m && m[e.key] == e.value && forall k | k in m :: k <= e.key
  {
    forall k | k in m ensures exists i :: 0 <= i < |es| && es[i].key == k {
      assert Entry(k, m[k]) in es;
      var i :| 0 <= i < |es| && es[i] == Entry(k, m[k]);
    }
    if es != [] { assert es[|es| - 1] in es; }
  }

  // ---- how many entries a tree of a given height must hold ----

  function Pow(b: nat, n: nat): nat { if n == 0 then 1 else b * Pow(b, n - 1) }

  /** The fewest entries of a node at least half full, `h` levels above its leaves. */
  function Fewest(h: nat): nat { LEAF_MIN * Pow(INTERNAL_MIN + 1, h) }

  lemma {:induction false} HalfHolds(t: Tree, h: nat, lo: nat, hi: nat)
    requires Good(t, h, lo, hi) && Half(t)
    ensures |Entries(t)| >= Fewest(h)
    decreases h, 0
  {
    if t.Branch? {
      KidsHold(t.keys, t.kids, h, lo, hi, |t.kids|);
      assert t.kids[..|t.kids|] == t.kids;
      Times(INTERNAL_MIN + 1, |t.kids|, Fewest(h - 1));
      Associates(INTERNAL_MIN + 1, LEAF_MIN, Pow(INTERNAL_MIN + 1, h - 1));
    }
  }

  lemma {:induction false} KidsHold(keys: seq<Key>, kids: seq<Tree>, h: nat, lo: nat, hi: nat, n: nat)
    requires h > 0 && GoodKids(keys, kids, h, lo, hi) && n <= |kids|
    ensures |Flat(kids[..n])| >= n * Fewest(h - 1)
    decreases h - 1, n
  {
    if n == 0 {
      assert kids[..0] == [];
    } else {
      KidsHold(keys, kids, h, lo, hi, n - 1);
      HalfHolds(kids[n - 1], h - 1, Bound(keys, lo, hi, n - 1), Bound(keys, lo, hi, n));
      assert kids[..n] == kids[..n - 1] + [kids[n - 1]];
      FlatConcat(kids[..n - 1], [kids[n - 1]]);
      FlatOne(kids[n - 1]);
      OneMore(n - 1, Fewest(h - 1));
    }
  }

  lemma Times(a: nat, b: nat, x: nat) requires a <= b ensures a * x <= b * x {}
  lemma OneMore(n: nat, x: nat) ensures (n + 1) * x == n * x + x {}
  lemma Associates(a: nat, b: nat, c: nat) ensures a * (b * c) == b * (a * c) {}

  /** A tree with `h` levels below its root (`h + 1` pages on every lookup) holds at
      least twice what a half-full subtree must. */
  lemma {:induction false} HeightBound(t: Tree, h: nat, lo: nat, hi: nat)
    requires h >= 1 && Good(t, h, lo, hi) && Size(t) >= 1
    ensures |Entries(t)| >= 2 * Fewest(h - 1)
  {
    KidsHold(t.keys, t.kids, h, lo, hi, |t.kids|);
    assert t.kids[..|t.kids|] == t.kids;
    Times(2, |t.kids|, Fewest(h - 1));
  }
}
