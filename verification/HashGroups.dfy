/** GROUP BY through a hash table with linear probing (src/operator.cpp:989-1337). */
module GroupSlots {
  // A table of slots: 0 for empty, else a group's number and one. Group `g` was put as
  // many slots past its home as `dists[g]` says, the slots in between taken.

  /** The slot `d` past `h`, going around. */
  function Around(h: nat, d: nat, n: nat): nat { if h + d < n then h + d else h + d - n }

  ghost predicate Table(slots: seq<nat>, homes: seq<nat>, dists: seq<nat>) {
    && |homes| == |dists|
    && (forall i | 0 <= i < |slots| :: slots[i] <= |homes|)
    && (forall g | 0 <= g < |homes| :: InPlace(slots, homes, dists, g))
    && (forall i | 0 <= i < |slots| && slots[i] != 0 :: Around(homes[slots[i] - 1], dists[slots[i] - 1], |slots|) == i)
  }

  ghost predicate InPlace(slots: seq<nat>, homes: seq<nat>, dists: seq<nat>, g: nat)
    requires g < |homes| == |dists|
  {
    && homes[g] < |slots| && dists[g] < |slots| && slots[Around(homes[g], dists[g], |slots|)] == g + 1
    && Taken(slots, homes[g], dists[g])
  }

  /** The first `d` slots from `h` on are taken. */
  ghost predicate Taken(slots: seq<nat>, h: nat, d: nat)
    requires h < |slots| && d <= |slots|
  {
    forall e | 0 <= e < d :: slots[Around(h, e, |slots|)] != 0
  }

  lemma NextAround(h: nat, d: nat, n: nat)
    requires h < n && d < n
    ensures Around(h, d, n) < n && (Around(h, d, n) + 1) % n == Around(h, d + 1, n) % n
    ensures d + 1 < n ==> Around(h, d + 1, n) < n && (Around(h, d, n) + 1) % n == Around(h, d + 1, n)
  {
    var i := Around(h, d, n);
    if i + 1 < n { SmallMod(i + 1, n); } else { SelfMod(n); if h + d + 1 >= n && h + d + 1 - n < n { SmallMod(h + d + 1 - n, n); } }
  }

  lemma SmallMod(i: nat, n: nat) requires i < n ensures i % n == i {}
  lemma SelfMod(n: nat) requires n > 0 ensures n % n == 0 {}

  function Elements(s: seq<nat>): set<nat> { set x | x in s }

  lemma {:induction false} FewElements(s: seq<nat>)
    ensures |Elements(s)| <= |s|
  {
    if s != [] {
      FewElements(s[1..]);
      assert Elements(s) == {s[0]} + Elements(s[1..]);
    }
  }

  lemma {:induction false} UpTo(n: nat) returns (all: set<nat>)
    ensures |all| == n && forall i: nat :: i in all <==> i < n
  {
    if n == 0 { return {}; }
    all := UpTo(n - 1);
    all := all + {n - 1};
  }

  lemma {:induction false} Fewer(a: set<nat>, b: set<nat>)
    requires a <= b
    ensures |a| <= |b|
  {
    if a != {} {
      var x :| x in a;
      Fewer(a - {x}, b - {x});
    }
  }

  /** A table that is not full of groups has an empty slot. */
  lemma SomeEmpty(slots: seq<nat>, homes: seq<nat>, dists: seq<nat>)
    requires Table(slots, homes, dists) && |homes| < |slots|
    ensures exists i | 0 <= i < |slots| :: slots[i] == 0
  {
    if forall i | 0 <= i < |slots| :: slots[i] != 0 {
      var places := seq(|homes|, g requires 0 <= g < |homes| => Around(homes[g], dists[g], |slots|));
      var all := UpTo(|slots|);
      forall i | i in all ensures i in Elements(places) { assert places[slots[i] - 1] == i; }
      Fewer(all, Elements(places));
      FewElements(places);
      assert false;
    }
  }

  /** Every slot is some number of steps from any. */
  lemma StepsTo(h: nat, i: nat, n: nat) returns (d: nat)
    requires h < n && i < n
    ensures d < n && Around(h, d, n) == i
  {
    d := if i >= h then i - h else i + n - h;
  }

  /** Where a probe stops, at the first empty slot, every group with its home was met. */
  lemma AllMet(slots: seq<nat>, homes: seq<nat>, dists: seq<nat>, h: nat, d: nat, g: nat)
    requires Table(slots, homes, dists) && h < |slots| && d < |slots| && slots[Around(h, d, |slots|)] == 0
    requires g < |homes| && homes[g] == h
    ensures dists[g] < d
  {
    assert InPlace(slots, homes, dists, g);
  }

  /** A group put in the empty slot its probe found. */
  lemma Put(slots: seq<nat>, homes: seq<nat>, dists: seq<nat>, h: nat, d: nat)
    requires Table(slots, homes, dists) && h < |slots| && d < |slots|
    requires Taken(slots, h, d) && slots[Around(h, d, |slots|)] == 0
    ensures Table(slots[Around(h, d, |slots|) := |homes| + 1], homes + [h], dists + [d])
  {
    var n, i := |slots|, Around(h, d, |slots|);
    var s, hs, ds := slots[i := |homes| + 1], homes + [h], dists + [d];
    forall g | 0 <= g < |hs| ensures InPlace(s, hs, ds, g) {
      if g < |homes| {
        assert InPlace(slots, homes, dists, g);
        StillTaken(slots, homes[g], dists[g], i, |homes| + 1);
      } else {
        StillTaken(slots, h, d, i, |homes| + 1);
      }
    }
  }

  lemma StillTaken(slots: seq<nat>, h: nat, d: nat, i: nat, v: nat)
    requires h < |slots| && d <= |slots| && i < |slots| && v != 0 && Taken(slots, h, d)
    ensures Taken(slots[i := v], h, d)
  {
    assert forall e | 0 <= e < d :: Around(h, e, |slots|) < |slots|;
  }

  lemma EmptyTable(n: nat)
    ensures Table(seq(n, i => 0), [], [])
  {
  }
}

module HashGroups {
  import opened Wrappers
  import opened SqlTypes
  import opened Rows
  import opened Batches
  import opened GroupSpec
  import opened GroupSlots

  /** How a key is hashed: each field alone, the fields together, and the result mixed. */
  datatype Hasher = Hasher(raw: Part -> nat, combine: (nat, nat) -> nat, mix: nat -> nat)

  function HashParts(h: Hasher, p: seq<Part>): nat {
    if p == [] then 0 else if |p| == 1 then h.raw(p[0]) else h.combine(HashParts(h, p[..|p| - 1]), h.raw(p[|p| - 1]))
  }

  /** The fields of a key have their columns' types, and a NULL integer is held as 0. */
  predicate KeyOk(types: seq<ColType>, key: Row) {
    |key| == |types| && forall k | 0 <= k < |types| :: key[k].ctype == types[k] && (key[k].isNull ==> key[k].i64 == 0)
  }

  function Homes(h: Hasher, hashes: seq<nat>, n: nat): (homes: seq<nat>)
    requires n > 0
    ensures |homes| == |hashes|
  {
    seq(|hashes|, g requires 0 <= g < |hashes| => h.mix(hashes[g]) % n)
  }

  lemma HomesMore(h: Hasher, hashes: seq<nat>, hash: nat, n: nat)
    requires n > 0
    ensures Homes(h, hashes + [hash], n) == Homes(h, hashes, n) + [h.mix(hash) % n]
  {
  }

  ghost predicate HashesOk(h: Hasher, keys: seq<Row>, hashes: seq<nat>) {
    |hashes| == |keys| && forall g | 0 <= g < |keys| :: hashes[g] == HashParts(h, Parts(keys[g]))
  }

  /** One integer key, compared as the batch path does. */
  lemma IntKeyIs(types: seq<ColType>, a: Row, b: Row)
    requires KeyOk(types, a) && KeyOk(types, b) && |types| == 1 && !types[0].Text? && !types[0].Double?
    ensures a[0].isNull == b[0].isNull && a[0].i64 == b[0].i64 <==> Parts(a) == Parts(b)
  {
    if Parts(a) == Parts(b) { assert Parts(a)[0] == Parts(b)[0]; }
  }

  lemma SameParts(types: seq<ColType>, a: Row, b: Row)
    requires KeyOk(types, a) && KeyOk(types, b)
    ensures (forall k | 0 <= k < |types| :: SameField(a[k], b[k])) <==> Parts(a) == Parts(b)
  {
    forall k | 0 <= k < |types| ensures SameField(a[k], b[k]) <==> Parts(a)[k] == Parts(b)[k] { SameFieldIs(a[k], b[k]); }
    if forall k | 0 <= k < |types| :: SameField(a[k], b[k]) {
      assert forall k | 0 <= k < |types| :: Parts(a)[k] == Parts(b)[k];
    }
  }

  lemma Whole<T>(s: seq<T>) ensures s[..|s|] == s {}
  lemma OneMore<T>(s: seq<T>, n: nat) requires n < |s| ensures s[..n + 1] == s[..n] + [s[n]] {}
  /** The groups so far and the table that finds them. */
  class GroupTable {
    const types: seq<ColType>
    const hasher: Hasher
    var keys: seq<Row>
    var hashes: seq<nat>
    var slots: seq<nat>
    ghost var dists: seq<nat>

    ghost predicate Valid() reads this {
      && |slots| >= 16 && 2 * |keys| <= |slots|
      && Indexed()
    }

    ghost predicate Indexed() reads this {
      && |slots| > 0 && HashesOk(hasher, keys, hashes) && Distinct(keys) && (forall g | 0 <= g < |keys| :: KeyOk(types, keys[g]))
      && Table(slots, Homes(hasher, hashes, |slots|), dists)
    }

    constructor (types: seq<ColType>, hasher: Hasher)
      ensures this.types == types && this.hasher == hasher && Valid() && keys == []
    {
      this.types, this.hasher := types, hasher;
      keys, hashes, dists := [], [], [];
      slots := seq(16, i => 0);
      EmptyTable(16);
    }

    /** Whether a key is group `g`'s: field by field, or for one integer key its value
        and NULL flag. */
    method SameKey(key: Row, g: nat, intKey: bool) returns (same: bool)
      requires Indexed() && g < |keys| && KeyOk(types, key)
      requires intKey ==> |types| == 1 && !types[0].Text? && !types[0].Double?
      ensures same <==> Parts(key) == Parts(keys[g])
    {
      if intKey {
        IntKeyIs(types, key, keys[g]);
        return key[0].isNull == keys[g][0].isNull && key[0].i64 == keys[g][0].i64;
      }
      SameParts(types, key, keys[g]);
      for k := 0 to |types|
        invariant forall j | 0 <= j < k :: SameField(key[j], keys[g][j])
      {
        if !SameField(key[k], keys[g][k]) { return false; }
      }
      return true;
    }

    /** From the key's home on, slot by slot: the group that has it, or the first empty
        slot. Some slot is empty, so the probe ends. */
    method Probe(key: Row, h: nat, intKey: bool) returns (g: Option<nat>, i: nat, ghost d: nat)
      requires Valid() && KeyOk(types, key) && h == HashParts(hasher, Parts(key))
      requires intKey ==> |types| == 1 && !types[0].Text? && !types[0].Double?
      ensures g.Some? ==> g.value == Find(keys, Parts(key)) < |keys|
      ensures g.None? ==> Find(keys, Parts(key)) == |keys|
      ensures g.None? ==> i < |slots| && slots[i] == 0 && d < |slots| && Taken(slots, hasher.mix(h) % |slots|, d)
                          && i == Around(hasher.mix(h) % |slots|, d, |slots|)
    {
      hide Table, InPlace, HashParts, Homes, Parts, Distinct, KeyOk;
      ghost var home, homes, n := hasher.mix(h) % |slots|, Homes(hasher, hashes, |slots|), |slots|;
      SomeEmpty(slots, homes, dists);
      ghost var empty :| 0 <= empty < n && slots[empty] == 0;
      ghost var far := StepsTo(home, empty, n);
      i, d := hasher.mix(h) % |slots|, 0;
      while true
        invariant d <= far && i == Around(home, d, n) && Taken(slots, home, d)
        invariant Missed(home, d, Parts(key))
        decreases far - d
      {
        if slots[i] == 0 {
          NotThere(key, h, d);
          return None, i, d;
        }
        SlotGroup(i);
        var s := slots[i] - 1;
        if hashes[s] == h {
          var same := SameKey(key, s, intKey);
          if same {
            FindOnly(keys, s, Parts(key));
            return Some(s), i, d;
          }
        }
        OneMissed(home, d, key, h);
        NextAround(home, d, n);
        i := (i + 1) % |slots|;
        d := d + 1;
      }
    }

    /** The first `d` slots from `home` on hold groups of other keys. */
    ghost predicate Missed(home: nat, d: nat, p: seq<Part>) reads this requires Indexed() && home < |slots| && d <= |slots| {
      forall e | 0 <= e < d :: HoldsOther(Around(home, e, |slots|), p)
    }

    ghost predicate HoldsOther(i: nat, p: seq<Part>) reads this requires Indexed() {
      i < |slots| && 0 < slots[i] <= |keys| && Parts(keys[slots[i] - 1]) != p
    }

    lemma SlotGroup(i: nat)
      requires Indexed() && i < |slots| && slots[i] != 0
      ensures slots[i] <= |keys| == |hashes|
    {
    }

    lemma OneMissed(home: nat, d: nat, key: Row, h: nat)
      requires Indexed() && home < |slots| && d < |slots| && Missed(home, d, Parts(key)) && Taken(slots, home, d)
      requires h == HashParts(hasher, Parts(key))
      requires var i := Around(home, d, |slots|);
               0 < slots[i] <= |keys| && (hashes[slots[i] - 1] != h || Parts(key) != Parts(keys[slots[i] - 1]))
      ensures Missed(home, d + 1, Parts(key)) && Taken(slots, home, d + 1)
    {
      hide Parts, HashParts;
    }

    lemma MissedAt(home: nat, d: nat, e: nat, g: nat, p: seq<Part>)
      requires Indexed() && home < |slots| && e < d <= |slots| && Missed(home, d, p)
      requires g < |keys| && slots[Around(home, e, |slots|)] == g + 1
      ensures Parts(keys[g]) != p
    {
      hide Parts;
      assert HoldsOther(Around(home, e, |slots|), p);
    }

    lemma NotThere(key: Row, h: nat, d: nat)
      requires Indexed() && h == HashParts(hasher, Parts(key)) && d < |slots|
      requires Missed(hasher.mix(h) % |slots|, d, Parts(key)) && slots[Around(hasher.mix(h) % |slots|, d, |slots|)] == 0
      ensures Find(keys, Parts(key)) == |keys|
    {
      hide Table, Parts, HashParts;
      var g, home := Find(keys, Parts(key)), hasher.mix(h) % |slots|;
      if g < |keys| {
        Standing(g);
        var e := dists[g];
        AllMet(slots, Homes(hasher, hashes, |slots|), dists, home, d, g);
        if e < d { MissedAt(home, d, e, g, Parts(key)); }
        assert false;
      }
    }

    lemma Standing(g: nat)
      requires Indexed() && g < |keys|
      ensures |keys| == |hashes| == |dists| && hasher.mix(hashes[g]) % |slots| < |slots| && dists[g] < |slots|
      ensures slots[Around(hasher.mix(hashes[g]) % |slots|, dists[g], |slots|)] == g + 1
      ensures hashes[g] == HashParts(hasher, Parts(keys[g]))
    {
      assert InPlace(slots, Homes(hasher, hashes, |slots|), dists, g);
    }

    /** A new group in the empty slot its probe found; twice the slots when more than
        half would be taken. */
    method Add(key: Row, h: nat, i: nat, ghost d: nat)
      requires Valid() && KeyOk(types, key) && h == HashParts(hasher, Parts(key)) && Find(keys, Parts(key)) == |keys|
      requires i < |slots| && slots[i] == 0 && d < |slots| && Taken(slots, hasher.mix(h) % |slots|, d)
      requires i == Around(hasher.mix(h) % |slots|, d, |slots|)
      modifies this
      ensures Valid() && keys == old(keys) + [key]
    {
      hide Table, InPlace, HashParts, Homes, Parts, KeyOk, Taken;
      Put(slots, Homes(hasher, hashes, |slots|), dists, hasher.mix(h) % |slots|, d);
      HomesMore(hasher, hashes, h, |slots|);
      keys, hashes, dists := keys + [key], hashes + [h], dists + [d];
      slots := slots[i := |keys|];
      if |keys| * 2 > |slots| { Grow(); }
    }

    method Grow()
      requires Indexed() && |slots| >= 16 && |keys| <= |slots|
      modifies this`slots, this`dists
      ensures Indexed() && |slots| == 2 * old(|slots|)
    {
      assert |hashes| == |keys|;
      hide Table, InPlace, HashParts, Parts, KeyOk, Taken, HashesOk, Distinct, Homes;
      slots := seq(|slots| * 2, i => 0);
      EmptyTable(|slots|);
      dists := [];
      ghost var n := |slots|;
      var g := 0;
      while g < |hashes|
        invariant g <= |hashes| < n == |slots| && Table(slots, Homes(hasher, hashes[..g], n), dists)
      {
        ghost var homes, home := Homes(hasher, hashes[..g], n), hasher.mix(hashes[g]) % n;
        var i; ghost var d;
        i, d := FreeSlot(slots, hasher.mix(hashes[g]) % |slots|, homes, dists);
        Put(slots, homes, dists, home, d);
        HomesMore(hasher, hashes[..g], hashes[g], n);
        OneMore(hashes, g);
        slots := slots[i := g + 1];
        dists := dists + [d];
        g := g + 1;
      }
      Whole(hashes);
    }
  }

  /** The first empty slot from `home` on. */
  method FreeSlot(slots: seq<nat>, home: nat, ghost homes: seq<nat>, ghost dists: seq<nat>) returns (i: nat, ghost d: nat)
    requires Table(slots, homes, dists) && |homes| < |slots| && home < |slots|
    ensures i < |slots| && d < |slots| && i == Around(home, d, |slots|) && slots[i] == 0 && Taken(slots, home, d)
  {
    hide Taken;
    ghost var n := |slots|;
    SomeEmpty(slots, homes, dists);
    hide Table;
    ghost var empty :| 0 <= empty < n && slots[empty] == 0;
    ghost var far := StepsTo(home, empty, n);
    i, d := home, 0;
    NoneTaken(slots, home);
    while slots[i] != 0
      invariant d <= far && i < n && i == Around(home, d, n) && Taken(slots, home, d)
      decreases far - d
    {
      OneTaken(slots, home, d);
      NextAround(home, d, n);
      i := (i + 1) % |slots|;
      d := d + 1;
    }
  }

  lemma NoneTaken(slots: seq<nat>, h: nat) requires h < |slots| ensures Taken(slots, h, 0) {}

  lemma OneTaken(slots: seq<nat>, h: nat, d: nat)
    requires h < |slots| && d < |slots| && Taken(slots, h, d) && slots[Around(h, d, |slots|)] != 0
    ensures Taken(slots, h, d + 1)
  {
  }

  // ---- the states, as rows arrive ----

  lemma {:induction false} MembersMore(done: seq<Row>, row: Row, cols: seq<nat>, p: seq<Part>)
    ensures Members(done + [row], cols, p) == Members(done, cols, p) + if KeyParts(row, cols) == p then [row] else []
  {
    assert (done + [row])[..|done|] == done;
  }

  lemma FoldOne(q: Query, done: seq<Row>, row: Row, key: Row, a: nat)
    requires a < |q.aggs|
    ensures GroupFold(q, done + [row], key, a) ==
            if KeyParts(row, q.cols) != Parts(key) then GroupFold(q, done, key, a)
            else match GroupFold(q, done, key, a) case None => None case Some(s) => Update(q.aggs[a], s, At(row, q.aggs[a].col))
  {
    hide Parts, KeyParts, Update;
    var p := Parts(key);
    MembersMore(done, row, q.cols, p);
    if KeyParts(row, q.cols) == p {
      assert Members(done + [row], q.cols, p)[..|Members(done, q.cols, p)|] == Members(done, q.cols, p);
    } else {
      assert Members(done, q.cols, p) + [] == Members(done, q.cols, p);
    }
  }

  lemma {:induction false} SeenMore(done: seq<Row>, row: Row, cols: seq<nat>)
    ensures Seen(done + [row], cols) == WithKey(Seen(done, cols), Project(row, cols))
  {
    assert (done + [row])[..|done|] == done;
  }

  lemma {:induction false} WithKeyFinds(keys: seq<Row>, key: Row)
    ensures var g, all := Find(keys, Parts(key)), WithKey(keys, key); g < |all| && Parts(all[g]) == Parts(key) && keys <= all
  {
  }

  lemma {:induction false} NewGroup(q: Query, done: seq<Row>, keys: seq<Row>, key: Row, a: nat)
    requires a < |q.aggs| && Seen(done, q.cols) <= keys && Find(keys, Parts(key)) == |keys|
    ensures GroupFold(q, done, key, a) == Some(Start(q.aggs[a]))
  {
    var some := Seen(done, q.cols);
    assert forall g | 0 <= g < |some| :: keys[g] == some[g];
    NoMembers(done, q.cols, Parts(key));
  }

  /** Every group's states are folds over the rows so far. */
  ghost predicate States(q: Query, done: seq<Row>, keys: seq<Row>, states: seq<seq<AggState>>) {
    |states| == |keys| && forall g | 0 <= g < |keys| :: StatesOf(q, done, keys[g], states[g], |q.aggs|)
  }

  ghost predicate StatesOf(q: Query, done: seq<Row>, key: Row, st: seq<AggState>, n: nat) {
    |st| == |q.aggs| && n <= |q.aggs| && forall a | 0 <= a < n :: GroupFold(q, done, key, a) == Some(st[a])
  }

  /** A row for one group leaves the others as they are. */
  lemma OtherGroups(q: Query, done: seq<Row>, row: Row, keys: seq<Row>, before: seq<seq<AggState>>, after: seq<seq<AggState>>, g0: nat)
    requires States(q, done, keys, before) && g0 < |keys| && Distinct(keys) && Parts(keys[g0]) == KeyParts(row, q.cols)
    requires |after| == |before| && (forall g | 0 <= g < |keys| && g != g0 :: after[g] == before[g])
    requires StatesOf(q, done + [row], keys[g0], after[g0], |q.aggs|)
    ensures States(q, done + [row], keys, after)
  {
    hide Parts, KeyParts, GroupFold;
    forall g | 0 <= g < |keys| && g != g0 ensures StatesOf(q, done + [row], keys[g], after[g], |q.aggs|) {
      assert StatesOf(q, done, keys[g], before[g], |q.aggs|);
      assert Parts(keys[g]) != Parts(keys[g0]);
      forall a | 0 <= a < |q.aggs| ensures GroupFold(q, done + [row], keys[g], a) == Some(after[g][a]) { FoldOne(q, done, row, keys[g], a); }
    }
  }

  /** One aggregate's states, group by group. */
  ghost predicate Column(q: Query, a: nat, done: seq<Row>, keys: seq<Row>, col: seq<AggState>) {
    a < |q.aggs| && |col| == |keys| && forall g | 0 <= g < |keys| :: GroupFold(q, done, keys[g], a) == Some(col[g])
  }

  ghost predicate Columns(q: Query, done: seq<Row>, keys: seq<Row>, folded: seq<seq<AggState>>) {
    |folded| == |q.aggs| && forall a | 0 <= a < |folded| :: Column(q, a, done, keys, folded[a])
  }

  lemma ColumnOne(q: Query, a: nat, done: seq<Row>, row: Row, keys: seq<Row>, col: seq<AggState>, g0: nat, s: AggState)
    requires Column(q, a, done, keys, col) && g0 < |keys| && Distinct(keys) && Parts(keys[g0]) == KeyParts(row, q.cols)
    ensures Update(q.aggs[a], col[g0], At(row, q.aggs[a].col)) == Some(s) ==> Column(q, a, done + [row], keys, col[g0 := s])
    ensures Update(q.aggs[a], col[g0], At(row, q.aggs[a].col)) == None ==> GroupFold(q, done + [row], keys[g0], a) == None
  {
    hide Parts, KeyParts, GroupFold, Update;
    forall g | 0 <= g < |keys|
      ensures g != g0 ==> GroupFold(q, done + [row], keys[g], a) == Some(col[g])
    {
      FoldOne(q, done, row, keys[g], a);
    }
    FoldOne(q, done, row, keys[g0], a);
  }

  /** The groups of a batch's rows. */
  ghost predicate InGroups(cols: seq<nat>, b: seq<Row>, keys: seq<Row>, gids: seq<nat>) {
    |gids| == |b| && forall k | 0 <= k < |b| :: gids[k] < |keys| && Parts(keys[gids[k]]) == KeyParts(b[k], cols)
  }

  lemma TakeOne(done: seq<Row>, b: seq<Row>, k: nat)
    requires k < |b|
    ensures done + b[..k] + [b[k]] == done + b[..k + 1]
  {
  }

  /** What the loops of a fold keep: no overflow so far and the states over the rows so
      far, or an overflow at some row. */
  ghost predicate FoldedTo(q: Query, a: nat, done: seq<Row>, b: seq<Row>, k: nat, keys: seq<Row>, gids: seq<nat>, col: seq<AggState>,
                           bad: Option<nat>) {
    && a < |q.aggs| && k <= |b| && |gids| == |b| && |col| == |keys|
    && (bad.None? ==> Column(q, a, done + b[..k], keys, col))
    && (bad.Some? ==> Bad(q, a, done, b, keys, gids, bad.value))
  }

  ghost predicate Bad(q: Query, a: nat, done: seq<Row>, b: seq<Row>, keys: seq<Row>, gids: seq<nat>, k: nat) {
    a < |q.aggs| && k < |b| == |gids| && gids[k] < |keys| && GroupFold(q, done + b[..k + 1], keys[gids[k]], a) == None
  }

  lemma FoldedStart(q: Query, a: nat, done: seq<Row>, b: seq<Row>, keys: seq<Row>, gids: seq<nat>, col: seq<AggState>)
    requires Column(q, a, done, keys, col) && |gids| == |b|
    ensures FoldedTo(q, a, done, b, 0, keys, gids, col, None)
  {
    assert done + b[..0] == done;
  }

  lemma FoldedStep(q: Query, a: nat, done: seq<Row>, b: seq<Row>, k: nat, keys: seq<Row>, gids: seq<nat>, col: seq<AggState>,
                   bad: Option<nat>, s: AggState)
    requires FoldedTo(q, a, done, b, k, keys, gids, col, bad) && k < |b| && InGroups(q.cols, b, keys, gids) && Distinct(keys)
    ensures var u := Update(q.aggs[a], col[gids[k]], At(b[k], q.aggs[a].col));
            FoldedTo(q, a, done, b, k + 1, keys, gids, col[gids[k] := s], if bad.None? && u.None? then Some(k) else bad)
            || (bad.None? && u.Some? && u != Some(s))
  {
    hide Parts, KeyParts, GroupFold, Update;
    TakeOne(done, b, k);
    if bad.None? { ColumnOne(q, a, done + b[..k], b[k], keys, col, gids[k], s); }
  }

  /** One aggregate folded over a whole batch, in a loop of its own. An overflow is
      noted, and reported at the end. */
  method FoldColumn(q: Query, a: nat, col: seq<AggState>, b: seq<Row>, gids: seq<nat>, ghost done: seq<Row>, ghost keys: seq<Row>)
    returns (ok: bool, out: seq<AggState>, ghost bad: nat)
    requires Column(q, a, done, keys, col) && Distinct(keys) && InGroups(q.cols, b, keys, gids)
    ensures ok ==> Column(q, a, done + b, keys, out)
    ensures !ok ==> Bad(q, a, done, b, keys, gids, bad)
  {
    hide Column, Columns, GroupFold, Parts, KeyParts, Distinct, FoldedTo, Bad, CompareValues;
    out := col;
    ghost var seen: Option<nat> := None;
    FoldedStart(q, a, done, b, keys, gids, col);
    ColumnSize(q, a, done, b, 0, keys, gids, out, seen);
    var spec := q.aggs[a];
    if spec.star || spec.func == Count {
      for k := 0 to |b|
        invariant FoldedTo(q, a, done, b, k, keys, gids, out, seen) && seen == None && |out| == |keys|
      {
        var g := gids[k];
        var s := if spec.star || !At(b[k], spec.col).isNull then out[g].(count := out[g].count + 1) else out[g];
        FoldedStep(q, a, done, b, k, keys, gids, out, seen, s);
        out := out[g := s];
      }
    } else if spec.func == Sum || spec.func == Avg {
      var overflow := false;
      for k := 0 to |b|
        invariant FoldedTo(q, a, done, b, k, keys, gids, out, seen) && overflow == seen.Some? && |out| == |keys|
      {
        var g, v := gids[k], At(b[k], spec.col);
        var s := out[g];
        ghost var was := s;
        if !v.isNull {
          overflow := overflow || (v.i64 > 0 && s.sum > INT64_MAX - v.i64) || (v.i64 < 0 && s.sum < INT64_MIN - v.i64);
          s := AggState(s.count + 1, s.sum + if overflow then 0 else v.i64, s.best);
        }
        if seen.None? { SumInRange(q, a, done, b, k, keys, gids, out, v, was); }
        FoldedStep(q, a, done, b, k, keys, gids, out, seen, s);
        if seen.None? && Update(spec, was, v).None? { seen := Some(k); }
        out := out[g := s];
      }
      if overflow { FoldedBad(q, a, done, b, |b|, keys, gids, out, seen); return false, out, seen.value; }
    } else {
      for k := 0 to |b|
        invariant FoldedTo(q, a, done, b, k, keys, gids, out, seen) && seen == None && |out| == |keys|
      {
        var g, v := gids[k], At(b[k], spec.col);
        var s := out[g];
        if !v.isNull {
          var better := s.count + 1 == 1 || (if spec.func == Min then CompareValues(v, s.best) < 0 else CompareValues(v, s.best) > 0);
          s := AggState(s.count + 1, s.sum, if better then v else s.best);
        }
        FoldedStep(q, a, done, b, k, keys, gids, out, seen, s);
        out := out[g := s];
      }
    }
    FoldedEnd(q, a, done, b, keys, gids, out);
    return true, out, 0;
  }

  lemma ColumnSize(q: Query, a: nat, done: seq<Row>, b: seq<Row>, k: nat, keys: seq<Row>, gids: seq<nat>, col: seq<AggState>, bad: Option<nat>)
    requires FoldedTo(q, a, done, b, k, keys, gids, col, bad)
    ensures a < |q.aggs| && |col| == |keys|
  {
  }

  lemma FoldedBad(q: Query, a: nat, done: seq<Row>, b: seq<Row>, k: nat, keys: seq<Row>, gids: seq<nat>, col: seq<AggState>, bad: Option<nat>)
    requires FoldedTo(q, a, done, b, k, keys, gids, col, bad) && bad.Some?
    ensures Bad(q, a, done, b, keys, gids, bad.value)
  {
  }

  lemma FoldedEnd(q: Query, a: nat, done: seq<Row>, b: seq<Row>, keys: seq<Row>, gids: seq<nat>, col: seq<AggState>)
    requires FoldedTo(q, a, done, b, |b|, keys, gids, col, None)
    ensures Column(q, a, done + b, keys, col)
  {
    assert b[..|b|] == b;
  }

  /** A sum kept so far is in range. */
  lemma SumInRange(q: Query, a: nat, done: seq<Row>, b: seq<Row>, k: nat, keys: seq<Row>, gids: seq<nat>, col: seq<AggState>, v: Field, s: AggState)
    requires FoldedTo(q, a, done, b, k, keys, gids, col, None) && k < |b| && gids[k] < |keys| && s == col[gids[k]]
    requires Sums(q.aggs[a])
    ensures INT64_MIN <= s.sum <= INT64_MAX
  {
    var rows := Members(done + b[..k], q.cols, Parts(keys[gids[k]]));
    FoldMeans(q.aggs[a], rows);
    var vs := Values(q.aggs[a], rows);
    assert vs[..|vs|] == vs;
  }

  /** Rows this aggregate can be given: their keys' fields have the columns' types. */
  ghost predicate RowsOk(types: seq<ColType>, cols: seq<nat>, rows: seq<Row>) {
    |types| == |cols| && forall i | 0 <= i < |rows| :: KeyOk(types, Project(rows[i], cols))
  }

  class HashAggregate {
    const child: Input
    const q: Query
    const types: seq<ColType>
    const hasher: Hasher
    var table: GroupTable
    var states: seq<seq<AggState>>
    var folded: seq<seq<AggState>>
    var next: nat

    ghost predicate Wired() reads this`table, table { table.types == types && table.hasher == hasher && table.Valid() }

    /** The keys of the groups, in order; the table is not used when there is one group. */
    function Keys(): seq<Row> reads this`table, table`keys { if q.cols == [] then [[]] else table.keys }

    ghost predicate Grouped(done: seq<Row>) reads this`table, table {
      Wired() && Keys() == Groups(done, q.cols)
    }

    constructor (child: Input, q: Query, types: seq<ColType>, hasher: Hasher)
      ensures this.child == child && this.q == q && this.types == types && this.hasher == hasher
    {
      this.child, this.q, this.types, this.hasher := child, q, types, hasher;
      table := new GroupTable(types, hasher);
      states, folded, next := [], [], 0;
    }

    method KeyHash(key: Row) returns (h: nat)
      ensures h == HashParts(hasher, Parts(key))
    {
      h := 0;
      for k := 0 to |key|
        invariant h == HashParts(hasher, Parts(key[..k]))
      {
        HashMore(hasher, key[..k], key[k]);
        assert key[..k + 1] == key[..k] + [key[k]];
        var v := hasher.raw(PartOf(key[k]));
        h := if k == 0 then v else hasher.combine(h, v);
      }
      assert key[..|key|] == key;
    }

    /** The group of a row, created if it is the first of its key. */
    method FindOrAdd(row: Row) returns (g: nat)
      requires Wired() && KeyOk(types, Project(row, q.cols)) && |states| == |table.keys|
      modifies this`states, table
      ensures Wired() && table.keys == WithKey(old(table.keys), Project(row, q.cols))
      ensures g == Find(table.keys, KeyParts(row, q.cols)) < |table.keys|
      ensures states == old(states) + if |table.keys| == |old(table.keys)| then [] else [Starts(q.aggs)]
    {
      hide Parts, KeyOk, HashParts, Find;
      var key := Project(row, q.cols);
      var h := KeyHash(key);
      WithKeyFinds(table.keys, key);
      FindAppended(table.keys, key);
      var found, i; ghost var d;
      found, i, d := table.Probe(key, h, false);
      if found.Some? { return found.value; }
      table.Add(key, h, i, d);
      states := states + [Starts(q.aggs)];
      return |table.keys| - 1;
    }

    /** The states of a row's group take the row, aggregate by aggregate; an overflow
        stops it. */
    method UpdateStates(row: Row, g: nat, ghost done: seq<Row>, ghost keys: seq<Row>) returns (ok: bool, ghost a: nat)
      requires States(q, done, keys, states) && Distinct(keys) && g < |keys| && Parts(keys[g]) == KeyParts(row, q.cols)
      modifies this`states
      ensures ok ==> States(q, done + [row], keys, states)
      ensures !ok ==> a < |q.aggs| && GroupFold(q, done + [row], keys[g], a).None?
    {
      hide Parts, KeyParts, GroupFold, Update, Distinct;
      ghost var before := states;
      StatesAt(q, done, keys, states, g);
      var k := 0;
      while k < |q.aggs|
        invariant k <= |q.aggs| && |states| == |before| == |keys| && (forall h | 0 <= h < |keys| && h != g :: states[h] == before[h])
        invariant StatesOf(q, done + [row], keys[g], states[g], k)
        invariant forall b | k <= b < |q.aggs| :: GroupFold(q, done, keys[g], b) == Some(states[g][b])
      {
        FoldOne(q, done, row, keys[g], k);
        var s := Update(q.aggs[k], states[g][k], At(row, q.aggs[k].col));
        if s.None? { return false, k; }
        states := states[g := states[g][k := s.value]];
        k := k + 1;
      }
      OtherGroups(q, done, row, keys, before, states, g);
      return true, 0;
    }

    /** One row more. */
    method TakeRow(row: Row, ghost done: seq<Row>) returns (ok: bool, ghost g: nat, ghost a: nat)
      requires Grouped(done) && States(q, done, Keys(), states) && KeyOk(types, Project(row, q.cols))
      modifies this`states, table
      ensures ok ==> Grouped(done + [row]) && States(q, done + [row], Keys(), states)
      ensures !ok ==> g < |Groups(done + [row], q.cols)| && a < |q.aggs| && GroupFold(q, done + [row], Groups(done + [row], q.cols)[g], a).None?
    {
      hide States, KeyOk, Seen, Parts, GroupTable.Valid, Distinct, GroupFold, Find, WithKey;
      var group := 0;
      GroupsDistinct(done + [row], q.cols);
      SeenMore(done, row, q.cols);
      if q.cols == [] {
        OneGroup(row);
      } else {
        ghost var before, was := states, table.keys;
        StatesSize(q, done, was, states);
        group := FindOrAdd(row);
        WithKeyFinds(was, Project(row, q.cols));
        FindIs(table.keys, KeyParts(row, q.cols));
        MoreStates(q, done, was, before, Project(row, q.cols));
      }
      g := group;
      ok, a := UpdateStates(row, group, done, Keys());
    }

    /** No row read yet, and one group already if there is nothing to group by. */
    method Clear()
      modifies this
      ensures fresh(table) && next == 0
      ensures Grouped([]) && States(q, [], Keys(), states) && BatchGrouped([])
    {
      hide States, Columns, Groups, GroupTable.Valid;
      table := new GroupTable(types, hasher);
      states, next := if q.cols == [] then [Starts(q.aggs)] else [], 0;
      folded := seq(|q.aggs|, a requires 0 <= a < |q.aggs| => if q.cols == [] then [Start(q.aggs[a])] else []);
      StartStates(q);
      StartColumns(q, folded);
    }

    /** Reads the whole input, each row into its group's states. It fails exactly when
        some sum of some group leaves 64 bits. */
    method Open() returns (ok: bool)
      requires child.Valid() && RowsOk(types, q.cols, child.rows)
      modifies this, child
      ensures ok <==> !Overflows(q, child.rows)
      ensures ok ==> Grouped(child.rows) && States(q, child.rows, Keys(), states) && next == 0
    {
      hide States, Overflows, RowsOk, KeyOk, Seen, Parts, GroupTable.Valid, Grouped, BatchGrouped, Groups, Split, GroupFold, Row1, Input.Rest;
      Clear();
      child.Open();
      var r := child.Next();
      ghost var done: seq<Row> := [];
      FirstRow(child.rows, child.pos, r);
      while r.Some?
        invariant child.Valid() && fresh(table) && next == 0
        invariant Split(child.rows, child.pos, done, Row1(r)) && Grouped(done) && States(q, done, Keys(), states)
        invariant r.None? ==> child.pos == |child.rows|
        decreases |child.rows| - |done|
      {
        RowSplit(types, q.cols, child.rows, child.pos, done, r.value);
        var more, g, a := TakeRow(r.value, done);
        if !more {
          OverflowFound(q, child.rows, child.pos, child.pos, g, a);
          return false;
        }
        ghost var at, was := child.pos, r.value;
        r := child.Next();
        NextRow(child.rows, at, child.pos, done, was, r);
        done := done + [was];
      }
      NoRow();
      SplitEnd(child.rows, child.pos, done);
      GroupedIs(child.rows);
      NoOverflow(q, child.rows, states);
      return true;
    }

    /** The next group's row. */
    method Produce() returns (row: Option<Row>)
      requires Grouped(child.rows) && States(q, child.rows, Keys(), states)
      modifies this`next
      ensures if old(next) < |Groups(child.rows, q.cols)| then row == Some(Answer(q, child.rows, old(next))) && next == old(next) + 1
              else row == None && next == old(next)
    {
      if next >= |Keys()| { return None; }
      StatesAt(q, child.rows, Keys(), states, next);
      AnswerIs(q, child.rows, next, states[next]);
      row := Some(Keys()[next] + Results(q.aggs, states[next], q.divide));
      next := next + 1;
    }

    // ---- the batch path ----

    ghost predicate BatchGrouped(done: seq<Row>) reads this`table, this`folded, table { Grouped(done) && Columns(q, done, Keys(), folded) }

    /** The hash of every row's key, a key column at a time. */
    method HashColumns(b: seq<Row>) returns (hs: seq<nat>)
      ensures |hs| == |b| && forall k | 0 <= k < |b| :: hs[k] == HashParts(hasher, KeyParts(b[k], q.cols))
    {
      hide Parts, PartOf;
      hs := seq(|b|, k => 0);
      for c := 0 to |q.cols|
        invariant |hs| == |b| && forall k | 0 <= k < |b| :: hs[k] == ColumnsHash(hasher, b[k], q.cols, c)
      {
        for k := 0 to |b|
          invariant |hs| == |b|
          invariant forall j | 0 <= j < k :: hs[j] == ColumnsHash(hasher, b[j], q.cols, c + 1)
          invariant forall j | k <= j < |b| :: hs[j] == ColumnsHash(hasher, b[j], q.cols, c)
        {
          HashColumn(hasher, b[k], q.cols, c);
          var v := hasher.raw(PartOf(At(b[k], q.cols[c])));
          hs := hs[k := if c == 0 then v else hasher.combine(hs[k], v)];
        }
      }
      assert q.cols[..|q.cols|] == q.cols;
    }

    /** The group of a row of a batch, its key hashed before. A new group has its first
        state in every column. */
    method FindOrAddHashed(row: Row, h: nat, intKey: bool) returns (g: nat)
      requires Wired() && KeyOk(types, Project(row, q.cols)) && h == HashParts(hasher, KeyParts(row, q.cols)) && |folded| == |q.aggs|
      requires intKey ==> |types| == 1 && !types[0].Text? && !types[0].Double?
      modifies this`folded, table
      ensures Wired() && table.keys == WithKey(old(table.keys), Project(row, q.cols))
      ensures g == Find(table.keys, KeyParts(row, q.cols)) < |table.keys|
      ensures folded == if |table.keys| == |old(table.keys)| then old(folded) else Pushed(q.aggs, old(folded))
    {
      hide Parts, KeyOk, HashParts, Find, Pushed;
      var key := Project(row, q.cols);
      WithKeyFinds(table.keys, key);
      FindAppended(table.keys, key);
      var found, i; ghost var d;
      found, i, d := table.Probe(key, h, intKey);
      if found.Some? { return found.value; }
      table.Add(key, h, i, d);
      folded := Pushed(q.aggs, folded);
      return |table.keys| - 1;
    }

    /** One integer key found in the first slot its hash points to, or else what a probe
        finds. */
    method GroupOf(row: Row, h: nat, intKey: bool, ghost done: seq<Row>, ghost some: seq<Row>) returns (g: nat)
      requires q.cols != [] && Grouped(some) && Columns(q, done, table.keys, folded) && Seen(done, q.cols) <= table.keys
      requires KeyOk(types, Project(row, q.cols)) && h == HashParts(hasher, KeyParts(row, q.cols))
      requires intKey ==> |types| == 1 && !types[0].Text? && !types[0].Double?
      modifies this`folded, table
      ensures Grouped(some + [row]) && Columns(q, done, table.keys, folded)
      ensures old(table.keys) <= table.keys && g < |table.keys| && Parts(table.keys[g]) == KeyParts(row, q.cols)
    {
      hide Parts, KeyOk, HashParts, Find, Pushed, WithKey, Table, Columns, HashesOk, Distinct, Seen;
      SeenMore(some, row, q.cols);
      ghost var key, was, before := Project(row, q.cols), table.keys, folded;
      WithKeyFinds(was, key);
      if intKey {
        var slot := table.slots[hasher.mix(h) % |table.slots|];
        if slot != 0 {
          table.SlotGroup(hasher.mix(h) % |table.slots|);
          var g' := slot - 1;
          var f, k := At(row, q.cols[0]), table.keys[g'];
          if table.hashes[g'] == h && !f.isNull {
            var same := table.SameKey(Project(row, q.cols), g', true);
            if same {
              FindThere(was, key, g');
              return g';
            }
          }
        }
      }
      ColumnsSize(q, done, was, folded);
      g := FindOrAddHashed(row, h, intKey);
      FindIs(table.keys, KeyParts(row, q.cols));
      MoreColumns(q, done, was, before, key);
    }

    /** The groups of a batch's rows, those new to it added. */
    method GroupIds(b: seq<Row>, intKey: bool, ghost done: seq<Row>) returns (gids: seq<nat>)
      requires BatchGrouped(done) && RowsOk(types, q.cols, b)
      requires intKey ==> |types| == 1 && !types[0].Text? && !types[0].Double?
      modifies this`folded, table
      ensures Grouped(done + b) && Columns(q, done, Keys(), folded) && InGroups(q.cols, b, Keys(), gids)
    {
      hide Parts, KeyOk, HashParts, Columns, Seen, GroupTable.Valid, RowsOk;
      if q.cols == [] {
        gids := seq(|b|, k => 0);
        assert forall k | 0 <= k < |b| :: KeyParts(b[k], []) == Parts([]);
        return;
      }
      var hs := HashColumns(b);
      gids := [];
      assert done + b[..0] == done;
      for k := 0 to |b|
        invariant Grouped(done + b[..k]) && Columns(q, done, table.keys, folded) && Seen(done, q.cols) <= table.keys
        invariant InGroups(q.cols, b[..k], table.keys, gids)
      {
        ghost var was := table.keys;
        RowIsOk(types, q.cols, b, k);
        TakeOne(done, b, k);
        var g := GroupOf(b[k], hs[k], intKey, done, done + b[..k]);
        InGroupsMore(q.cols, b, k, was, table.keys, gids, g);
        gids := gids + [g];
      }
      assert b[..|b|] == b;
    }

    lemma GroupedIs(done: seq<Row>) requires Grouped(done) ensures Keys() == Groups(done, q.cols) {}

    lemma GroupedBatch(done: seq<Row>) requires Grouped(done) && Columns(q, done, Keys(), folded) ensures BatchGrouped(done) {}

    lemma BatchGroupedIs(done: seq<Row>)
      requires BatchGrouped(done)
      ensures Grouped(done) && Columns(q, done, Keys(), folded) && Keys() == Groups(done, q.cols)
    {
    }

    /** A batch more: its rows given their groups, then folded an aggregate at a time. */
    method TakeBatch(b: seq<Row>, intKey: bool, ghost done: seq<Row>) returns (ok: bool, ghost n: nat, ghost g: nat, ghost a: nat)
      requires BatchGrouped(done) && RowsOk(types, q.cols, b)
      requires intKey ==> |types| == 1 && !types[0].Text? && !types[0].Double?
      modifies this`folded, table
      ensures ok ==> BatchGrouped(done + b)
      ensures !ok ==> n <= |b| && g < |Groups(done + b, q.cols)| && a < |q.aggs|
                      && GroupFold(q, done + b[..n], Groups(done + b, q.cols)[g], a).None?
    {
      hide *;
      var gids := GroupIds(b, intKey, done);
      ghost var keys := Keys();
      GroupedIs(done + b);
      GroupsDistinct(done + b, q.cols);
      ColumnsEach(q, done, keys, folded);
      for ai := 0 to |q.aggs|
        invariant Grouped(done + b) && keys == Keys()
        invariant |folded| == |q.aggs| && (forall k | 0 <= k < ai :: Column(q, k, done + b, keys, folded[k]))
        invariant forall k | ai <= k < |q.aggs| :: Column(q, k, done, keys, folded[k])
      {
        var fine, col; ghost var bad;
        fine, col, bad := FoldColumn(q, ai, folded[ai], b, gids, done, keys);
        if !fine {
          BadAt(q, ai, done, b, keys, gids, bad);
          return false, bad + 1, gids[bad], ai;
        }
        folded := folded[ai := col];
      }
      ColumnsAre(q, done + b, keys, folded);
      GroupedBatch(done + b);
      return true, 0, 0, 0;
    }

    /** The same over batches. It fails exactly when the row path does. */
    method OpenBatches(maxes: nat -> nat) returns (ok: bool)
      requires child.Valid() && RowsOk(types, q.cols, child.rows) && forall k :: maxes(k) > 0
      modifies this, child
      ensures ok <==> !Overflows(q, child.rows)
      ensures ok ==> BatchGrouped(child.rows) && next == 0
    {
      hide Columns, Overflows, RowsOk, KeyOk, Groups, GroupTable.Valid, Start, Grouped, BatchGrouped, Split, GroupFold;
      Clear();
      child.Open();
      var intKey := |types| == 1 && !types[0].Text? && !types[0].Double?;
      var calls := 0;
      var b := child.NextBatch(maxes(calls));
      ghost var done: seq<Row> := [];
      FirstSplit(child.rows, child.pos, b);
      while b != []
        invariant child.Valid() && fresh(table) && next == 0
        invariant Split(child.rows, child.pos, done, b) && BatchGrouped(done) && (b == [] ==> child.pos == |child.rows|)
        decreases |child.rows| - |done|
      {
        SplitIs(types, q.cols, child.rows, child.pos, done, b);
        var fine; ghost var n, g, a;
        fine, n, g, a := TakeBatch(b, intKey, done);
        if !fine {
          SplitPart(child.rows, child.pos, done, b, n);
          OverflowFound(q, child.rows, |done| + n, child.pos, g, a);
          return false;
        }
        calls := calls + 1;
        ghost var at, was := child.pos, b;
        b := child.NextBatch(maxes(calls));
        NextSplit(child.rows, at, child.pos, done, was, b);
        done := done + was;
      }
      SplitEnd(child.rows, child.pos, done);
      BatchGroupedIs(child.rows);
      NoColumnOverflow(q, child.rows, folded);
      return true;
    }

    /** The next groups' rows, as many as fit; none is the end. */
    method ProduceBatch(max: nat) returns (out: seq<Row>)
      requires BatchGrouped(child.rows) && max > 0
      modifies this`next
      ensures next == old(next) + |out| && |out| <= max
      ensures if old(next) >= |Groups(child.rows, q.cols)| then out == []
              else out != [] && Answers(q, child.rows, old(next), out)
    {
      hide *;
      BatchGroupedIs(child.rows);
      var keys, columns, start := Keys(), folded, next;
      ColumnsSize(q, child.rows, keys, columns);
      out := [];
      if start >= |keys| { return; }
      var n := if max < |keys| - start then max else |keys| - start;
      NoAnswers(q, child.rows, start);
      for j := 0 to n
        invariant |out| == j && Answers(q, child.rows, start, out)
      {
        var row := GroupRow(q, keys, columns, start + j);
        GroupRowIs(q, child.rows, keys, columns, start + j);
        MoreAnswers(q, child.rows, start, out, row);
        out := out + [row];
      }
      next := start + n;
    }
  }

  /** Rows in turn are the answer's from `start` on. */
  ghost predicate Answers(q: Query, rows: seq<Row>, start: nat, out: seq<Row>) {
    start + |out| <= |Groups(rows, q.cols)| && forall j | 0 <= j < |out| :: out[j] == Answer(q, rows, start + j)
  }

  lemma NoAnswers(q: Query, rows: seq<Row>, start: nat)
    requires start <= |Groups(rows, q.cols)|
    ensures Answers(q, rows, start, [])
  {
  }

  lemma MoreAnswers(q: Query, rows: seq<Row>, start: nat, out: seq<Row>, row: Row)
    requires Answers(q, rows, start, out) && start + |out| < |Groups(rows, q.cols)| && row == Answer(q, rows, start + |out|)
    ensures Answers(q, rows, start, out + [row])
  {
    hide Groups, Answer;
  }

  /** A group's key and results, read across the columns. */
  function GroupRow(q: Query, keys: seq<Row>, columns: seq<seq<AggState>>, g: nat): Row
    requires g < |keys| && |columns| == |q.aggs| && forall a | 0 <= a < |columns| :: |columns[a]| == |keys|
  {
    keys[g] + Results(q.aggs, seq(|q.aggs|, a requires 0 <= a < |q.aggs| => columns[a][g]), q.divide)
  }

  lemma GroupRowIs(q: Query, rows: seq<Row>, keys: seq<Row>, columns: seq<seq<AggState>>, g: nat)
    requires Columns(q, rows, keys, columns) && g < |keys| && keys == Groups(rows, q.cols)
    ensures |columns| == |q.aggs| && forall a | 0 <= a < |columns| :: |columns[a]| == |keys|
    ensures GroupRow(q, keys, columns, g) == Answer(q, rows, g)
  {
    hide Groups, GroupFold, Columns, Answer;
    ColumnsSize(q, rows, keys, columns);
    var st := seq(|q.aggs|, a requires 0 <= a < |q.aggs| => columns[a][g]);
    ColumnsAt(q, rows, keys, columns, g, st);
    AnswerIs(q, rows, g, st);
  }

  function ColumnsHash(h: Hasher, row: Row, cols: seq<nat>, c: nat): nat requires c <= |cols| { HashParts(h, KeyParts(row, cols[..c])) }

  lemma HashColumn(h: Hasher, row: Row, cols: seq<nat>, c: nat)
    requires c < |cols|
    ensures var v := h.raw(PartOf(At(row, cols[c])));
            ColumnsHash(h, row, cols, c + 1) == if c == 0 then v else h.combine(ColumnsHash(h, row, cols, c), v)
  {
    hide Parts, HashParts, PartOf;
    assert Project(row, cols[..c + 1]) == Project(row, cols[..c]) + [At(row, cols[c])];
    HashMore(h, Project(row, cols[..c]), At(row, cols[c]));
    assert Project(row, cols[..c]) == [] <==> c == 0;
  }

  function Pushed(aggs: seq<AggSpec>, folded: seq<seq<AggState>>): (r: seq<seq<AggState>>)
    requires |folded| == |aggs|
    ensures |r| == |aggs|
  {
    seq(|aggs|, a requires 0 <= a < |aggs| => folded[a] + [Start(aggs[a])])
  }

  lemma FindThere(keys: seq<Row>, key: Row, g: nat)
    requires g < |keys| && Parts(keys[g]) == Parts(key)
    ensures WithKey(keys, key) == keys
  {
  }

  lemma ColumnsEach(q: Query, done: seq<Row>, keys: seq<Row>, folded: seq<seq<AggState>>)
    requires Columns(q, done, keys, folded)
    ensures |folded| == |q.aggs| && forall a | 0 <= a < |folded| :: Column(q, a, done, keys, folded[a])
  {
  }

  lemma BadAt(q: Query, a: nat, done: seq<Row>, b: seq<Row>, keys: seq<Row>, gids: seq<nat>, k: nat)
    requires Bad(q, a, done, b, keys, gids, k)
    ensures a < |q.aggs| && k < |b| == |gids| && gids[k] < |keys| && GroupFold(q, done + b[..k + 1], keys[gids[k]], a) == None
  {
  }

  lemma ColumnsAre(q: Query, done: seq<Row>, keys: seq<Row>, folded: seq<seq<AggState>>)
    requires |folded| == |q.aggs| && forall a | 0 <= a < |folded| :: Column(q, a, done, keys, folded[a])
    ensures Columns(q, done, keys, folded)
  {
  }

  lemma ColumnsSize(q: Query, done: seq<Row>, keys: seq<Row>, folded: seq<seq<AggState>>)
    requires Columns(q, done, keys, folded)
    ensures |folded| == |q.aggs| && forall a | 0 <= a < |folded| :: |folded[a]| == |keys|
  {
    assert forall a | 0 <= a < |folded| :: Column(q, a, done, keys, folded[a]);
  }

  lemma ColumnsAt(q: Query, done: seq<Row>, keys: seq<Row>, folded: seq<seq<AggState>>, g: nat, st: seq<AggState>)
    requires Columns(q, done, keys, folded) && g < |keys| && |st| == |q.aggs| == |folded|
    requires forall a | 0 <= a < |q.aggs| :: g < |folded[a]| && st[a] == folded[a][g]
    ensures forall a | 0 <= a < |q.aggs| :: GroupFold(q, done, keys[g], a) == Some(st[a])
  {
    hide GroupFold;
    assert forall a | 0 <= a < |folded| :: Column(q, a, done, keys, folded[a]);
  }

  lemma {:induction false} MoreColumns(q: Query, done: seq<Row>, keys: seq<Row>, folded: seq<seq<AggState>>, key: Row)
    requires Columns(q, done, keys, folded) && Seen(done, q.cols) <= keys
    ensures |folded| == |q.aggs|
    ensures var all := WithKey(keys, key); Columns(q, done, all, if |all| == |keys| then folded else Pushed(q.aggs, folded))
  {
    hide GroupFold, Parts, Seen, Start;
    var all := WithKey(keys, key);
    if |all| != |keys| {
      forall a | 0 <= a < |q.aggs| ensures Column(q, a, done, all, Pushed(q.aggs, folded)[a]) {
        assert Column(q, a, done, keys, folded[a]);
        NewGroup(q, done, keys, key, a);
        assert all == keys + [key];
      }
    }
  }

  lemma InGroupsMore(cols: seq<nat>, b: seq<Row>, k: nat, keys: seq<Row>, all: seq<Row>, gids: seq<nat>, g: nat)
    requires k < |b| && InGroups(cols, b[..k], keys, gids) && keys <= all && g < |all| && Parts(all[g]) == KeyParts(b[k], cols)
    ensures InGroups(cols, b[..k + 1], all, gids + [g])
  {
    hide Parts, KeyParts;
    assert forall j | 0 <= j < |keys| :: all[j] == keys[j];
    assert forall j | 0 <= j < k :: b[..k + 1][j] == b[..k][j];
  }

  lemma StartColumns(q: Query, folded: seq<seq<AggState>>)
    requires |folded| == |q.aggs| && forall a | 0 <= a < |q.aggs| :: folded[a] == if q.cols == [] then [Start(q.aggs[a])] else []
    ensures Groups([], q.cols) == if q.cols == [] then [[]] else []
    ensures Columns(q, [], Groups([], q.cols), folded)
  {
  }

  function Row1(r: Option<Row>): seq<Row> { if r.Some? then [r.value] else [] }

  lemma NoRow() ensures Row1(None) == [] {}

  lemma FirstRow(rows: seq<Row>, pos: nat, r: Option<Row>)
    requires if rows == [] then r == None && pos == 0 else r == Some(rows[0]) && pos == 1
    ensures Split(rows, pos, [], Row1(r))
  {
  }

  lemma RowSplit(types: seq<ColType>, cols: seq<nat>, rows: seq<Row>, pos: nat, done: seq<Row>, row: Row)
    requires RowsOk(types, cols, rows) && Split(rows, pos, done, Row1(Some(row)))
    ensures KeyOk(types, Project(row, cols)) && |done| + 1 <= pos <= |rows| && rows[..pos] == done + [row]
  {
    hide KeyOk;
    assert row == rows[..pos][|done|];
  }

  lemma NextRow(rows: seq<Row>, at: nat, pos: nat, done: seq<Row>, was: Row, r: Option<Row>)
    requires Split(rows, at, done, Row1(Some(was)))
    requires if at < |rows| then r == Some(rows[at]) && pos == at + 1 else r == None && pos == at
    ensures Split(rows, pos, done + [was], Row1(r))
  {
    if at < |rows| { assert rows[..at + 1] == rows[..at] + [rows[at]]; } else { assert done + [was] + [] == done + [was]; }
  }

  /** The rows read are those done and those of the batch at hand. */
  ghost predicate Split(rows: seq<Row>, pos: nat, done: seq<Row>, b: seq<Row>) { pos <= |rows| && rows[..pos] == done + b }

  lemma FirstSplit(rows: seq<Row>, pos: nat, b: seq<Row>)
    requires pos <= |rows| && rows == b + rows[pos..]
    ensures Split(rows, pos, [], b)
  {
    var rest := rows[pos..];
    assert rows[..pos] == (b + rest)[..pos] == b;
  }

  lemma SplitIs(types: seq<ColType>, cols: seq<nat>, rows: seq<Row>, pos: nat, done: seq<Row>, b: seq<Row>)
    requires RowsOk(types, cols, rows) && Split(rows, pos, done, b)
    ensures RowsOk(types, cols, b)
  {
    hide KeyOk;
    assert forall i | 0 <= i < |b| :: b[i] == rows[..pos][|done| + i];
  }

  lemma SplitPart(rows: seq<Row>, pos: nat, done: seq<Row>, b: seq<Row>, n: nat)
    requires Split(rows, pos, done, b) && n <= |b|
    ensures |done| + n <= pos <= |rows| && rows[..|done| + n] == done + b[..n] && rows[..pos] == done + b
  {
    assert rows[..|done| + n] == rows[..pos][..|done| + n];
  }

  lemma NextSplit(rows: seq<Row>, at: nat, pos: nat, done: seq<Row>, was: seq<Row>, b: seq<Row>)
    requires Split(rows, at, done, was) && pos <= |rows| && rows[at..] == b + rows[pos..]
    ensures Split(rows, pos, done + was, b)
  {
    assert pos == at + |b| && b == rows[at..][..|b|];
    assert rows[..pos] == rows[..at] + rows[at..][..|b|];
  }

  lemma SplitEnd(rows: seq<Row>, pos: nat, done: seq<Row>)
    requires Split(rows, pos, done, []) && pos == |rows|
    ensures done == rows
  {
    assert done + [] == done;
  }

  lemma NoColumnOverflow(q: Query, rows: seq<Row>, folded: seq<seq<AggState>>)
    requires Columns(q, rows, Groups(rows, q.cols), folded)
    ensures !Overflows(q, rows)
  {
    hide GroupFold;
    forall g, a | 0 <= g < |Groups(rows, q.cols)| && 0 <= a < |q.aggs|
      ensures GroupFold(q, rows, Groups(rows, q.cols)[g], a).Some?
    {
      assert Column(q, a, rows, Groups(rows, q.cols), folded[a]);
    }
  }

  lemma {:induction false} FindIs(keys: seq<Row>, p: seq<Part>)
    ensures Find(keys, p) < |keys| ==> Parts(keys[Find(keys, p)]) == p
  {
  }

  lemma AnswerIs(q: Query, rows: seq<Row>, g: nat, st: seq<AggState>)
    requires g < |Groups(rows, q.cols)| && |st| == |q.aggs|
    requires forall a | 0 <= a < |q.aggs| :: GroupFold(q, rows, Groups(rows, q.cols)[g], a) == Some(st[a])
    ensures Groups(rows, q.cols)[g] + Results(q.aggs, st, q.divide) == Answer(q, rows, g)
  {
    hide Groups, GroupFold, AggResult;
  }

  lemma StartStates(q: Query)
    ensures Groups([], q.cols) == if q.cols == [] then [[]] else []
    ensures States(q, [], [], []) && States(q, [], [[]], [Starts(q.aggs)])
  {
  }

  lemma StatesAt(q: Query, done: seq<Row>, keys: seq<Row>, states: seq<seq<AggState>>, g: nat)
    requires States(q, done, keys, states) && g < |keys|
    ensures |states| == |keys| && |states[g]| == |q.aggs|
    ensures forall a | 0 <= a < |q.aggs| :: GroupFold(q, done, keys[g], a) == Some(states[g][a])
  {
    assert StatesOf(q, done, keys[g], states[g], |q.aggs|);
  }

  lemma StatesSize(q: Query, done: seq<Row>, keys: seq<Row>, states: seq<seq<AggState>>)
    requires States(q, done, keys, states)
    ensures |states| == |keys|
  {
  }

  lemma RowIsOk(types: seq<ColType>, cols: seq<nat>, rows: seq<Row>, n: nat)
    requires RowsOk(types, cols, rows) && n < |rows|
    ensures KeyOk(types, Project(rows[n], cols))
  {
  }

  lemma OneGroup(row: Row)
    ensures Parts([]) == KeyParts(row, [])
  {
  }

  lemma GroupsDistinct(rows: seq<Row>, cols: seq<nat>)
    ensures Distinct(Groups(rows, cols))
  {
    SeenMeans(rows, cols);
  }

  /** A new group has its first states. */
  lemma {:induction false} MoreStates(q: Query, done: seq<Row>, keys: seq<Row>, states: seq<seq<AggState>>, key: Row)
    requires States(q, done, keys, states) && keys == Seen(done, q.cols)
    ensures var all := WithKey(keys, key);
            States(q, done, all, states + if |all| == |keys| then [] else [Starts(q.aggs)])
  {
    hide GroupFold, Parts, Seen;
    var all := WithKey(keys, key);
    if |all| == |keys| {
      assert states + [] == states;
    } else {
      forall a | 0 <= a < |q.aggs| ensures GroupFold(q, done, key, a) == Some(Starts(q.aggs)[a]) { NewGroup(q, done, keys, key, a); }
      forall g | 0 <= g < |keys| ensures StatesOf(q, done, all[g], states[g], |q.aggs|) {
        assert all[g] == keys[g];
        assert StatesOf(q, done, keys[g], states[g], |q.aggs|);
      }
    }
  }

  lemma NoOverflow(q: Query, rows: seq<Row>, states: seq<seq<AggState>>)
    requires States(q, rows, Groups(rows, q.cols), states)
    ensures !Overflows(q, rows)
  {
    hide GroupFold;
    forall g, a | 0 <= g < |Groups(rows, q.cols)| && 0 <= a < |q.aggs|
      ensures GroupFold(q, rows, Groups(rows, q.cols)[g], a).Some?
    {
      assert StatesOf(q, rows, Groups(rows, q.cols)[g], states[g], |q.aggs|);
    }
  }

  function Starts(aggs: seq<AggSpec>): (s: seq<AggState>)
    ensures |s| == |aggs|
  {
    seq(|aggs|, a requires 0 <= a < |aggs| => Start(aggs[a]))
  }

  lemma {:induction false} FindAppended(keys: seq<Row>, key: Row)
    requires Distinct(keys)
    ensures Find(keys, Parts(key)) == |keys| ==> Find(keys + [key], Parts(key)) == |keys|
  {
    var g := Find(keys + [key], Parts(key));
    assert forall j | 0 <= j < |keys| :: (keys + [key])[j] == keys[j];
    assert (keys + [key])[|keys|] == key;
  }

  lemma {:induction false} HashMore(h: Hasher, key: Row, f: Field)
    ensures HashParts(h, Parts(key + [f])) ==
            if key == [] then h.raw(PartOf(f)) else h.combine(HashParts(h, Parts(key)), h.raw(PartOf(f)))
  {
    var p := Parts(key + [f]);
    assert p[..|key|] == Parts(key);
  }
}
