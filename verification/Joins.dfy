/** What a join yields, whichever way it is run (src/operator.cpp:486-741). */
module JoinSpec {
  import opened Sequences
  import opened SqlTypes
  import opened Rows

  /** An equality between a column of each side, compared as text or as a number. */
  datatype KeyPair = KeyPair(left: nat, right: nat, isText: bool)

  /** When two rows join: every term of an ON, or equal keys and the terms left. */
  datatype Condition =
    | Terms(on: seq<Comparison>, nleft: nat)
    | Keyed(keys: seq<KeyPair>, residual: seq<Comparison>, nleft: nat)

  predicate SameKey(k: KeyPair, l: Row, r: Row) {
    if k.isText then At(l, k.left).text == At(r, k.right).text else At(l, k.left).i64 == At(r, k.right).i64
  }

  predicate KeysEqual(keys: seq<KeyPair>, l: Row, r: Row) { forall k | 0 <= k < |keys| :: SameKey(keys[k], l, r) }

  predicate NullKey(row: Row, cols: seq<nat>) { exists k :: 0 <= k < |cols| && At(row, cols[k]).isNull }

  function LeftCols(keys: seq<KeyPair>): seq<nat> { seq(|keys|, i requires 0 <= i < |keys| => keys[i].left) }
  function RightCols(keys: seq<KeyPair>): seq<nat> { seq(|keys|, i requires 0 <= i < |keys| => keys[i].right) }

  predicate Joins(c: Condition, l: Row, r: Row) {
    match c
    case Terms(on, nleft) => EvalAll(on, l, r, nleft)
    case Keyed(keys, residual, nleft) =>
      !NullKey(l, LeftCols(keys)) && !NullKey(r, RightCols(keys)) && KeysEqual(keys, l, r) && EvalAll(residual, l, r, nleft)
  }

  /** One row of an input met by every row of the other: the row is on the left, or
      with `swap` on the right. */
  function Walk(c: Condition, swap: bool, probe: Row, others: seq<Row>): seq<Row> {
    if others == [] then [] else One(c, swap, probe, others[0]) + Walk(c, swap, probe, others[1..])
  }

  function One(c: Condition, swap: bool, probe: Row, other: Row): seq<Row> {
    var (l, r) := if swap then (other, probe) else (probe, other);
    if Joins(c, l, r) then [l + r] else []
  }

  /** Every row of an input met by every row of the other. */
  function Loop(c: Condition, swap: bool, probes: seq<Row>, others: seq<Row>): seq<Row> {
    if probes == [] then [] else Walk(c, swap, probes[0], others) + Loop(c, swap, probes[1..], others)
  }

  lemma {:induction false} WalkConcat(c: Condition, swap: bool, probe: Row, a: seq<Row>, b: seq<Row>)
    ensures Walk(c, swap, probe, a + b) == Walk(c, swap, probe, a) + Walk(c, swap, probe, b)
  {
    if a == [] {
      assert a + b == b;
    } else {
      WalkConcat(c, swap, probe, a[1..], b);
      assert (a + b)[1..] == a[1..] + b;
      assert Walk(c, swap, probe, a + b) == One(c, swap, probe, a[0]) + Walk(c, swap, probe, a[1..] + b);
      Assoc(One(c, swap, probe, a[0]), Walk(c, swap, probe, a[1..]), Walk(c, swap, probe, b));
    }
  }

  /** Two conditions that agree join alike. */
  lemma {:induction false} SameWalk(c: Condition, d: Condition, swap: bool, probe: Row, others: seq<Row>)
    requires forall l, r :: Joins(c, l, r) <==> Joins(d, l, r)
    ensures Walk(c, swap, probe, others) == Walk(d, swap, probe, others)
  {
    if others != [] { SameWalk(c, d, swap, probe, others[1..]); }
  }

  lemma {:induction false} SameLoop(c: Condition, d: Condition, swap: bool, probes: seq<Row>, others: seq<Row>)
    requires forall l, r :: Joins(c, l, r) <==> Joins(d, l, r)
    ensures Loop(c, swap, probes, others) == Loop(d, swap, probes, others)
  {
    if probes != [] {
      SameWalk(c, d, swap, probes[0], others);
      SameLoop(c, d, swap, probes[1..], others);
    }
  }

  /** Whichever input drives the loop, the bag of rows is the same. */
  lemma {:induction false} SwappedLoop(c: Condition, left: seq<Row>, right: seq<Row>)
    ensures multiset(Loop(c, true, right, left)) == multiset(Loop(c, false, left, right))
  {
    if left == [] {
      SwappedNone(c, right);
    } else {
      SwappedLoop(c, left[1..], right);
      SwappedRow(c, left[0], left[1..], right);
      assert [left[0]] + left[1..] == left;
    }
  }

  lemma {:induction false} SwappedNone(c: Condition, right: seq<Row>)
    ensures Loop(c, true, right, []) == []
  {
    if right != [] { SwappedNone(c, right[1..]); }
  }

  lemma {:induction false} SwappedRow(c: Condition, l: Row, ls: seq<Row>, right: seq<Row>)
    ensures multiset(Loop(c, true, right, [l] + ls)) == multiset(Walk(c, false, l, right)) + multiset(Loop(c, true, right, ls))
  {
    if right != [] {
      SwappedRow(c, l, ls, right[1..]);
      assert ([l] + ls)[1..] == ls;
      SwapBags(One(c, false, l, right[0]), Walk(c, true, right[0], ls), Loop(c, true, right[1..], [l] + ls),
               Walk(c, false, l, right[1..]), Loop(c, true, right[1..], ls));
      hide Joins, One;
    }
  }

  lemma SwapBags<T>(o: seq<T>, a: seq<T>, both: seq<T>, walk: seq<T>, rest: seq<T>)
    requires multiset(both) == multiset(walk) + multiset(rest)
    ensures multiset((o + a) + both) == multiset(o + walk) + multiset(a + rest)
  {
  }

  // ---- which rows they are ----

  /** Places in the inputs, the driving one's first: in order, no two the same. */
  predicate Earlier(p: (nat, nat), q: (nat, nat)) { p.0 < q.0 || (p.0 == q.0 && p.1 < q.1) }

  predicate InTurn(at: seq<(nat, nat)>) { forall k, m | 0 <= k < m < |at| :: Earlier(at[k], at[m]) }

  predicate Met(c: Condition, swap: bool, probe: Row, other: Row) { if swap then Joins(c, other, probe) else Joins(c, probe, other) }

  predicate IsAt(swap: bool, probes: seq<Row>, others: seq<Row>, p: (nat, nat), row: Row) {
    p.0 < |probes| && p.1 < |others| && row == if swap then others[p.1] + probes[p.0] else probes[p.0] + others[p.1]
  }

  predicate AreAt(swap: bool, probes: seq<Row>, others: seq<Row>, at: seq<(nat, nat)>, out: seq<Row>) {
    |at| == |out| && forall k | 0 <= k < |at| :: IsAt(swap, probes, others, at[k], out[k])
  }

  /** The pairs of rows that join, and no others, the driving input's order outermost. */
  ghost predicate JoinedAt(c: Condition, swap: bool, probes: seq<Row>, others: seq<Row>, at: seq<(nat, nat)>, out: seq<Row>) {
    && InTurn(at) && AreAt(swap, probes, others, at, out)
    && forall i, j | 0 <= i < |probes| && 0 <= j < |others| :: (i, j) in at <==> Met(c, swap, probes[i], others[j])
  }

  function PairsOf(c: Condition, swap: bool, probe: Row, others: seq<Row>, i: nat, n: nat): seq<(nat, nat)>
    requires n <= |others|
  {
    if n == 0 then [] else PairsOf(c, swap, probe, others, i, n - 1) + if Met(c, swap, probe, others[n - 1]) then [(i, n - 1)] else []
  }

  lemma {:induction false} PairsAre(c: Condition, swap: bool, probe: Row, others: seq<Row>, i: nat, n: nat)
    requires n <= |others|
    ensures var at := PairsOf(c, swap, probe, others, i, n);
            && InTurn(at) && (forall p | p in at :: p.0 == i && p.1 < n)
            && forall j | 0 <= j < n :: (i, j) in at <==> Met(c, swap, probe, others[j])
  {
    if n > 0 { PairsAre(c, swap, probe, others, i, n - 1); }
  }

  lemma {:induction false} WalkAre(c: Condition, swap: bool, probes: seq<Row>, others: seq<Row>, i: nat, n: nat)
    requires i < |probes| && n <= |others|
    ensures AreAt(swap, probes, others, PairsOf(c, swap, probes[i], others, i, n), Walk(c, swap, probes[i], others[..n]))
  {
    if n > 0 {
      WalkAre(c, swap, probes, others, i, n - 1);
      assert others[..n] == others[..n - 1] + [others[n - 1]];
      WalkConcat(c, swap, probes[i], others[..n - 1], [others[n - 1]]);
      assert [others[n - 1]][1..] == [];
    }
  }

  lemma {:induction false} LoopConcat(c: Condition, swap: bool, a: seq<Row>, b: seq<Row>, others: seq<Row>)
    ensures Loop(c, swap, a + b, others) == Loop(c, swap, a, others) + Loop(c, swap, b, others)
  {
    if a == [] {
      assert a + b == b;
    } else {
      LoopConcat(c, swap, a[1..], b, others);
      assert (a + b)[1..] == a[1..] + b;
      Assoc(Walk(c, swap, a[0], others), Loop(c, swap, a[1..], others), Loop(c, swap, b, others));
    }
  }

  /** What a loop over two inputs yields. */
  lemma LoopMeans(c: Condition, swap: bool, probes: seq<Row>, others: seq<Row>) returns (at: seq<(nat, nat)>)
    ensures JoinedAt(c, swap, probes, others, at, Loop(c, swap, probes, others))
  {
    at := LoopUpTo(c, swap, probes, others, |probes|);
    assert probes[..|probes|] == probes;
  }

  lemma {:induction false} LoopUpTo(c: Condition, swap: bool, probes: seq<Row>, others: seq<Row>, n: nat) returns (at: seq<(nat, nat)>)
    requires n <= |probes|
    ensures InTurn(at) && AreAt(swap, probes, others, at, Loop(c, swap, probes[..n], others)) && forall p | p in at :: p.0 < n
    ensures forall i, j | 0 <= i < n && 0 <= j < |others| :: (i, j) in at <==> Met(c, swap, probes[i], others[j])
  {
    hide Met, Walk;
    if n == 0 {
      at := [];
    } else {
      var m := n - 1;
      var before := LoopUpTo(c, swap, probes, others, m);
      var here := PairsOf(c, swap, probes[m], others, m, |others|);
      PairsAre(c, swap, probes[m], others, m, |others|);
      WalkAre(c, swap, probes, others, m, |others|);
      assert others[..|others|] == others;
      LoopConcat(c, swap, probes[..m], [probes[m]], others);
      assert probes[..n] == probes[..m] + [probes[m]] && [probes[m]][1..] == [];
      assert Loop(c, swap, [probes[m]], others) == Walk(c, swap, probes[m], others) + [];
      at := before + here;
      BothInTurn(before, here, m);
      BothAre(swap, probes, others, before, here, Loop(c, swap, probes[..m], others), Walk(c, swap, probes[m], others));
    }
  }

  lemma BothInTurn(a: seq<(nat, nat)>, b: seq<(nat, nat)>, m: nat)
    requires InTurn(a) && InTurn(b) && (forall p | p in a :: p.0 < m) && forall p | p in b :: p.0 == m
    ensures InTurn(a + b)
  {
    forall k, l | 0 <= k < l < |a + b| ensures Earlier((a + b)[k], (a + b)[l]) {
      if k < |a| <= l { assert (a + b)[k] in a && (a + b)[l] in b; }
    }
  }

  lemma BothAre(swap: bool, probes: seq<Row>, others: seq<Row>, a: seq<(nat, nat)>, b: seq<(nat, nat)>, x: seq<Row>, y: seq<Row>)
    requires AreAt(swap, probes, others, a, x) && AreAt(swap, probes, others, b, y)
    ensures AreAt(swap, probes, others, a + b, x + y)
  {
    var at, out := a + b, x + y;
    forall k | 0 <= k < |at| ensures IsAt(swap, probes, others, at[k], out[k]) {
      if k < |a| {
        assert at[k] == a[k] && out[k] == x[k] && IsAt(swap, probes, others, a[k], x[k]);
      } else {
        assert at[k] == b[k - |a|] && out[k] == y[k - |a|] && IsAt(swap, probes, others, b[k - |a|], y[k - |a|]);
      }
    }
  }

  // ---- a nested loop's ON, as a hash join's keys and the terms left ----

  /** An equality between a column of each side. */
  predicate IsKey(b: Comparison, nleft: nat) { b.op == Eq && b.rightIsColumn && (b.left < nleft) != (b.right < nleft) }

  function KeyOf(b: Comparison, nleft: nat): KeyPair
    requires IsKey(b, nleft)
  {
    var (l, r) := if b.left < nleft then (b.left, b.right) else (b.right, b.left);
    KeyPair(l, r - nleft, b.asText)
  }

  function KeysOf(on: seq<Comparison>, nleft: nat): seq<KeyPair> {
    if on == [] then [] else (if IsKey(on[0], nleft) then [KeyOf(on[0], nleft)] else []) + KeysOf(on[1..], nleft)
  }

  function ResidualOf(on: seq<Comparison>, nleft: nat): seq<Comparison> {
    if on == [] then [] else (if IsKey(on[0], nleft) then [] else [on[0]]) + ResidualOf(on[1..], nleft)
  }

  /** Sort the terms of an ON: the keys a hash join can file rows under, and the rest. */
  method SplitOn(on: seq<Comparison>, nleft: nat) returns (keys: seq<KeyPair>, residual: seq<Comparison>)
    ensures keys == KeysOf(on, nleft) && residual == ResidualOf(on, nleft)
  {
    keys, residual := [], [];
    for k := 0 to |on|
      invariant keys + KeysOf(on[k..], nleft) == KeysOf(on, nleft)
      invariant residual + ResidualOf(on[k..], nleft) == ResidualOf(on, nleft)
    {
      var b := on[k];
      assert on[k..][1..] == on[k + 1..];
      if IsKey(b, nleft) {
        var (l, r) := if b.left < nleft then (b.left, b.right) else (b.right, b.left);
        Assoc(keys, [KeyPair(l, r - nleft, b.asText)], KeysOf(on[k + 1..], nleft));
        keys := keys + [KeyPair(l, r - nleft, b.asText)];
      } else {
        Assoc(residual, [b], ResidualOf(on[k + 1..], nleft));
        residual := residual + [b];
      }
    }
  }

  lemma {:induction false} EvalAllMore(c: Comparison, cs: seq<Comparison>, l: Row, r: Row, nleft: nat)
    ensures EvalAll([c] + cs, l, r, nleft) <==> EvalPair(c, l, r, nleft) && EvalAll(cs, l, r, nleft)
  {
    assert forall k | 0 <= k < |cs| :: ([c] + cs)[k + 1] == cs[k];
    if EvalAll([c] + cs, l, r, nleft) {
      assert EvalPair(([c] + cs)[0], l, r, nleft);
      forall k | 0 <= k < |cs| ensures EvalPair(cs[k], l, r, nleft) { assert EvalPair(([c] + cs)[k + 1], l, r, nleft); }
    }
  }

  predicate KeyHolds(k: KeyPair, l: Row, r: Row) { !At(l, k.left).isNull && !At(r, k.right).isNull && SameKey(k, l, r) }

  predicate KeysHold(keys: seq<KeyPair>, l: Row, r: Row) { forall k | 0 <= k < |keys| :: KeyHolds(keys[k], l, r) }

  lemma KeysHoldMore(k: KeyPair, keys: seq<KeyPair>, l: Row, r: Row)
    ensures KeysHold([k] + keys, l, r) <==> KeyHolds(k, l, r) && KeysHold(keys, l, r)
  {
    var all := [k] + keys;
    if KeysHold(all, l, r) {
      assert KeyHolds(all[0], l, r);
      forall i | 0 <= i < |keys| ensures KeyHolds(keys[i], l, r) { assert KeyHolds(all[i + 1], l, r); }
    }
  }

  lemma KeyedMeans(keys: seq<KeyPair>, residual: seq<Comparison>, nleft: nat, l: Row, r: Row)
    ensures Joins(Keyed(keys, residual, nleft), l, r) <==> KeysHold(keys, l, r) && EvalAll(residual, l, r, nleft)
  {
    if KeysHold(keys, l, r) {
      forall k | 0 <= k < |keys| ensures !At(l, LeftCols(keys)[k]).isNull && !At(r, RightCols(keys)[k]).isNull && SameKey(keys[k], l, r) {
        assert KeyHolds(keys[k], l, r);
      }
    } else {
      var k :| 0 <= k < |keys| && !KeyHolds(keys[k], l, r);
      assert LeftCols(keys)[k] == keys[k].left && RightCols(keys)[k] == keys[k].right;
    }
  }

  /** No term compares as doubles: a joined column is never DOUBLE. */
  predicate NoDoubles(on: seq<Comparison>) { forall k | 0 <= k < |on| && on[k].rightIsColumn :: !on[k].asDouble }

  /** An ON holds exactly when its keys are equal, none of them NULL, and its other
      terms hold. */
  lemma {:induction false} SplitMeans(on: seq<Comparison>, nleft: nat, l: Row, r: Row)
    requires NoDoubles(on)
    ensures EvalAll(on, l, r, nleft) <==>
            KeysHold(KeysOf(on, nleft), l, r) && EvalAll(ResidualOf(on, nleft), l, r, nleft)
  {
    if on != [] {
      var c, rest := on[0], on[1..];
      SplitMeans(rest, nleft, l, r);
      assert on == [c] + rest;
      EvalAllMore(c, rest, l, r, nleft);
      if IsKey(c, nleft) {
        KeysHoldMore(KeyOf(c, nleft), KeysOf(rest, nleft), l, r);
        assert [] + ResidualOf(rest, nleft) == ResidualOf(rest, nleft);
        assert EvalPair(c, l, r, nleft) <==> KeyHolds(KeyOf(c, nleft), l, r);
      } else {
        EvalAllMore(c, ResidualOf(rest, nleft), l, r, nleft);
        assert [] + KeysOf(rest, nleft) == KeysOf(rest, nleft);
      }
    }
  }

  /** What a hash join yields on the keys and terms of an ON is what a nested loop
      yields on the ON: the same rows in the same order when it builds from the right
      input, and the same bag when it builds from the left. */
  lemma {:induction false} HashJoinIsNestedLoop(on: seq<Comparison>, nleft: nat, left: seq<Row>, right: seq<Row>)
    requires NoDoubles(on)
    ensures var hashed := Keyed(KeysOf(on, nleft), ResidualOf(on, nleft), nleft);
            Loop(hashed, false, left, right) == Loop(Terms(on, nleft), false, left, right) &&
            multiset(Loop(hashed, true, right, left)) == multiset(Loop(Terms(on, nleft), false, left, right))
  {
    var hashed := Keyed(KeysOf(on, nleft), ResidualOf(on, nleft), nleft);
    forall l, r ensures Joins(hashed, l, r) <==> Joins(Terms(on, nleft), l, r) {
      SplitMeans(on, nleft, l, r);
      KeyedMeans(KeysOf(on, nleft), ResidualOf(on, nleft), nleft, l, r);
    }
    SameLoop(hashed, Terms(on, nleft), false, left, right);
    SwappedLoop(hashed, left, right);
  }
}

/** The joins themselves: each class holds what its operator holds, and `Stream()` is
    what it has still to yield. */
module JoinOperators {
  import opened Wrappers
  import opened Sequences
  import opened Rows
  import opened Batches
  import opened JoinSpec
  import opened JoinHash

  // ---- the hash of a key ----

  /** How a text is hashed and how the hashes of several columns are combined: any
      functions will do. */
  datatype Hasher = Hasher(text: string -> nat, combine: (nat, nat) -> nat)

  const WORD: nat := 0x1_0000_0000_0000_0000

  function RawHash(h: Hasher, f: Field, isText: bool): nat { if isText then h.text(f.text) else f.i64 % WORD }

  function HashOf(h: Hasher, row: Row, cols: seq<nat>, keys: seq<KeyPair>): nat
    requires |cols| == |keys|
  {
    if cols == [] then 0
    else
      var k := |cols| - 1;
      var v := RawHash(h, At(row, cols[k]), keys[k].isText);
      if k == 0 then v else h.combine(HashOf(h, row, cols[..k], keys[..k]), v)
  }

  method KeyHash(h: Hasher, row: Row, cols: seq<nat>, keys: seq<KeyPair>) returns (hash: nat)
    requires |cols| == |keys|
    ensures hash == HashOf(h, row, cols, keys)
  {
    hash := 0;
    for k := 0 to |cols|
      invariant hash == HashOf(h, row, cols[..k], keys[..k])
    {
      var v := RawHash(h, At(row, cols[k]), keys[k].isText);
      assert cols[..k + 1][..k] == cols[..k] && keys[..k + 1][..k] == keys[..k];
      hash := if k == 0 then v else h.combine(hash, v);
    }
    assert cols[..|cols|] == cols && keys[..|cols|] == keys;
  }

  /** Rows with equal keys hash alike. */
  lemma {:induction false} EqualKeysHash(h: Hasher, l: Row, r: Row, keys: seq<KeyPair>)
    requires KeysEqual(keys, l, r)
    ensures HashOf(h, l, LeftCols(keys), keys) == HashOf(h, r, RightCols(keys), keys)
  {
    if keys != [] {
      var n := |keys| - 1;
      assert SameKey(keys[n], l, r);
      FewerEqual(keys, l, r, n);
      EqualKeysHash(h, l, r, keys[..n]);
      ColsPrefix(keys, n);
      hide KeysEqual, LeftCols, RightCols;
    }
  }

  lemma ColsPrefix(keys: seq<KeyPair>, n: nat)
    requires n < |keys|
    ensures |LeftCols(keys)| == |RightCols(keys)| == |keys|
    ensures LeftCols(keys)[..n] == LeftCols(keys[..n]) && RightCols(keys)[..n] == RightCols(keys[..n])
    ensures LeftCols(keys)[n] == keys[n].left && RightCols(keys)[n] == keys[n].right
  {
  }

  lemma FewerEqual(keys: seq<KeyPair>, l: Row, r: Row, n: nat)
    requires KeysEqual(keys, l, r) && n <= |keys|
    ensures KeysEqual(keys[..n], l, r)
  {
    forall k | 0 <= k < n ensures SameKey(keys[..n][k], l, r) { assert SameKey(keys[k], l, r); }
  }

  // ---- what the table leads a probe to ----

  function ProbeCols(keys: seq<KeyPair>, swap: bool): seq<nat> { if swap then RightCols(keys) else LeftCols(keys) }
  function BuildCols(keys: seq<KeyPair>, swap: bool): seq<nat> { if swap then LeftCols(keys) else RightCols(keys) }

  /** The rows of the build side that are filed. */
  function Filed(rows: seq<Row>, cols: seq<nat>): seq<Row> {
    if rows == [] then [] else (if NullKey(rows[0], cols) then [] else [rows[0]]) + Filed(rows[1..], cols)
  }

  lemma {:induction false} FiledOneMore(rows: seq<Row>, row: Row, cols: seq<nat>)
    ensures Filed(rows + [row], cols) == Filed(rows, cols) + if NullKey(row, cols) then [] else [row]
  {
    if rows == [] {
      assert [row][1..] == [] && [] + [row] == [row];
    } else {
      FiledOneMore(rows[1..], row, cols);
      assert (rows + [row])[1..] == rows[1..] + [row];
    }
  }

  /** A row not filed joins with nothing. */
  lemma {:induction false} FiledWalk(keys: seq<KeyPair>, residual: seq<Comparison>, nleft: nat, swap: bool,
                                     probe: Row, rows: seq<Row>)
    ensures var c := Keyed(keys, residual, nleft);
            Walk(c, swap, probe, Filed(rows, BuildCols(keys, swap))) == Walk(c, swap, probe, rows)
  {
    if rows != [] {
      var c := Keyed(keys, residual, nleft);
      var rest := Filed(rows[1..], BuildCols(keys, swap));
      FiledWalk(keys, residual, nleft, swap, probe, rows[1..]);
      assert ([rows[0]] + rest)[1..] == rest && [] + rest == rest;
    }
  }

  lemma {:induction false} FiledLoop(keys: seq<KeyPair>, residual: seq<Comparison>, nleft: nat, swap: bool,
                                     probes: seq<Row>, rows: seq<Row>)
    ensures var c := Keyed(keys, residual, nleft);
            Loop(c, swap, probes, Filed(rows, BuildCols(keys, swap))) == Loop(c, swap, probes, rows)
  {
    if probes != [] {
      FiledWalk(keys, residual, nleft, swap, probes[0], rows);
      FiledLoop(keys, residual, nleft, swap, probes[1..], rows);
    }
  }

  lemma {:induction false} NullProbe(keys: seq<KeyPair>, residual: seq<Comparison>, nleft: nat, swap: bool,
                                     probe: Row, rows: seq<Row>)
    requires NullKey(probe, ProbeCols(keys, swap))
    ensures Walk(Keyed(keys, residual, nleft), swap, probe, rows) == []
  {
    if rows != [] { NullProbe(keys, residual, nleft, swap, probe, rows[1..]); }
  }

  /** The hash a build row was filed under. */
  ghost predicate FiledUnder(h: Hasher, keys: seq<KeyPair>, swap: bool, built: seq<Row>, hashes: seq<nat>) {
    && |hashes| == |built|
    && forall id | 0 <= id < |built| ::
         !NullKey(built[id], BuildCols(keys, swap)) && hashes[id] == HashOf(h, built[id], BuildCols(keys, swap), keys)
  }

  lemma ColsCount(keys: seq<KeyPair>, swap: bool)
    ensures |BuildCols(keys, swap)| == |ProbeCols(keys, swap)| == |keys|
  {
  }

  lemma FiledNone(h: Hasher, keys: seq<KeyPair>, swap: bool, rows: seq<Row>)
    ensures FiledUnder(h, keys, swap, [], []) && Filed(rows[..0], BuildCols(keys, swap)) == []
  {
  }

  lemma {:induction false} FiledMore(h: Hasher, keys: seq<KeyPair>, swap: bool, rows: seq<Row>, n: nat, built: seq<Row>, hashes: seq<nat>)
    requires n < |rows| && FiledUnder(h, keys, swap, built, hashes) && built == Filed(rows[..n], BuildCols(keys, swap))
    ensures |BuildCols(keys, swap)| == |keys|
    ensures var cols := BuildCols(keys, swap);
            if NullKey(rows[n], cols) then Filed(rows[..n + 1], cols) == built
            else Filed(rows[..n + 1], cols) == built + [rows[n]] &&
                 FiledUnder(h, keys, swap, built + [rows[n]], hashes + [HashOf(h, rows[n], cols, keys)])
  {
    FiledOneMore(rows[..n], rows[n], BuildCols(keys, swap));
    assert rows[..n + 1] == rows[..n] + [rows[n]];
  }

  /** Walking one bucket finds every row a probe joins with, in the order they were filed. */
  lemma {:induction false} BucketWalk(h: Hasher, mix: nat -> nat, keys: seq<KeyPair>, residual: seq<Comparison>, nleft: nat,
                                      swap: bool, built: seq<Row>, hashes: seq<nat>, nb: nat, probe: Row, n: nat)
    requires nb > 0 && FiledUnder(h, keys, swap, built, hashes) && n <= |built|
    ensures var b := mix(HashOf(h, probe, ProbeCols(keys, swap), keys)) % nb;
            var c := Keyed(keys, residual, nleft);
            Walk(c, swap, probe, RowsAt(built, Bucket(Mixed(hashes, mix), nb, b, n))) == Walk(c, swap, probe, built[..n])
  {
    hide Walk, HashOf, One, RowsAt;
    if n > 0 {
      var b := mix(HashOf(h, probe, ProbeCols(keys, swap), keys)) % nb;
      var ids := Bucket(Mixed(hashes, mix), nb, b, n - 1);
      BucketWalk(h, mix, keys, residual, nleft, swap, built, hashes, nb, probe, n - 1);
      if Mixed(hashes, mix)[n - 1] % nb != b { OtherBucket(h, keys, residual, nleft, swap, probe, built[n - 1]); }
      WalkMore(Keyed(keys, residual, nleft), swap, probe, built, ids, n);
      assert ids + [] == ids;
    } else {
      NoRows(built);
    }
  }

  lemma NoRows(built: seq<Row>) ensures RowsAt(built, []) == built[..0] {}

  lemma {:induction false} WalkMore(c: Condition, swap: bool, probe: Row, built: seq<Row>, ids: seq<nat>, n: nat)
    requires 0 < n <= |built| && Walk(c, swap, probe, RowsAt(built, ids)) == Walk(c, swap, probe, built[..n - 1])
    ensures Walk(c, swap, probe, RowsAt(built, ids + [n - 1])) == Walk(c, swap, probe, built[..n])
    ensures One(c, swap, probe, built[n - 1]) == [] ==> Walk(c, swap, probe, RowsAt(built, ids)) == Walk(c, swap, probe, built[..n])
  {
    hide Walk, One;
    var row := built[n - 1];
    assert built[..n] == built[..n - 1] + [row];
    WalkConcat(c, swap, probe, built[..n - 1], [row]);
    WalkOne(c, swap, probe, row);
    assert RowsAt(built, ids + [n - 1]) == RowsAt(built, ids) + [row];
    WalkConcat(c, swap, probe, RowsAt(built, ids), [row]);
  }

  lemma {:induction false} WalkOne(c: Condition, swap: bool, probe: Row, row: Row)
    ensures Walk(c, swap, probe, [row]) == One(c, swap, probe, row)
  {
    assert [row][1..] == [];
  }

  /** A row whose key hashes otherwise does not join. */
  lemma {:induction false} OtherBucket(h: Hasher, keys: seq<KeyPair>, residual: seq<Comparison>, nleft: nat, swap: bool, probe: Row, row: Row)
    requires HashOf(h, row, BuildCols(keys, swap), keys) != HashOf(h, probe, ProbeCols(keys, swap), keys)
    ensures One(Keyed(keys, residual, nleft), swap, probe, row) == []
  {
    var (l, r) := if swap then (row, probe) else (probe, row);
    if KeysEqual(keys, l, r) { EqualKeysHash(h, l, r, keys); }
  }

  method CheckAll(cs: seq<Comparison>, l: Row, r: Row, nleft: nat) returns (pass: bool)
    ensures pass == EvalAll(cs, l, r, nleft)
  {
    for k := 0 to |cs|
      invariant forall j | 0 <= j < k :: EvalPair(cs[j], l, r, nleft)
    {
      if !EvalPair(cs[k], l, r, nleft) { return false; }
    }
    return true;
  }

  lemma {:induction false} WalkFrom(c: Condition, swap: bool, probe: Row, others: seq<Row>, j: nat)
    requires j < |others|
    ensures Walk(c, swap, probe, others[j..]) == One(c, swap, probe, others[j]) + Walk(c, swap, probe, others[j + 1..])
  {
    assert others[j..][1..] == others[j + 1..];
  }

  /** Taking a pair off the front of what is to come. */
  lemma NextOne(c: Condition, swap: bool, probe: Row, other: Row, more: seq<Row>, rest: seq<Row>)
    ensures var (l, r) := if swap then (other, probe) else (probe, other);
            var all := One(c, swap, probe, other) + more + rest;
            if Joins(c, l, r) then all != [] && all[0] == l + r && all[1..] == more + rest else all == more + rest
  {
  }

  method ReadAll(input: Input) returns (rows: seq<Row>)
    modifies input
    ensures input.Valid() && rows == input.rows
  {
    hide Input.Rest;
    rows := [];
    input.Open();
    var r := input.Next();
    while r.Some?
      invariant input.Valid() && input.pos == |rows| + if r.Some? then 1 else 0
      invariant r == if |rows| < |input.rows| then Some(input.rows[|rows|]) else None
      invariant |rows| <= |input.rows| && rows == input.rows[..|rows|]
      decreases |input.rows| - |rows|
    {
      rows := rows + [r.value];
      r := input.Next();
    }
  }

  class NestedLoopJoin {
    const left: Input
    const right: Input
    const on: seq<Comparison>
    const nleft: nat
    var inner: seq<Row>
    var outer: Row
    var haveOuter: bool
    var j: nat

    ghost function Cond(): Condition { Terms(on, nleft) }

    ghost predicate Valid() reads this, left { left != right && left.Valid() && (haveOuter ==> j <= |inner|) }

    ghost function Stream(): seq<Row> reads this, left {
      (if haveOuter && j <= |inner| then Walk(Cond(), false, outer, inner[j..]) else []) +
      Loop(Cond(), false, left.Rest(), inner)
    }

    constructor (left: Input, right: Input, on: seq<Comparison>, nleft: nat)
      ensures this.left == left && this.right == right && this.on == on && this.nleft == nleft
    {
      this.left, this.right, this.on, this.nleft := left, right, on, nleft;
      inner, outer, haveOuter, j := [], [], false, 0;
    }

    /** Read the right input once, and keep it. */
    method Open()
      requires left != right
      modifies this, left, right
      ensures Valid() && Stream() == Loop(Terms(on, nleft), false, left.rows, right.rows)
    {
      inner := ReadAll(right);
      left.Open();
      haveOuter := false;
    }

    method Produce() returns (r: Option<Row>)
      requires Valid()
      modifies this, left
      ensures Valid() && Yields(old(Stream()), r, Stream())
    {
      hide Walk, One, Loop, Yields, Joins;
      while true
        invariant Valid() && Stream() == old(Stream())
        decreases |left.Rest()|, haveOuter, |inner| - j
      {
        if !haveOuter {
          var more := NextOuter();
          if !more { Ended(Stream()); return None; }
        } else if j < |inner| {
          r := Meet();
          if r.Some? { return r; }
        } else {
          WalkNone(Cond(), false, outer, inner[j..]);
          haveOuter := false;
        }
      }
    }

    method NextOuter() returns (more: bool)
      requires Valid() && !haveOuter
      modifies this, left
      ensures Valid() && Stream() == old(Stream()) && (!more ==> Stream() == [])
      ensures inner == old(inner) && (more ==> haveOuter && |left.Rest()| < old(|left.Rest()|))
    {
      hide Walk, One;
      var next := left.Next();
      if next.None? { return false; }
      outer, haveOuter, j := next.value, true, 0;
      assert inner[0..] == inner;
      more := true;
    }

    /** The next right row met by the left one in hand. */
    method Meet() returns (r: Option<Row>)
      requires Valid() && haveOuter && j < |inner|
      modifies this`j
      ensures Valid() && j == old(j) + 1
      ensures if r == None then Stream() == old(Stream()) else Yields(old(Stream()), r, Stream())
    {
      hide Walk, One, Loop;
      var other := inner[j];
      WalkFrom(Cond(), false, outer, inner, j);
      NextOne(Cond(), false, outer, other, Walk(Cond(), false, outer, inner[j + 1..]), Loop(Cond(), false, left.Rest(), inner));
      j := j + 1;
      var pass := CheckAll(on, outer, other, nleft);
      if pass { return Some(outer + other); }
      r := None;
    }
  }

  /** A stream's first row given out, or its end. */
  ghost predicate Yields(before: seq<Row>, r: Option<Row>, after: seq<Row>) {
    if before == [] then r == None && after == [] else r == Some(before[0]) && after == before[1..]
  }

  lemma Ended(s: seq<Row>) ensures s == [] ==> Yields(s, None, s) {}

  lemma {:induction false} WalkNone(c: Condition, swap: bool, probe: Row, others: seq<Row>)
    requires others == []
    ensures Walk(c, swap, probe, others) == []
  {
  }

  // ---- hash join ----

  /** Equal keys, whatever else the ON asks. */
  function KeysOnly(c: Condition): Condition
    requires c.Keyed?
  {
    Keyed(c.keys, [], c.nleft)
  }

  method CheckKeys(keys: seq<KeyPair>, l: Row, r: Row) returns (same: bool)
    ensures same == KeysEqual(keys, l, r)
  {
    for k := 0 to |keys|
      invariant forall j | 0 <= j < k :: SameKey(keys[j], l, r)
    {
      if !SameKey(keys[k], l, r) { return false; }
    }
    return true;
  }

  method HasNull(row: Row, cols: seq<nat>) returns (absent: bool)
    ensures absent == NullKey(row, cols)
  {
    for k := 0 to |cols|
      invariant forall j | 0 <= j < k :: !At(row, cols[j]).isNull
    {
      if At(row, cols[k]).isNull { return true; }
    }
    return false;
  }

  /** Two rows with no NULL among their keys join when the keys and the other terms agree. */
  lemma {:induction false} Meets(h: Hasher, keys: seq<KeyPair>, residual: seq<Comparison>, nleft: nat, swap: bool, probe: Row, other: Row)
    requires !NullKey(probe, ProbeCols(keys, swap)) && !NullKey(other, BuildCols(keys, swap))
    ensures var (l, r) := if swap then (other, probe) else (probe, other);
            && (Joins(Keyed(keys, residual, nleft), l, r) <==> KeysEqual(keys, l, r) && EvalAll(residual, l, r, nleft))
            && (KeysEqual(keys, l, r) ==>
                  HashOf(h, probe, ProbeCols(keys, swap), keys) == HashOf(h, other, BuildCols(keys, swap), keys))
  {
    var (l, r) := if swap then (other, probe) else (probe, other);
    if KeysEqual(keys, l, r) { EqualKeysHash(h, l, r, keys); }
  }

  /** Every row of an input has its schema's columns. */
  predicate Wide(rows: seq<Row>, n: nat) { forall i | 0 <= i < |rows| :: |rows[i]| == n }

  predicate PairWide(swap: bool, probe: Row, others: seq<Row>, n: nat) {
    if swap then Wide(others, n) else |probe| == n
  }

  /** Joining on the keys, and then keeping the joined rows that pass the other terms. */
  lemma {:induction false} KeptWalk(c: Condition, swap: bool, probe: Row, others: seq<Row>)
    requires c.Keyed? && PairWide(swap, probe, others, c.nleft)
    ensures Kept(c.residual, Walk(KeysOnly(c), swap, probe, others)) == Walk(c, swap, probe, others)
  {
    if others != [] {
      assert PairWide(swap, probe, others[1..], c.nleft);
      KeptWalk(c, swap, probe, others[1..]);
      KeptPair(c, swap, probe, others[0]);
      KeptConcat(c.residual, One(KeysOnly(c), swap, probe, others[0]), Walk(KeysOnly(c), swap, probe, others[1..]));
    }
  }

  lemma KeptPair(c: Condition, swap: bool, probe: Row, other: Row)
    requires c.Keyed? && |if swap then other else probe| == c.nleft
    ensures Kept(c.residual, One(KeysOnly(c), swap, probe, other)) == One(c, swap, probe, other)
  {
    var (l, r) := if swap then (other, probe) else (probe, other);
    forall k | 0 <= k < |c.residual|
      ensures EvalPair(c.residual[k], l, r, c.nleft) <==> Eval(c.residual[k], l + r)
    {
      PairIsJoined(c.residual[k], l, r);
    }
    KeptOne(c.residual, l + r);
    assert Kept(c.residual, []) == [];
    KeptSame(c, l, r);
  }

  lemma KeptSame(c: Condition, l: Row, r: Row)
    requires c.Keyed?
    requires forall k | 0 <= k < |c.residual| :: EvalPair(c.residual[k], l, r, c.nleft) <==> Eval(c.residual[k], l + r)
    ensures Joins(c, l, r) <==> Joins(KeysOnly(c), l, r) && Passes(c.residual, l + r)
  {
    if EvalAll(c.residual, l, r, c.nleft) {
      forall k | 0 <= k < |c.residual| ensures Eval(c.residual[k], l + r) { assert EvalPair(c.residual[k], l, r, c.nleft); }
    }
    if Passes(c.residual, l + r) {
      forall k | 0 <= k < |c.residual| ensures EvalPair(c.residual[k], l, r, c.nleft) { assert Eval(c.residual[k], l + r); }
    }
  }

  lemma {:induction false} KeptLoop(c: Condition, swap: bool, probes: seq<Row>, others: seq<Row>)
    requires c.Keyed? && if swap then Wide(others, c.nleft) else Wide(probes, c.nleft)
    ensures Kept(c.residual, Loop(KeysOnly(c), swap, probes, others)) == Loop(c, swap, probes, others)
  {
    if probes != [] {
      KeptLoop(c, swap, probes[1..], others);
      KeptWalk(c, swap, probes[0], others);
      KeptConcat(c.residual, Walk(KeysOnly(c), swap, probes[0], others), Loop(KeysOnly(c), swap, probes[1..], others));
    }
  }

  class HashJoin {
    const left: Input
    const right: Input
    const keys: seq<KeyPair>
    const residual: seq<Comparison>
    const nleft: nat
    const buildLeft: bool
    const hasher: Hasher
    const mix: nat -> nat

    var table: JoinHashTable
    var built: seq<Row>
    var outer: Row
    var probing: bool
    var probeHash: nat
    var pos: nat
    var end: nat

    // The batch path: the probe batch being worked through, its hashes, and the row
    // of it being matched.
    const batchRows: nat
    var probeBatch: seq<Row>
    var probeHashes: seq<nat>
    var pk: nat
    var inBucket: bool

    function Cond(): Condition { Keyed(keys, residual, nleft) }
    function Probe(): Input { if buildLeft then right else left }
    function Build(): Input { if buildLeft then left else right }

    ghost predicate Ready() reads `table, `built, table, table.offset, table.order, left, right {
      && left != right && Probe().Valid() && table.mix == mix
      && table.Finished() && FiledUnder(hasher, keys, buildLeft, built, table.hashes)
    }

    ghost predicate Valid() reads this, table, table.offset, table.order, left, right {
      Ready() && (probing ==> InBucket(outer, probeHash))
    }

    /** Part way through the bucket of `row`. */
    ghost predicate InBucket(row: Row, hash: nat) reads `table, `built, `pos, `end, table, table.order {
      && table.nb > 0 && pos <= end <= table.order.Length
      && !NullKey(row, ProbeCols(keys, buildLeft)) && hash == HashOf(hasher, row, ProbeCols(keys, buildLeft), keys)
      && forall p | pos <= p < end :: table.order[p] < |built|
    }

    /** The rows the rest of the bucket holds. */
    ghost function Ahead(): seq<Row> reads `table, `built, `pos, `end, table, table.order {
      if pos <= end <= table.order.Length then RowsAt(built, table.order[pos..end]) else []
    }

    ghost function Stream(): seq<Row> reads this, table, table.order, left, right {
      ToCome(Cond(), buildLeft, probing, outer, Ahead(), built, Probe().Rest())
    }

    constructor (left: Input, right: Input, keys: seq<KeyPair>, residual: seq<Comparison>, nleft: nat,
                 hasher: Hasher, mix: nat -> nat, buildLeft: bool, batchRows: nat)
      ensures this.left == left && this.right == right && this.keys == keys && this.residual == residual
      ensures this.nleft == nleft && this.hasher == hasher && this.mix == mix && this.buildLeft == buildLeft
      ensures this.batchRows == batchRows
    {
      this.left, this.right, this.keys, this.residual, this.nleft := left, right, keys, residual, nleft;
      this.hasher, this.mix, this.buildLeft := hasher, mix, buildLeft;
      table := new JoinHashTable(mix);
      built, outer, probing, probeHash, pos, end := [], [], false, 0, 0, 0;
      this.batchRows, probeBatch, probeHashes, pk, inBucket := batchRows, [], [], 0, false;
    }

    /** File every row of the build side under its key; a NULL key matches nothing and
        is not filed. Then open the probe side. */
    method Open()
      requires left != right
      modifies this, left, right
      ensures Valid() && fresh(table) && fresh(table.offset) && fresh(table.order)
      ensures Stream() == if buildLeft then Loop(Keyed(keys, residual, nleft), true, right.rows, left.rows)
                          else Loop(Keyed(keys, residual, nleft), false, left.rows, right.rows)
    {
      hide Walk, Loop, FiledUnder, Filed, JoinHashTable.Finished;
      table, built := FileAll(Build());
      table.Finish();
      Probe().Open();
      probing := false;
      FiledLoop(keys, residual, nleft, buildLeft, Probe().rows, Build().rows);
      ToComePast(Cond(), buildLeft, outer, Ahead(), built, Probe().Rest());
      assert Stream() == Loop(Cond(), buildLeft, Probe().rows, built);
    }

    method FileAll(input: Input) returns (table: JoinHashTable, built: seq<Row>)
      modifies input
      ensures fresh(table) && table.mix == mix && input.Valid()
      ensures built == Filed(input.rows, BuildCols(keys, buildLeft))
      ensures FiledUnder(hasher, keys, buildLeft, built, table.hashes)
    {
      hide NullKey, HashOf, Filed, FiledUnder, BuildCols;
      ghost var n := 0;
      table := new JoinHashTable(mix);
      built := [];
      FiledNone(hasher, keys, buildLeft, input.rows);
      input.Open();
      var r := input.Next();
      while r.Some?
        invariant fresh(table) && table.mix == mix && n <= |input.rows| && input.Valid()
        invariant input.pos == n + if r.Some? then 1 else 0
        invariant r == if n < |input.rows| then Some(input.rows[n]) else None
        invariant FiledUnder(hasher, keys, buildLeft, built, table.hashes)
        invariant built == Filed(input.rows[..n], BuildCols(keys, buildLeft))
        decreases |input.rows| - n
      {
        FiledMore(hasher, keys, buildLeft, input.rows, n, built, table.hashes);
        var absent := HasNull(r.value, BuildCols(keys, buildLeft));
        if !absent {
          ColsCount(keys, buildLeft);
          var hash := KeyHash(hasher, r.value, BuildCols(keys, buildLeft), keys);
          table.Add(hash);
          built := built + [r.value];
        }
        n := n + 1;
        r := input.Next();
      }
      assert input.rows[..n] == input.rows;
    }

    method Produce() returns (r: Option<Row>)
      requires Valid()
      modifies this`outer, this`probing, this`probeHash, this`pos, this`end, left, right
      ensures Valid() && Yields(old(Stream()), r, Stream())
    {
      hide Valid, Stream, Yields, InBucket, Ready, Ahead;
      while true
        invariant Valid() && Stream() == old(Stream())
        decreases |Probe().Rest()|, probing, end - pos
      {
        if !probing {
          var more := NextProbe();
          if !more { Ended(Stream()); return None; }
        } else if pos < end {
          var hit := Meet();
          if hit != [] { FirstHit(old(Stream()), hit, Stream()); return Some(hit[0]); }
          assert hit + Stream() == Stream();
        } else {
          LeaveBucket();
        }
      }
    }

    /** The bucket is used up. */
    method LeaveBucket()
      requires Valid() && probing && pos >= end
      modifies this`probing
      ensures Valid() && Stream() == old(Stream()) && !probing
    {
      hide Ready, ToCome, HashOf, NullKey, Walk;
      WalkNone(Cond(), buildLeft, outer, Ahead());
      ToComeOut(Cond(), buildLeft, outer, Ahead(), built, Probe().Rest());
      probing := false;
    }

    /** Enter the bucket of `row`. */
    method Enter(row: Row, hash: nat)
      requires Ready() && !NullKey(row, ProbeCols(keys, buildLeft)) && hash == HashOf(hasher, row, ProbeCols(keys, buildLeft), keys)
      modifies this`pos, this`end
      ensures Ready() && InBucket(row, hash)
      ensures forall terms :: Walk(Keyed(keys, terms, nleft), buildLeft, row, Ahead()) ==
                              Walk(Keyed(keys, terms, nleft), buildLeft, row, built)
    {
      hide Walk, NullKey, HashOf;
      pos, end := table.BucketRange(hash);
      ghost var ids := table.order[pos..end];
      BucketIds(table.Keys(), table.nb, mix(hash) % table.nb, |built|);
      hide Bucket;
      forall p | pos <= p < end ensures table.order[p] < |built| { assert ids[p - pos] in ids; }
      forall terms
        ensures Walk(Keyed(keys, terms, nleft), buildLeft, row, RowsAt(built, ids)) == Walk(Keyed(keys, terms, nleft), buildLeft, row, built)
      {
        BucketWalk(hasher, mix, keys, terms, nleft, buildLeft, built, table.hashes, table.nb, row, |built|);
        assert built[..|built|] == built;
      }
    }

    method PullProbe() returns (next: Option<Row>)
      requires Ready()
      modifies left, right
      ensures Ready()
      ensures var rest := old(Probe().Rest());
              if rest == [] then next == None && Probe().Rest() == [] else next == Some(rest[0]) && Probe().Rest() == rest[1..]
    {
      next := Probe().Next();
    }

    method NextProbe() returns (more: bool)
      requires Valid() && !probing
      modifies this`outer, this`probing, this`probeHash, this`pos, this`end, left, right
      ensures Valid() && Stream() == old(Stream()) && (!more ==> Stream() == [])
      ensures more ==> |Probe().Rest()| < old(|Probe().Rest()|)
    {
      hide Ready, ToCome, Walk, Loop, FiledUnder, NullKey, HashOf, Joins, Ahead, InBucket, Input.Rest;
      ColsCount(keys, buildLeft);
      ToComeNext(Cond(), buildLeft, outer, Ahead(), built, Probe().Rest());
      var next := PullProbe();
      if next.None? { return false; }
      outer := next.value;
      more := true;
      var absent := HasNull(outer, ProbeCols(keys, buildLeft));
      if absent {
        NullProbe(keys, residual, nleft, buildLeft, outer, built);
        ToComePast(Cond(), buildLeft, outer, Ahead(), built, Probe().Rest());
        return;
      }
      probeHash := KeyHash(hasher, outer, ProbeCols(keys, buildLeft), keys);
      Enter(outer, probeHash);
      ToComeIn(Cond(), buildLeft, outer, Ahead(), built, Probe().Rest());
      probing := true;
    }

    /** The next row of the bucket, joined with the probe row in hand if they meet. */
    method Meet() returns (hit: seq<Row>)
      requires Valid() && probing && pos < end
      modifies this`pos
      ensures Valid() && pos == old(pos) + 1 && |hit| <= 1 && old(Stream()) == hit + Stream()
    {
      hide Ready, ToCome, HashOf, Joins, Walk, NullKey, FiledUnder, InBucket, Ahead;
      ToComeOne(Cond(), buildLeft, outer, Held(outer, probeHash), built, Probe().Rest());
      var id := Advance(outer, probeHash);
      var other := built[id];
      Meets(hasher, keys, residual, nleft, buildLeft, outer, other);
      hit := [];
      if table.hashes[id] != probeHash { return; }
      var l, r := if buildLeft then other else outer, if buildLeft then outer else other;
      var same := CheckKeys(keys, l, r);
      if !same { return; }
      var pass := CheckAll(residual, l, r, nleft);
      if pass { hit := [l + r]; }
    }

    // ---- the batch path ----

    ghost predicate ValidBatch() reads this, table, table.offset, table.order, left, right {
      && Ready() && Hashed(hasher, keys, buildLeft, probeBatch, probeHashes)
      && (pk < |probeBatch| && inBucket ==> InBucket(probeBatch[pk], probeHashes[pk]))
    }

    /** The rows still to come that match on the keys. */
    ghost function KeyStream(): seq<Row> reads this, table, table.order, left, right {
      Coming(KeysOnly(Cond()), buildLeft, probeBatch, pk, inBucket, Ahead(), built, Probe().Rest())
    }

    ghost function BatchStream(): seq<Row> reads this, table, table.order, left, right { Kept(residual, KeyStream()) }

    method OpenBatches()
      requires left != right && Wide(left.rows, nleft)
      modifies this, left, right
      ensures ValidBatch() && fresh(table) && fresh(table.offset) && fresh(table.order)
      ensures BatchStream() == if buildLeft then Loop(Keyed(keys, residual, nleft), true, right.rows, left.rows)
                               else Loop(Keyed(keys, residual, nleft), false, left.rows, right.rows)
    {
      hide Walk, Loop, FiledUnder, Filed, Kept, Wide, Coming, JoinHashTable.Finished, BuildCols;
      table, built := FileAll(Build());
      table.Finish();
      Probe().Open();
      probeBatch, probeHashes, pk, inBucket := [], [], 0, false;
      FiledLoop(keys, residual, nleft, buildLeft, Probe().rows, Build().rows);
      FiledWide(Build().rows, BuildCols(keys, buildLeft), nleft);
      KeptLoop(Cond(), buildLeft, Probe().rows, built);
      ComingStart(KeysOnly(Cond()), buildLeft, Ahead(), built, Probe().Rest());
    }

    /** The next probe batch, every key hashed in one pass. */
    method NextProbeBatch() returns (more: bool)
      requires ValidBatch() && pk >= |probeBatch| && batchRows > 0
      modifies this`probeBatch, this`probeHashes, this`pk, this`inBucket, left, right
      ensures ValidBatch() && KeyStream() == old(KeyStream())
      ensures if more then pk < |probeBatch| && |Probe().Rest()| < old(|Probe().Rest()|)
              else KeyStream() == [] && pk >= |probeBatch|
    {
      hide Coming, InBucket, FiledUnder, JoinHashTable.Finished;
      var b := Probe().NextBatch(batchRows);
      ComingNext(KeysOnly(Cond()), buildLeft, probeBatch, pk, inBucket, Ahead(), built, b, Probe().Rest());
      if b == [] { return false; }
      probeHashes := HashBatch(b);
      probeBatch, pk, inBucket := b, 0, false;
      more := true;
    }

    lemma BuiltAt(p: nat)
      requires Ready() && p < table.order.Length && table.order[p] < |built|
      ensures var id := table.order[p];
              && id < |table.hashes| && !NullKey(built[id], BuildCols(keys, buildLeft))
              && table.hashes[id] == HashOf(hasher, built[id], BuildCols(keys, buildLeft), keys)
    {
    }

    method HashBatch(b: seq<Row>) returns (hashes: seq<nat>)
      ensures Hashed(hasher, keys, buildLeft, b, hashes)
    {
      hide HashOf;
      ColsCount(keys, buildLeft);
      hashes := [];
      while |hashes| < |b|
        invariant |hashes| <= |b|
        invariant forall k | 0 <= k < |hashes| :: hashes[k] == HashOf(hasher, b[k], ProbeCols(keys, buildLeft), keys)
      {
        var hash := KeyHash(hasher, b[|hashes|], ProbeCols(keys, buildLeft), keys);
        hashes := hashes + [hash];
      }
    }

    /** Matches collected until `want` of them or the probe batch is used up; a bucket
        half walked is resumed on the next call. */
    method Collect(want: nat) returns (matched: seq<Row>)
      requires ValidBatch() && want > 0
      modifies this`pos, this`end, this`pk, this`inBucket
      ensures ValidBatch() && old(KeyStream()) == matched + KeyStream() && |matched| <= want
      ensures old(pk) <= pk && (matched == [] ==> pk >= |probeBatch|)
    {
      hide Ready, Coming, Hashed, InBucket, Ahead;
      matched := [];
      while pk < |probeBatch| && |matched| < want
        invariant ValidBatch() && old(KeyStream()) == matched + KeyStream() && |matched| <= want && old(pk) <= pk
        decreases |probeBatch| - pk, !inBucket, end - pos
      {
        if !inBucket {
          StartRow();
        } else if pos < end {
          var hit := MeetBatch();
          Assoc(matched, hit, KeyStream());
          matched := matched + hit;
        } else {
          LeaveRow();
        }
      }
    }

    /** Enter the bucket of the probe row in hand, or pass it by if its key is NULL. */
    method StartRow()
      requires ValidBatch() && pk < |probeBatch| && !inBucket
      modifies this`pos, this`end, this`pk, this`inBucket
      ensures ValidBatch() && KeyStream() == old(KeyStream())
      ensures pk == old(pk) + (if inBucket then 0 else 1)
    {
      hide Ready, Coming, HashOf, NullKey, InBucket, Ahead, Walk;
      var row := probeBatch[pk];
      var absent := HasNull(row, ProbeCols(keys, buildLeft));
      if absent {
        NullProbe(keys, [], nleft, buildLeft, row, built);
        ComingPast(KeysOnly(Cond()), buildLeft, probeBatch, pk, Ahead(), built, Probe().Rest());
        pk := pk + 1;
        return;
      }
      ComingFrom(KeysOnly(Cond()), buildLeft, probeBatch, pk, Ahead(), built, Probe().Rest());
      Enter(row, probeHashes[pk]);
      ComingIn(KeysOnly(Cond()), buildLeft, probeBatch, pk, Ahead(), built, Probe().Rest());
      inBucket := true;
    }

    /** The bucket is used up. */
    method LeaveRow()
      requires ValidBatch() && pk < |probeBatch| && inBucket && pos >= end
      modifies this`pk, this`inBucket
      ensures ValidBatch() && KeyStream() == old(KeyStream()) && pk == old(pk) + 1 && !inBucket
    {
      hide Ready, Coming, HashOf, NullKey, Walk;
      WalkNone(KeysOnly(Cond()), buildLeft, probeBatch[pk], Ahead());
      ComingOut(KeysOnly(Cond()), buildLeft, probeBatch, pk, Ahead(), built, Probe().Rest());
      inBucket := false;
      pk := pk + 1;
    }

    /** The next row of the bucket, if it matches. */
    method MeetBatch() returns (hit: seq<Row>)
      requires ValidBatch() && pk < |probeBatch| && inBucket && pos < end
      modifies this`pos
      ensures ValidBatch() && pos == old(pos) + 1 && |hit| <= 1 && old(KeyStream()) == hit + KeyStream()
    {
      hide Ready, Coming, HashOf, Joins, Walk, NullKey, FiledUnder, InBucket, Ahead;
      var row, hash := probeBatch[pk], probeHashes[pk];
      ComingOne(KeysOnly(Cond()), buildLeft, probeBatch, pk, Held(row, hash), built, Probe().Rest());
      var id := Advance(row, hash);
      var other := built[id];
      Meets(hasher, keys, [], nleft, buildLeft, row, other);
      hit := [];
      if table.hashes[id] != hash { return; }
      var l, r := if buildLeft then other else row, if buildLeft then row else other;
      var same := CheckKeys(keys, l, r);
      if same { hit := [l + r]; }
    }

    /** The rows ahead, of which there is one. */
    ghost function Held(row: Row, hash: nat): (rows: seq<Row>)
      requires InBucket(row, hash) && pos < end
      reads `table, `built, `pos, `end, table, table.order
      ensures rows == Ahead() && rows != []
    {
      Ahead()
    }

    /** On to the next position of the bucket. */
    method Advance(row: Row, hash: nat) returns (id: nat)
      requires Ready() && InBucket(row, hash) && pos < end
      modifies this`pos
      ensures InBucket(row, hash) && pos == old(pos) + 1
      ensures id < |built| && id < |table.hashes| && built[id] == old(Ahead())[0] && Ahead() == old(Ahead())[1..]
      ensures !NullKey(row, ProbeCols(keys, buildLeft)) && hash == HashOf(hasher, row, ProbeCols(keys, buildLeft), keys)
      ensures !NullKey(built[id], BuildCols(keys, buildLeft))
      ensures table.hashes[id] == HashOf(hasher, built[id], BuildCols(keys, buildLeft), keys)
    {
      hide Ready, HashOf, NullKey;
      BuiltAt(pos);
      AheadNext(built, table.order[..], pos, end);
      id := table.order[pos];
      pos := pos + 1;
    }

    /** Rows joined, at most `max` and at least one, or None at the end. */
    method ProduceBatch(max: nat) returns (out: Option<Batch>)
      requires ValidBatch() && max > 0 && batchRows > 0
      modifies this`pos, this`end, this`probeBatch, this`probeHashes, this`pk, this`inBucket, left, right
      ensures ValidBatch()
      ensures out.None? ==> old(BatchStream()) == [] && BatchStream() == []
      ensures out.Some? ==>
                && fresh(out.value) && fresh(out.value.sel) && out.value.Valid() && 0 < out.value.Count() <= max
                && old(BatchStream()) == out.value.Live() + BatchStream()
    {
      hide KeyStream, Kept, ValidBatch, Batch.Valid;
      var want := if max < batchRows then max else batchRows;
      while true
        invariant ValidBatch() && BatchStream() == old(BatchStream())
        decreases |Probe().Rest()|, |KeyStream()|, |probeBatch| - pk
      {
        if pk >= |probeBatch| {
          var more := NextProbeBatch();
          if !more { NothingKept(residual); return None; }
        }
        var matched := Collect(want);
        KeptConcat(residual, matched, KeyStream());
        if matched == [] { NothingKept(residual); continue; }
        out := Narrow(matched);
        if out.Some? { return; }
      }
    }

    /** The matches that pass the other terms, as a batch; None if there are none. */
    method Narrow(matched: seq<Row>) returns (out: Option<Batch>)
      ensures out.None? ==> Kept(residual, matched) == []
      ensures out.Some? ==>
                && fresh(out.value) && fresh(out.value.sel) && out.value.Valid() && 0 < out.value.Count() <= |matched|
                && out.value.Live() == Kept(residual, matched)
    {
      hide Kept;
      var b := new Batch(matched);
      b.SelectAll(residual);
      KeptFewer(residual, matched);
      if b.Count() > 0 { return Some(b); }
      return None;
    }
  }

  lemma {:induction false} FiledWide(rows: seq<Row>, cols: seq<nat>, n: nat)
    ensures Wide(rows, n) ==> Wide(Filed(rows, cols), n)
  {
    if rows != [] && Wide(rows, n) {
      assert Wide(rows[1..], n);
      FiledWide(rows[1..], cols, n);
    }
  }

  /** What is to come of a probe batch, part way through it, and of the rest. */
  ghost function Coming(c: Condition, swap: bool, batch: seq<Row>, pk: nat, inBucket: bool, ahead: seq<Row>,
                        built: seq<Row>, rest: seq<Row>): seq<Row> {
    (if pk < |batch| then
       Walk(c, swap, batch[pk], if inBucket then ahead else built) + Loop(c, swap, batch[pk + 1..], built)
     else []) +
    Loop(c, swap, rest, built)
  }

  lemma {:induction false} ComingStart(c: Condition, swap: bool, ahead: seq<Row>, built: seq<Row>, rest: seq<Row>)
    ensures Coming(c, swap, [], 0, false, ahead, built, rest) == Loop(c, swap, rest, built)
  {
    assert [] + Loop(c, swap, rest, built) == Loop(c, swap, rest, built);
  }

  lemma ComingNext(c: Condition, swap: bool, batch: seq<Row>, pk: nat, inBucket: bool, ahead: seq<Row>,
                   built: seq<Row>, b: seq<Row>, rest: seq<Row>)
    requires pk >= |batch|
    ensures Coming(c, swap, batch, pk, inBucket, ahead, built, b + rest) == Coming(c, swap, b, 0, false, ahead, built, rest)
    ensures b + rest == [] ==> Coming(c, swap, batch, pk, inBucket, ahead, built, rest) == []
    ensures b == [] ==> Coming(c, swap, batch, pk, inBucket, ahead, built, b + rest) == Coming(c, swap, batch, pk, inBucket, ahead, built, rest)
  {
    LoopConcat(c, swap, b, rest, built);
    hide Walk;
    if b == [] { assert b + rest == rest; }
  }

  lemma {:induction false} ComingPast(c: Condition, swap: bool, batch: seq<Row>, pk: nat, ahead: seq<Row>, built: seq<Row>, rest: seq<Row>)
    requires pk < |batch| && Walk(c, swap, batch[pk], built) == []
    ensures Coming(c, swap, batch, pk, false, ahead, built, rest) == Coming(c, swap, batch, pk + 1, false, ahead, built, rest)
  {
    hide Walk;
    NextRow(c, swap, batch, pk, built);
  }

  lemma {:induction false} ComingFrom(c: Condition, swap: bool, batch: seq<Row>, pk: nat, ahead: seq<Row>, built: seq<Row>, rest: seq<Row>)
    requires pk < |batch|
    ensures Coming(c, swap, batch, pk, false, ahead, built, rest) ==
            Walk(c, swap, batch[pk], built) + Loop(c, swap, batch[pk + 1..], built) + Loop(c, swap, rest, built)
  {
  }

  lemma {:induction false} ComingIn(c: Condition, swap: bool, batch: seq<Row>, pk: nat, ahead: seq<Row>, built: seq<Row>, rest: seq<Row>)
    requires pk < |batch|
    ensures Coming(c, swap, batch, pk, true, ahead, built, rest) ==
            Walk(c, swap, batch[pk], ahead) + Loop(c, swap, batch[pk + 1..], built) + Loop(c, swap, rest, built)
  {
  }

  lemma {:induction false} ComingOut(c: Condition, swap: bool, batch: seq<Row>, pk: nat, ahead: seq<Row>, built: seq<Row>, rest: seq<Row>)
    requires pk < |batch| && Walk(c, swap, batch[pk], ahead) == []
    ensures Coming(c, swap, batch, pk, true, ahead, built, rest) == Coming(c, swap, batch, pk + 1, false, ahead, built, rest)
  {
    hide Walk;
    NextRow(c, swap, batch, pk, built);
  }

  lemma ComingOne(c: Condition, swap: bool, batch: seq<Row>, pk: nat, ahead: seq<Row>, built: seq<Row>, rest: seq<Row>)
    requires pk < |batch| && ahead != []
    ensures Coming(c, swap, batch, pk, true, ahead, built, rest) ==
            One(c, swap, batch[pk], ahead[0]) + Coming(c, swap, batch, pk, true, ahead[1..], built, rest)
  {
    hide Loop, One;
    Regroup(One(c, swap, batch[pk], ahead[0]), Walk(c, swap, batch[pk], ahead[1..]), Loop(c, swap, batch[pk + 1..], built),
            Loop(c, swap, rest, built));
  }

  /** What is to come of the probe row in hand, part way through its bucket, and of the
      rest. */
  ghost function ToCome(c: Condition, swap: bool, probing: bool, outer: Row, ahead: seq<Row>, built: seq<Row>,
                        rest: seq<Row>): seq<Row> {
    (if probing then Walk(c, swap, outer, ahead) else []) + Loop(c, swap, rest, built)
  }

  lemma {:induction false} ToComeOut(c: Condition, swap: bool, outer: Row, ahead: seq<Row>, built: seq<Row>, rest: seq<Row>)
    requires Walk(c, swap, outer, ahead) == []
    ensures ToCome(c, swap, true, outer, ahead, built, rest) == ToCome(c, swap, false, outer, ahead, built, rest)
  {
  }

  lemma ToComeOne(c: Condition, swap: bool, outer: Row, ahead: seq<Row>, built: seq<Row>, rest: seq<Row>)
    requires ahead != []
    ensures ToCome(c, swap, true, outer, ahead, built, rest) ==
            One(c, swap, outer, ahead[0]) + ToCome(c, swap, true, outer, ahead[1..], built, rest)
  {
    hide Loop, One;
    Assoc(One(c, swap, outer, ahead[0]), Walk(c, swap, outer, ahead[1..]), Loop(c, swap, rest, built));
  }

  lemma {:induction false} ToComeNext(c: Condition, swap: bool, outer: Row, ahead: seq<Row>, built: seq<Row>, rest: seq<Row>)
    ensures ToCome(c, swap, false, outer, ahead, built, rest) ==
            if rest == [] then [] else Walk(c, swap, rest[0], built) + Loop(c, swap, rest[1..], built)
  {
    hide Walk;
  }

  lemma {:induction false} ToComePast(c: Condition, swap: bool, outer: Row, ahead: seq<Row>, built: seq<Row>, rest: seq<Row>)
    ensures ToCome(c, swap, false, outer, ahead, built, rest) == [] + Loop(c, swap, rest, built)
  {
  }

  lemma {:induction false} ToComeIn(c: Condition, swap: bool, outer: Row, ahead: seq<Row>, built: seq<Row>, rest: seq<Row>)
    ensures ToCome(c, swap, true, outer, ahead, built, rest) == Walk(c, swap, outer, ahead) + Loop(c, swap, rest, built)
  {
  }

  lemma FirstHit(before: seq<Row>, hit: seq<Row>, after: seq<Row>)
    requires |hit| == 1 && before == hit + after
    ensures Yields(before, Some(hit[0]), after)
  {
  }

  lemma AheadNext(built: seq<Row>, order: seq<nat>, pos: nat, end: nat)
    requires pos < end <= |order| && order[pos] < |built|
    ensures var ahead := RowsAt(built, order[pos..end]);
            ahead != [] && ahead[0] == built[order[pos]] && ahead[1..] == RowsAt(built, order[pos + 1..end])
  {
  }

  ghost predicate Hashed(h: Hasher, keys: seq<KeyPair>, swap: bool, rows: seq<Row>, hashes: seq<nat>) {
    |hashes| == |rows| && forall k | 0 <= k < |rows| :: hashes[k] == HashOf(h, rows[k], ProbeCols(keys, swap), keys)
  }

  lemma Regroup<T>(one: seq<T>, walk: seq<T>, a: seq<T>, b: seq<T>)
    ensures (one + walk) + a + b == one + (walk + a + b)
  {
  }

  /** A probe row that has met every build row. */
  lemma NextRow(c: Condition, swap: bool, rows: seq<Row>, k: nat, built: seq<Row>)
    requires k < |rows|
    ensures Loop(c, swap, rows[k + 1..], built) ==
            if k + 1 < |rows| then Walk(c, swap, rows[k + 1], built) + Loop(c, swap, rows[k + 2..], built) else []
  {
    if k + 1 < |rows| { assert rows[k + 1..][1..] == rows[k + 2..]; }
  }

  lemma {:induction false} LoopConcat(c: Condition, swap: bool, a: seq<Row>, b: seq<Row>, others: seq<Row>)
    ensures Loop(c, swap, a + b, others) == Loop(c, swap, a, others) + Loop(c, swap, b, others)
  {
    if a == [] {
      assert a + b == b;
    } else {
      LoopConcat(c, swap, a[1..], b, others);
      assert (a + b)[1..] == a[1..] + b;
      assert Loop(c, swap, a + b, others) == Walk(c, swap, a[0], others) + Loop(c, swap, a[1..] + b, others);
      Assoc(Walk(c, swap, a[0], others), Loop(c, swap, a[1..], others), Loop(c, swap, b, others));
    }
  }
}
