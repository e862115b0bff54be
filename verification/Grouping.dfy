/** What GROUP BY means (src/operator.cpp:897-918, 965-987, src/operator.hpp:511-537). */
module GroupSpec {
  import opened Wrappers
  import opened Sequences
  import opened SqlTypes
  import opened Rows

  const INT64_MIN: int := -0x8000_0000_0000_0000
  const INT64_MAX: int := 0x7fff_ffff_ffff_ffff

  // ---- keys ----

  /** What two key fields must share to be the same: all NULLs are one. */
  datatype Part = NullPart | IntPart(i: int) | DoublePart(d: real) | TextPart(t: string)

  function PartOf(f: Field): Part {
    if f.isNull then NullPart
    else match f.ctype case Text => TextPart(f.text) case Double => DoublePart(f.f64) case _ => IntPart(f.i64)
  }

  function Parts(key: Row): (p: seq<Part>)
    ensures |p| == |key|
  {
    seq(|key|, k requires 0 <= k < |key| => PartOf(key[k]))
  }

  function Project(row: Row, cols: seq<nat>): (key: Row)
    ensures |key| == |cols|
  {
    seq(|cols|, k requires 0 <= k < |cols| => At(row, cols[k]))
  }

  function KeyParts(row: Row, cols: seq<nat>): seq<Part> { Parts(Project(row, cols)) }

  predicate SameField(a: Field, b: Field) {
    if a.isNull || b.isNull then a.isNull == b.isNull else CompareValues(a, b) == 0
  }

  /** Two fields of one column are told apart exactly by their parts. */
  lemma SameFieldIs(a: Field, b: Field)
    requires a.ctype == b.ctype
    ensures SameField(a, b) <==> PartOf(a) == PartOf(b)
  {
  }

  // ---- groups ----

  /** The position of a key among the groups, or their number. */
  function Find(keys: seq<Row>, p: seq<Part>): (g: nat)
    ensures g <= |keys| && (g < |keys| ==> Parts(keys[g]) == p)
    ensures forall j | 0 <= j < g :: Parts(keys[j]) != p
  {
    if keys == [] then 0
    else if Parts(keys[0]) == p then 0
    else
      var g := Find(keys[1..], p);
      assert forall j | 0 < j < 1 + g :: Parts(keys[j]) == Parts(keys[1..][j - 1]);
      1 + g
  }

  /** One more row: its key is a group, a new one if no row before had it. */
  function WithKey(keys: seq<Row>, key: Row): seq<Row> {
    if Find(keys, Parts(key)) < |keys| then keys else keys + [key]
  }

  /** The groups of some rows, by their first appearance. */
  function Seen(rows: seq<Row>, cols: seq<nat>): seq<Row> {
    if rows == [] then [] else WithKey(Seen(rows[..|rows| - 1], cols), Project(rows[|rows| - 1], cols))
  }

  /** With nothing to group by there is one group, even of no rows. */
  function Groups(rows: seq<Row>, cols: seq<nat>): seq<Row> { if cols == [] then [[]] else Seen(rows, cols) }

  /** The rows of a group, in order. */
  function Members(rows: seq<Row>, cols: seq<nat>, p: seq<Part>): seq<Row> {
    if rows == [] then []
    else
      var row := rows[|rows| - 1];
      Members(rows[..|rows| - 1], cols, p) + if KeyParts(row, cols) == p then [row] else []
  }

  ghost predicate Distinct(keys: seq<Row>) { forall g, h | 0 <= g < h < |keys| :: Parts(keys[g]) != Parts(keys[h]) }

  lemma {:induction false} FindOnly(keys: seq<Row>, g: nat, p: seq<Part>)
    requires Distinct(keys) && g < |keys| && Parts(keys[g]) == p
    ensures Find(keys, p) == g
  {
  }

  /** Each group once, and a group for exactly the keys the rows have. */
  lemma {:induction false} SeenMeans(rows: seq<Row>, cols: seq<nat>)
    ensures Distinct(Seen(rows, cols))
    ensures forall i | 0 <= i < |rows| :: Find(Seen(rows, cols), KeyParts(rows[i], cols)) < |Seen(rows, cols)|
    ensures forall g | 0 <= g < |Seen(rows, cols)| ::
              |Seen(rows, cols)[g]| == |cols| && Members(rows, cols, Parts(Seen(rows, cols)[g])) != []
  {
    hide Find, WithKey;
    if rows != [] {
      var n := |rows| - 1;
      var some, all, key := Seen(rows[..n], cols), Seen(rows, cols), Project(rows[n], cols);
      SeenMeans(rows[..n], cols);
      WithKeyIs(some, key);
      forall i | 0 <= i < |rows| ensures Find(all, KeyParts(rows[i], cols)) < |all| {
        FindAfter(some, key, KeyParts(rows[i], cols));
        if i < n { assert rows[..n][i] == rows[i]; }
      }
    }
  }

  lemma WithKeyIs(keys: seq<Row>, key: Row)
    ensures WithKey(keys, key) == keys || WithKey(keys, key) == keys + [key]
    ensures Distinct(keys) ==> Distinct(WithKey(keys, key))
  {
  }

  lemma {:induction false} FindAfter(keys: seq<Row>, key: Row, p: seq<Part>)
    ensures var all := WithKey(keys, key); Find(all, p) < |all| <==> Find(keys, p) < |keys| || Parts(key) == p
  {
    var all, g := WithKey(keys, key), Find(keys, p);
    if g < |keys| { assert all[g] == keys[g]; }
    if Parts(key) == p && g == |keys| { assert all[|keys|] == key; }
    assert forall h | 0 <= h < |keys| :: all[h] == keys[h];
  }

  /** A key no row has is no group's. */
  lemma {:induction false} NoMembers(rows: seq<Row>, cols: seq<nat>, p: seq<Part>)
    requires Find(Seen(rows, cols), p) == |Seen(rows, cols)|
    ensures Members(rows, cols, p) == []
  {
    hide Find, WithKey;
    if rows != [] {
      var n := |rows| - 1;
      FindAfter(Seen(rows[..n], cols), Project(rows[n], cols), p);
      NoMembers(rows[..n], cols, p);
    }
  }

  /** With nothing to group by every row is in the one group. */
  lemma {:induction false} AllMembers(rows: seq<Row>)
    ensures Members(rows, [], []) == rows
  {
    if rows != [] {
      AllMembers(rows[..|rows| - 1]);
      assert KeyParts(rows[|rows| - 1], []) == [];
    }
  }

  // ---- groups, by value ----

  /** A row has these values in these columns; NULL is a value like any other. */
  predicate HasKey(row: Row, cols: seq<nat>, key: Row) {
    |key| == |cols| && forall k | 0 <= k < |cols| :: ValueOf(At(row, cols[k])) == ValueOf(key[k])
  }

  predicate KeyTyped(types: seq<ColType>, key: Row) { |key| == |types| && forall k | 0 <= k < |key| :: key[k].isNull || key[k].ctype == types[k] }

  /** The columns grouped by have types. */
  predicate KeysTyped(types: seq<ColType>, cols: seq<nat>, rows: seq<Row>) { forall i | 0 <= i < |rows| :: KeyTyped(types, Project(rows[i], cols)) }

  lemma KeyMeans(types: seq<ColType>, row: Row, cols: seq<nat>, key: Row)
    requires KeyTyped(types, Project(row, cols)) && KeyTyped(types, key)
    ensures KeyParts(row, cols) == Parts(key) <==> HasKey(row, cols, key)
  {
    var own := Project(row, cols);
    if KeyParts(row, cols) == Parts(key) {
      forall k | 0 <= k < |cols| ensures ValueOf(own[k]) == ValueOf(key[k]) { assert Parts(own)[k] == Parts(key)[k]; }
    }
    if HasKey(row, cols, key) {
      forall k | 0 <= k < |cols| ensures Parts(own)[k] == Parts(key)[k] { assert ValueOf(At(row, cols[k])) == ValueOf(key[k]); }
    }
  }

  /** Group `g`'s key is that of row `at[g]`, the first row to have it; every row has the
      key of some group. */
  ghost predicate FirstsAt(rows: seq<Row>, cols: seq<nat>, keys: seq<Row>, at: seq<nat>) {
    && |at| == |keys| && Ascend(at)
    && (forall g | 0 <= g < |keys| :: FirstWith(rows, cols, keys[g], at[g]))
    && (forall i | 0 <= i < |rows| :: HasSome(rows[i], cols, keys))
  }

  predicate FirstWith(rows: seq<Row>, cols: seq<nat>, key: Row, n: nat) {
    n < |rows| && key == Project(rows[n], cols) && forall i | 0 <= i < n :: !HasKey(rows[i], cols, key)
  }

  ghost predicate HasSome(row: Row, cols: seq<nat>, keys: seq<Row>) { exists g :: 0 <= g < |keys| && HasKey(row, cols, keys[g]) }

  /** The different keys of the rows are by first appearance. */
  lemma {:induction false} SeenFirsts(types: seq<ColType>, rows: seq<Row>, cols: seq<nat>) returns (at: seq<nat>)
    requires KeysTyped(types, cols, rows)
    ensures FirstsAt(rows, cols, Seen(rows, cols), at)
  {
    hide HasKey, KeyTyped, Parts, FirstsAt, Find, FirstWith, Project;
    if rows == [] {
      NoFirsts(cols);
      at := [];
    } else {
      var n := |rows| - 1;
      var before, key, some := rows[..n], Project(rows[n], cols), Seen(rows[..n], cols);
      assert forall i | 0 <= i < n :: before[i] == rows[i];
      at := SeenFirsts(types, before, cols);
      KnownKey(types, rows, cols, some, at);
      if Find(some, Parts(key)) < |some| {
        FirstsOld(rows, cols, some, at);
      } else {
        FirstsNew(rows, cols, some, at);
        at := at + [n];
      }
    }
  }

  lemma NoFirsts(cols: seq<nat>) ensures FirstsAt([], cols, [], []) {}

  /** Whether the last row's key is there already. */
  lemma {:induction false} KnownKey(types: seq<ColType>, rows: seq<Row>, cols: seq<nat>, keys: seq<Row>, at: seq<nat>)
    requires rows != [] && KeysTyped(types, cols, rows) && FirstsAt(rows[..|rows| - 1], cols, keys, at)
    ensures Find(keys, Parts(Project(rows[|rows| - 1], cols))) < |keys| <==> HasSome(rows[|rows| - 1], cols, keys)
  {
    var n := |rows| - 1;
    hide HasKey, KeyTyped, Parts, Project;
    forall g | 0 <= g < |keys| ensures KeyParts(rows[n], cols) == Parts(keys[g]) <==> HasKey(rows[n], cols, keys[g]) {
      assert FirstWith(rows[..n], cols, keys[g], at[g]);
      assert rows[..n][at[g]] == rows[at[g]];
      KeyMeans(types, rows[n], cols, keys[g]);
    }
  }

  lemma SameKeyed(a: Row, b: Row, cols: seq<nat>, key: Row)
    requires HasKey(a, cols, key) && !HasKey(b, cols, key)
    ensures !HasKey(a, cols, Project(b, cols))
  {
    if HasKey(a, cols, Project(b, cols)) {
      forall k | 0 <= k < |cols| ensures ValueOf(At(b, cols[k])) == ValueOf(key[k]) {
        assert ValueOf(At(a, cols[k])) == ValueOf(Project(b, cols)[k]);
      }
    }
  }

  lemma StillFirst(rows: seq<Row>, m: nat, cols: seq<nat>, key: Row, n: nat)
    requires m <= |rows| && FirstWith(rows[..m], cols, key, n)
    ensures FirstWith(rows, cols, key, n)
  {
    hide HasKey, Project;
    assert forall i | 0 <= i <= n :: rows[..m][i] == rows[i];
  }

  lemma FirstsOld(rows: seq<Row>, cols: seq<nat>, keys: seq<Row>, at: seq<nat>)
    requires rows != [] && FirstsAt(rows[..|rows| - 1], cols, keys, at) && HasSome(rows[|rows| - 1], cols, keys)
    ensures FirstsAt(rows, cols, keys, at)
  {
    hide HasSome, FirstWith;
    var n := |rows| - 1;
    forall g | 0 <= g < |keys| ensures FirstWith(rows, cols, keys[g], at[g]) { StillFirst(rows, n, cols, keys[g], at[g]); }
    forall i | 0 <= i < |rows| ensures HasSome(rows[i], cols, keys) { if i < n { assert rows[..n][i] == rows[i]; } }
  }

  lemma FirstsNew(rows: seq<Row>, cols: seq<nat>, keys: seq<Row>, at: seq<nat>)
    requires rows != [] && FirstsAt(rows[..|rows| - 1], cols, keys, at) && !HasSome(rows[|rows| - 1], cols, keys)
    ensures FirstsAt(rows, cols, keys + [Project(rows[|rows| - 1], cols)], at + [|rows| - 1])
  {
    var n := |rows| - 1;
    var key := Project(rows[n], cols);
    var all, more: seq<nat> := keys + [key], at + [n];
    HasOwn(rows[n], cols, all, |keys|);
    hide HasSome, FirstWith, HasKey, Project;
    forall i | 0 <= i < |rows| ensures HasSome(rows[i], cols, all) {
      if i < n { assert rows[..n][i] == rows[i]; HasMore(rows[i], cols, keys, key); }
    }
    forall i | 0 <= i < n ensures !HasKey(rows[i], cols, key) {
      assert rows[..n][i] == rows[i];
      NewToRow(rows[i], rows[n], cols, keys);
    }
    IsFirst(rows, cols, n);
    forall g | 0 <= g < |all| ensures FirstWith(rows, cols, all[g], more[g]) {
      if g < |keys| { StillFirst(rows, n, cols, keys[g], at[g]); }
    }
  }

  lemma IsFirst(rows: seq<Row>, cols: seq<nat>, n: nat)
    requires n < |rows| && forall i | 0 <= i < n :: !HasKey(rows[i], cols, Project(rows[n], cols))
    ensures FirstWith(rows, cols, Project(rows[n], cols), n)
  {
  }

  lemma HasOwn(row: Row, cols: seq<nat>, keys: seq<Row>, g: nat)
    requires g < |keys| && keys[g] == Project(row, cols)
    ensures HasSome(row, cols, keys)
  {
    assert HasKey(row, cols, keys[g]);
  }

  lemma HasMore(row: Row, cols: seq<nat>, keys: seq<Row>, key: Row)
    requires HasSome(row, cols, keys)
    ensures HasSome(row, cols, keys + [key])
  {
    var g :| 0 <= g < |keys| && HasKey(row, cols, keys[g]);
    assert (keys + [key])[g] == keys[g];
  }

  lemma NewToRow(a: Row, b: Row, cols: seq<nat>, keys: seq<Row>)
    requires HasSome(a, cols, keys) && !HasSome(b, cols, keys)
    ensures !HasKey(a, cols, Project(b, cols))
  {
    var g :| 0 <= g < |keys| && HasKey(a, cols, keys[g]);
    SameKeyed(a, b, cols, keys[g]);
  }

  /** So the groups are; and with nothing to group by there is one, even of no rows. */
  lemma GroupsMean(types: seq<ColType>, rows: seq<Row>, cols: seq<nat>) returns (at: seq<nat>)
    requires KeysTyped(types, cols, rows)
    ensures if cols == [] then Groups(rows, cols) == [[]] else FirstsAt(rows, cols, Groups(rows, cols), at)
  {
    hide Seen, FirstsAt;
    at := SeenFirsts(types, rows, cols);
  }

  /** The rows of a group are those with its key, in order. */
  lemma {:induction false} MembersMean(types: seq<ColType>, rows: seq<Row>, cols: seq<nat>, key: Row)
    requires KeysTyped(types, cols, rows) && KeyTyped(types, key)
    ensures Picks(row => HasKey(row, cols, key), rows, Members(rows, cols, Parts(key)))
  {
    var f := row => HasKey(row, cols, key);
    if rows == [] {
      PicksNone(f);
    } else {
      var n := |rows| - 1;
      assert forall i | 0 <= i < n :: rows[..n][i] == rows[i];
      MembersMean(types, rows[..n], cols, key);
      KeyMeans(types, rows[n], cols, key);
      PicksNext(f, rows[..n], Members(rows[..n], cols, Parts(key)), rows[n]);
      assert rows[..n] + [rows[n]] == rows;
    }
  }

  // ---- aggregates ----

  datatype AggFunc = Count | Sum | Avg | Min | Max

  datatype AggSpec = AggSpec(func: AggFunc, star: bool, col: nat, ctype: ColType)

  datatype AggState = AggState(count: nat, sum: int, best: Field)

  function Start(a: AggSpec): AggState { AggState(0, 0, Field(a.ctype, true, 0, 0.0, "")) }

  /** One value more; None for an integer overflow. */
  function Update(a: AggSpec, s: AggState, v: Field): Option<AggState> {
    if a.star then Some(s.(count := s.count + 1))
    else if v.isNull then Some(s)
    else
      match a.func
      case Count => Some(s.(count := s.count + 1))
      case Sum => AddUp(s, v)
      case Avg => AddUp(s, v)
      case Min => Some(AggState(s.count + 1, s.sum, if s.count == 0 || CompareValues(v, s.best) < 0 then v else s.best))
      case Max => Some(AggState(s.count + 1, s.sum, if s.count == 0 || CompareValues(v, s.best) > 0 then v else s.best))
  }

  function AddUp(s: AggState, v: Field): Option<AggState> {
    if INT64_MIN <= s.sum + v.i64 <= INT64_MAX then Some(AggState(s.count + 1, s.sum + v.i64, s.best)) else None
  }

  /** An aggregate over some rows, first to last. */
  function Fold(a: AggSpec, rows: seq<Row>): Option<AggState> {
    if rows == [] then Some(Start(a))
    else
      match Fold(a, rows[..|rows| - 1])
      case None => None
      case Some(s) => Update(a, s, At(rows[|rows| - 1], a.col))
  }

  /** An overflow is final. */
  lemma {:induction false} FoldFails(a: AggSpec, rows: seq<Row>, n: nat)
    requires n <= |rows| && Fold(a, rows[..n]) == None
    ensures Fold(a, rows) == None
  {
    if n == |rows| {
      assert rows[..n] == rows;
    } else {
      assert rows[..|rows| - 1][..n] == rows[..n];
      FoldFails(a, rows[..|rows| - 1], n);
    }
  }

  /** The values an aggregate takes. */
  function Values(a: AggSpec, rows: seq<Row>): seq<Field> {
    if rows == [] then []
    else
      var v := At(rows[|rows| - 1], a.col);
      Values(a, rows[..|rows| - 1]) + if a.star || !v.isNull then [v] else []
  }

  function ColumnOf(rows: seq<Row>, col: nat): (c: seq<Field>)
    ensures |c| == |rows|
  {
    seq(|rows|, i requires 0 <= i < |rows| => At(rows[i], col))
  }

  /** They are the column's, without the NULLs unless whole rows are counted. */
  lemma {:induction false} ValuesMean(a: AggSpec, rows: seq<Row>)
    ensures Picks((v: Field) => a.star || !v.isNull, ColumnOf(rows, a.col), Values(a, rows))
  {
    var f := (v: Field) => a.star || !v.isNull;
    if rows == [] {
      PicksNone(f);
    } else {
      var n := |rows| - 1;
      ValuesMean(a, rows[..n]);
      PicksNext(f, ColumnOf(rows[..n], a.col), Values(a, rows[..n]), At(rows[n], a.col));
      assert ColumnOf(rows[..n], a.col) + [At(rows[n], a.col)] == ColumnOf(rows, a.col);
    }
  }

  function Total(vs: seq<Field>): int { if vs == [] then 0 else Total(vs[..|vs| - 1]) + vs[|vs| - 1].i64 }

  predicate Sums(a: AggSpec) { !a.star && (a.func == Sum || a.func == Avg) }

  predicate Extremes(a: AggSpec) { !a.star && (a.func == Min || a.func == Max) }

  ghost predicate InRange(vs: seq<Field>) { forall n | 0 <= n <= |vs| :: INT64_MIN <= Total(vs[..n]) <= INT64_MAX }

  ghost predicate FoldIs(a: AggSpec, f: Option<AggState>, vs: seq<Field>) {
    && (f.None? <==> Sums(a) && !InRange(vs))
    && (f.Some? ==> f.value.count == |vs| && (Sums(a) ==> f.value.sum == Total(vs)))
  }

  /** What a fold is: COUNT counts the values, SUM adds them and fails exactly when some
      running total leaves 64 bits. */
  lemma {:induction false} FoldMeans(a: AggSpec, rows: seq<Row>)
    ensures Fold(a, rows).None? <==> Sums(a) && !InRange(Values(a, rows))
    ensures Fold(a, rows).Some? ==> Fold(a, rows).value.count == |Values(a, rows)|
    ensures Fold(a, rows).Some? && Sums(a) ==> Fold(a, rows).value.sum == Total(Values(a, rows))
  {
    hide InRange, Total, Update;
    if rows == [] {
      NothingTotals();
    } else {
      var before, v := Values(a, rows[..|rows| - 1]), At(rows[|rows| - 1], a.col);
      FoldMeans(a, rows[..|rows| - 1]);
      FoldStep(a, Fold(a, rows[..|rows| - 1]), before, v);
      if !a.star && v.isNull { assert Values(a, rows) == before; }
    }
  }

  lemma NothingTotals()
    ensures InRange([]) && Total([]) == 0
  {
    assert forall n, vs: seq<Field> | 0 <= n <= |vs| && vs == [] :: vs[..n] == [];
  }

  lemma FoldStep(a: AggSpec, f: Option<AggState>, vs: seq<Field>, v: Field)
    requires FoldIs(a, f, vs)
    ensures FoldIs(a, if f.None? then None else Update(a, f.value, v), if a.star || !v.isNull then vs + [v] else vs)
  {
    hide InRange, Total;
    RangeStep(vs, v);
  }

  lemma {:induction false} RangeStep(before: seq<Field>, v: Field)
    ensures Total(before + [v]) == Total(before) + v.i64
    ensures InRange(before + [v]) <==> InRange(before) && INT64_MIN <= Total(before + [v]) <= INT64_MAX
  {
    var all := before + [v];
    assert all[..|before|] == before && all[..|all|] == all;
    assert forall n | 0 <= n <= |before| :: all[..n] == before[..n];
    if InRange(all) {
      forall n | 0 <= n <= |before| ensures INT64_MIN <= Total(before[..n]) <= INT64_MAX { assert all[..n] == before[..n]; }
    }
  }

  /** Of two values, the first is kept unless the second is better. */
  predicate NoWorse(a: AggSpec, best: Field, v: Field) {
    if a.func == Min then CompareValues(best, v) <= 0 else CompareValues(best, v) >= 0
  }

  /** MIN and MAX: a value the group has, none of its values better; NULL for none. */
  lemma {:induction false} BestMeans(a: AggSpec, rows: seq<Row>)
    requires Extremes(a) && forall i | 0 <= i < |rows| :: At(rows[i], a.col).ctype == a.ctype
    ensures Fold(a, rows).Some?
    ensures var best, vs := Fold(a, rows).value.best, Values(a, rows);
            if vs == [] then best.isNull else best in vs && best.ctype == a.ctype && forall v | v in vs :: v.ctype == a.ctype && NoWorse(a, best, v)
  {
    FoldMeans(a, rows);
    if rows != [] {
      var n := |rows| - 1;
      FoldMeans(a, rows[..n]);
      assert forall i | 0 <= i < n :: rows[..n][i] == rows[i];
      BestMeans(a, rows[..n]);
      var before, all, v := Values(a, rows[..n]), Values(a, rows), At(rows[n], a.col);
      var was, best := Fold(a, rows[..n]).value.best, Fold(a, rows).value.best;
      if !v.isNull && before != [] {
        ValuesOpposite(v, was);
        ValuesOpposite(v, v);
        forall w | w in all ensures w.ctype == a.ctype && NoWorse(a, best, w) {
          if w in before {
            ValuesOpposite(w, was);
            ValuesOpposite(w, v);
            if a.func == Min && CompareValues(v, was) < 0 { ValuesTransitive(v, was, w); }
            if a.func == Max && CompareValues(v, was) > 0 { ValuesTransitive(w, was, v); }
          }
        }
      } else if !v.isNull {
        ValuesOpposite(v, v);
        assert all == [v];
      }
    }
  }

  // ---- answers ----

  /** A group's answer: over no values COUNT is 0 and every other aggregate is NULL. */
  function AggResult(a: AggSpec, s: AggState, divide: (int, int) -> real): Field {
    match a.func
    case Count => Field(Int64, false, s.count, 0.0, "")
    case Sum => if s.count != 0 then Field(Int64, false, s.sum, 0.0, "") else Field(Int64, true, 0, 0.0, "")
    case Avg => if s.count != 0 then Field(Double, false, 0, divide(s.sum, s.count), "") else Field(Double, true, 0, 0.0, "")
    case _ => if s.count != 0 then s.best else Field(a.ctype, true, 0, 0.0, "")
  }

  function Results(aggs: seq<AggSpec>, states: seq<AggState>, divide: (int, int) -> real): (r: Row)
    requires |states| == |aggs|
    ensures |r| == |aggs|
  {
    seq(|aggs|, a requires 0 <= a < |aggs| => AggResult(aggs[a], states[a], divide))
  }

  datatype Query = Query(cols: seq<nat>, aggs: seq<AggSpec>, divide: (int, int) -> real)

  /** Some sum of some group leaves 64 bits. */
  ghost predicate Overflows(q: Query, rows: seq<Row>) {
    exists g, a | 0 <= g < |Groups(rows, q.cols)| && 0 <= a < |q.aggs| :: GroupFold(q, rows, Groups(rows, q.cols)[g], a).None?
  }

  function GroupFold(q: Query, rows: seq<Row>, key: Row, a: nat): Option<AggState>
    requires a < |q.aggs|
  {
    Fold(q.aggs[a], Members(rows, q.cols, Parts(key)))
  }

  /** The row of group `g`: its key, then each aggregate's result. */
  function Answer(q: Query, rows: seq<Row>, g: nat): Row
    requires g < |Groups(rows, q.cols)|
  {
    var key := Groups(rows, q.cols)[g];
    key + seq(|q.aggs|, a requires 0 <= a < |q.aggs| =>
                match GroupFold(q, rows, key, a) case None => NULL_FIELD case Some(s) => AggResult(q.aggs[a], s, q.divide))
  }

  /** What an aggregate answers of the values it takes: COUNT their number, SUM their sum,
      AVG the sum divided by the number, MIN and MAX one of them than which none is less, or
      greater. Over none, COUNT is 0 and the others NULL. */
  ghost predicate IsAnswer(a: AggSpec, divide: (int, int) -> real, vs: seq<Field>, f: Field) {
    match a.func
    case Count => f.ctype.Int64? && ValueOf(f) == Number(|vs| as real)
    case Sum => f.ctype.Int64? && ValueOf(f) == if vs == [] then Null else Number(Total(vs) as real)
    case Avg => f.ctype.Double? && ValueOf(f) == if vs == [] then Null else Number(divide(Total(vs), |vs|))
    case Min => f.ctype == a.ctype && if vs == [] then f.isNull else f in vs && forall v | v in vs :: !Less(ValueOf(v), ValueOf(f))
    case Max => f.ctype == a.ctype && if vs == [] then f.isNull else f in vs && forall v | v in vs :: !Less(ValueOf(f), ValueOf(v))
  }

  /** The row of a group: its key's fields, then for each aggregate the answer of the values
      it takes from the group's rows. */
  lemma {:induction false} AnswerMeans(q: Query, rows: seq<Row>, g: nat, a: nat)
    requires g < |Groups(rows, q.cols)| && a < |q.aggs| && !Overflows(q, rows)
    requires var s := q.aggs[a]; (s.star ==> s.func == Count) && forall i | 0 <= i < |rows| :: At(rows[i], s.col).ctype == s.ctype
    ensures |Groups(rows, q.cols)[g]| == |q.cols| && |Answer(q, rows, g)| == |q.cols| + |q.aggs|
    ensures Answer(q, rows, g)[..|q.cols|] == Groups(rows, q.cols)[g]
    ensures var members := Members(rows, q.cols, Parts(Groups(rows, q.cols)[g]));
            IsAnswer(q.aggs[a], q.divide, Values(q.aggs[a], members), Answer(q, rows, g)[|q.cols| + a])
  {
    var s, key := q.aggs[a], Groups(rows, q.cols)[g];
    SeenMeans(rows, q.cols);
    var members := Members(rows, q.cols, Parts(key));
    forall i | 0 <= i < |members| ensures At(members[i], s.col).ctype == s.ctype { MembersAre(rows, q.cols, Parts(key)); assert members[i] in members; }
    assert GroupFold(q, rows, key, a).Some?;
    hide Members, Fold, Seen, Values, IsAnswer, AggResult;
    FoldAnswers(s, q.divide, members);
  }

  lemma {:induction false} FoldAnswers(a: AggSpec, divide: (int, int) -> real, rows: seq<Row>)
    requires (a.star ==> a.func == Count) && Fold(a, rows).Some? && forall i | 0 <= i < |rows| :: At(rows[i], a.col).ctype == a.ctype
    ensures IsAnswer(a, divide, Values(a, rows), AggResult(a, Fold(a, rows).value, divide))
  {
    FoldMeans(a, rows);
    if Extremes(a) {
      BestMeans(a, rows);
      var best, vs := Fold(a, rows).value.best, Values(a, rows);
      forall v | v in vs ensures a.func == Min ==> !Less(ValueOf(v), ValueOf(best)) ensures a.func == Max ==> !Less(ValueOf(best), ValueOf(v)) {
        ValuesThere(a, rows, v);
        ValuesThere(a, rows, best);
        CompareMeans(best, v, best.ctype.Text?, best.ctype.Double? || v.ctype.Double?);
      }
    }
    hide Fold, Values, Less;
  }

  lemma {:induction false} MembersAre(rows: seq<Row>, cols: seq<nat>, p: seq<Part>)
    ensures forall row | row in Members(rows, cols, p) :: row in rows
  {
    if rows != [] {
      MembersAre(rows[..|rows| - 1], cols, p);
      assert rows == rows[..|rows| - 1] + [rows[|rows| - 1]];
    }
  }

  lemma {:induction false} ValuesThere(a: AggSpec, rows: seq<Row>, v: Field)
    requires v in Values(a, rows) && !a.star
    ensures !v.isNull
  {
    if rows != [] && v in Values(a, rows[..|rows| - 1]) { ValuesThere(a, rows[..|rows| - 1], v); }
  }

  /** A query fails exactly when some running total of some sum leaves 64 bits. */
  lemma OverflowsMeans(q: Query, rows: seq<Row>)
    ensures Overflows(q, rows) <==> exists g, a :: TotalLeaves(q, rows, g, a)
  {
    forall g, a | 0 <= g < |Groups(rows, q.cols)| && 0 <= a < |q.aggs|
      ensures GroupFold(q, rows, Groups(rows, q.cols)[g], a).None? <==> TotalLeaves(q, rows, g, a)
    {
      FoldMeans(q.aggs[a], Members(rows, q.cols, Parts(Groups(rows, q.cols)[g])));
    }
    if g, a :| TotalLeaves(q, rows, g, a) { assert GroupFold(q, rows, Groups(rows, q.cols)[g], a).None?; }
  }

  ghost predicate TotalLeaves(q: Query, rows: seq<Row>, g: int, a: int) {
    && 0 <= g < |Groups(rows, q.cols)| && 0 <= a < |q.aggs| && Sums(q.aggs[a])
    && !InRange(Values(q.aggs[a], Members(rows, q.cols, Parts(Groups(rows, q.cols)[g]))))
  }

  /** An overflow on some of the rows is one on all. */
  lemma {:induction false} EarlyOverflow(q: Query, rows: seq<Row>, n: nat, key: Row, a: nat)
    requires n <= |rows| && a < |q.aggs| && GroupFold(q, rows[..n], key, a).None?
    ensures GroupFold(q, rows, key, a).None?
    decreases |rows|
  {
    if n == |rows| {
      assert rows[..n] == rows;
    } else {
      var m := |rows| - 1;
      assert rows[..m][..n] == rows[..n];
      EarlyOverflow(q, rows[..m], n, key, a);
      var before, all := Members(rows[..m], q.cols, Parts(key)), Members(rows, q.cols, Parts(key));
      assert all[..|before|] == before;
      FoldFails(q.aggs[a], all, |before|);
    }
  }

  /** A group of some of the rows is one of all of them. */
  lemma {:induction false} GroupStays(rows: seq<Row>, cols: seq<nat>, n: nat)
    requires n <= |rows|
    ensures Groups(rows[..n], cols) <= Groups(rows, cols)
    decreases |rows|
  {
    if n == |rows| {
      assert rows[..n] == rows;
    } else {
      assert rows[..|rows| - 1][..n] == rows[..n];
      GroupStays(rows[..|rows| - 1], cols, n);
    }
  }

  /** An overflow after `n` rows in a group there is after `m`. */
  lemma OverflowFound(q: Query, rows: seq<Row>, n: nat, m: nat, g: nat, a: nat)
    requires n <= m <= |rows| && a < |q.aggs| && g < |Groups(rows[..m], q.cols)|
    requires GroupFold(q, rows[..n], Groups(rows[..m], q.cols)[g], a).None?
    ensures Overflows(q, rows)
  {
    GroupStays(rows, q.cols, m);
    assert Groups(rows, q.cols)[g] == Groups(rows[..m], q.cols)[g];
    EarlyOverflow(q, rows, n, Groups(rows[..m], q.cols)[g], a);
  }
}
