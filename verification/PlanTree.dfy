/** What a tree of operators yields (src/operator.hpp, src/catalog.cpp:295-477). The
    order in which an index other than the key's yields its rows is not spoken of. */
module PlanTree {
  import opened Wrappers
  import opened Sequences
  import opened Rows
  import opened Batches
  import opened JoinSpec
  import opened IndexKeys
  import opened PlanScope

  /** A table: its columns under its label, its rows in key order, and for each column
      with an index the rows in the order its index has them. */
  datatype Table = Table(schema: seq<OutColumn>, rows: seq<Row>, index: seq<Option<seq<Row>>>)

  datatype Node =
    | SeqScan(t: nat)
    | IndexLookup(t: nat, key: int)
    | IndexScan(t: nat, col: nat, lo: nat, hi: nat)
    | Filter(input: Node, preds: seq<Comparison>)
    | NestedLoop(left: Node, right: Node, on: seq<Comparison>, nleft: nat)
    | Hash(left: Node, right: Node, keys: seq<KeyPair>, residual: seq<Comparison>, nleft: nat, buildLeft: bool)
    | IndexJoin(outer: Node, t: nat, probe: Probe)

  /** How an index join searches: by which column of an outer row, through the index on
      which column of the table, and what it checks on each row found. */
  datatype Probe = Probe(outerCol: nat, innerCol: nat, isText: bool, innerFilter: seq<Comparison>, residual: seq<Comparison>, innerFirst: bool)

  function RowsOf(db: seq<Table>, t: nat): seq<Row> { if t < |db| then db[t].rows else [] }

  function Entries(db: seq<Table>, t: nat, col: nat): seq<Row> {
    if t < |db| && col < |db[t].index| && db[t].index[col].Some? then db[t].index[col].value else []
  }

  /** The rows that satisfy a test, in order. */
  function Where(f: Row -> bool, rows: seq<Row>): seq<Row> {
    if rows == [] then [] else (if f(rows[0]) then [rows[0]] else []) + Where(f, rows[1..])
  }

  /** The rows an index holds under a range of keys; it holds no NULL. */
  predicate Indexed(row: Row, col: nat, lo: nat, hi: nat) { !At(row, col).isNull && lo <= IndexKey(At(row, col)) <= hi }

  function InRange(rows: seq<Row>, col: nat, lo: nat, hi: nat): seq<Row> { Where(row => Indexed(row, col, lo, hi), rows) }

  function WithKey(rows: seq<Row>, key: int): seq<Row> { Where(row => !At(row, 0).isNull && At(row, 0).i64 == key, rows) }

  predicate Found(p: Probe, outer: Row, inner: Row) {
    var k := At(outer, p.outerCol);
    && !k.isNull && Indexed(inner, p.innerCol, IndexKey(k), IndexKey(k))
    && (p.isText ==> At(inner, p.innerCol).text == k.text)
    && Passes(p.innerFilter, inner)
    && Passes(p.residual, if p.innerFirst then inner + outer else outer + inner)
  }

  function Hit(p: Probe, outer: Row, inner: Row): seq<Row> {
    if Found(p, outer, inner) then [if p.innerFirst then inner + outer else outer + inner] else []
  }

  function Search(p: Probe, outer: Row, rows: seq<Row>): seq<Row> {
    if rows == [] then [] else Hit(p, outer, rows[0]) + Search(p, outer, rows[1..])
  }

  function SearchAll(p: Probe, outers: seq<Row>, rows: seq<Row>): seq<Row> {
    if outers == [] then [] else Search(p, outers[0], rows) + SearchAll(p, outers[1..], rows)
  }

  function Run(db: seq<Table>, n: Node): seq<Row> {
    match n
    case SeqScan(t) => RowsOf(db, t)
    case IndexLookup(t, key) => WithKey(RowsOf(db, t), key)
    case IndexScan(t, col, lo, hi) => InRange(Entries(db, t, col), col, lo, hi)
    case Filter(input, preds) => Kept(preds, Run(db, input))
    case NestedLoop(l, r, on, nleft) => Loop(Terms(on, nleft), false, Run(db, l), Run(db, r))
    case Hash(l, r, keys, residual, nleft, buildLeft) =>
      if buildLeft then Loop(Keyed(keys, residual, nleft), true, Run(db, r), Run(db, l))
      else Loop(Keyed(keys, residual, nleft), false, Run(db, l), Run(db, r))
    case IndexJoin(outer, t, probe) => SearchAll(probe, Run(db, outer), Entries(db, t, probe.innerCol))
  }

  /** Every row of one table with every row of the next, and so on. */
  function Cross(tables: seq<Table>): seq<Row> {
    if tables == [] then [[]]
    else if |tables| == 1 then tables[0].rows
    else Loop(Terms([], 0), false, Cross(tables[..|tables| - 1]), tables[|tables| - 1].rows)
  }

  predicate Wide(rows: seq<Row>, n: nat) { forall i | 0 <= i < |rows| :: |rows[i]| == n }

  // ---- bags ----

  /** What every row gives, one after another. */
  function Flat(f: Row -> seq<Row>, rows: seq<Row>): seq<Row> { if rows == [] then [] else f(rows[0]) + Flat(f, rows[1..]) }

  lemma {:induction false} FlatConcat(f: Row -> seq<Row>, a: seq<Row>, b: seq<Row>)
    ensures Flat(f, a + b) == Flat(f, a) + Flat(f, b)
  {
    if a == [] {
      assert a + b == b;
    } else {
      FlatConcat(f, a[1..], b);
      assert (a + b)[1..] == a[1..] + b;
      Assoc(f(a[0]), Flat(f, a[1..]), Flat(f, b));
    }
  }

  /** One row less. */
  lemma {:induction false} FlatWithout(f: Row -> seq<Row>, b: seq<Row>, j: nat)
    requires j < |b|
    ensures multiset(Flat(f, b)) == multiset(Flat(f, [b[j]])) + multiset(Flat(f, b[..j] + b[j + 1..]))
  {
    hide Flat;
    assert b == b[..j] + ([b[j]] + b[j + 1..]);
    FlatConcat(f, b[..j], [b[j]] + b[j + 1..]);
    FlatConcat(f, [b[j]], b[j + 1..]);
    FlatConcat(f, b[..j], b[j + 1..]);
  }

  /** The same bag of rows gives the same bag. */
  lemma {:induction false} FlatBag(f: Row -> seq<Row>, a: seq<Row>, b: seq<Row>)
    requires multiset(a) == multiset(b)
    ensures multiset(Flat(f, a)) == multiset(Flat(f, b))
  {
    hide Flat;
    if a == [] {
      NoneInBag(b);
    } else {
      var j := FindRow(a[0], a, b);
      var rest := b[..j] + b[j + 1..];
      Removed(a, b, j);
      FlatBag(f, a[1..], rest);
      FlatWithout(f, b, j);
      FlatWithout(f, a, 0);
      assert a[..0] + a[1..] == a[1..];
    }
  }

  lemma {:induction false} FlatSame(f: Row -> seq<Row>, g: Row -> seq<Row>, rows: seq<Row>)
    requires forall i | 0 <= i < |rows| :: multiset(f(rows[i])) == multiset(g(rows[i]))
    ensures multiset(Flat(f, rows)) == multiset(Flat(g, rows))
  {
    if rows != [] {
      assert forall i | 0 <= i < |rows[1..]| :: rows[1..][i] == rows[i + 1];
      FlatSame(f, g, rows[1..]);
    }
  }

  lemma {:induction false} LoopIsFlat(c: Condition, swap: bool, probes: seq<Row>, others: seq<Row>)
    ensures Loop(c, swap, probes, others) == Flat(p => Walk(c, swap, p, others), probes)
  {
    if probes != [] { LoopIsFlat(c, swap, probes[1..], others); }
  }

  lemma {:induction false} WalkIsFlat(c: Condition, swap: bool, probe: Row, others: seq<Row>)
    ensures Walk(c, swap, probe, others) == Flat(o => One(c, swap, probe, o), others)
  {
    if others != [] { WalkIsFlat(c, swap, probe, others[1..]); }
  }

  lemma {:induction false} SearchIsFlat(p: Probe, outer: Row, rows: seq<Row>)
    ensures Search(p, outer, rows) == Flat(r => Hit(p, outer, r), rows)
  {
    if rows != [] { SearchIsFlat(p, outer, rows[1..]); }
  }

  lemma {:induction false} SearchAllIsFlat(p: Probe, outers: seq<Row>, rows: seq<Row>)
    ensures SearchAll(p, outers, rows) == Flat(o => Search(p, o, rows), outers)
  {
    if outers != [] { SearchAllIsFlat(p, outers[1..], rows); }
  }

  lemma {:induction false} WhereIsFlat(f: Row -> bool, rows: seq<Row>)
    ensures Where(f, rows) == Flat(r => if f(r) then [r] else [], rows)
  {
    if rows != [] { WhereIsFlat(f, rows[1..]); }
  }

  lemma {:induction false} WhereBag(f: Row -> bool, a: seq<Row>, b: seq<Row>)
    requires multiset(a) == multiset(b)
    ensures multiset(Where(f, a)) == multiset(Where(f, b))
  {
    WhereIsFlat(f, a);
    WhereIsFlat(f, b);
    FlatBag(r => if f(r) then [r] else [], a, b);
  }

  /** The same bag of rows on the driving side gives the same bag of joined rows. */
  lemma {:induction false} LoopBag(c: Condition, swap: bool, a: seq<Row>, b: seq<Row>, others: seq<Row>)
    requires multiset(a) == multiset(b)
    ensures multiset(Loop(c, swap, a, others)) == multiset(Loop(c, swap, b, others))
  {
    LoopIsFlat(c, swap, a, others);
    LoopIsFlat(c, swap, b, others);
    FlatBag(p => Walk(c, swap, p, others), a, b);
  }

  /** And so does the same bag on the other side. */
  lemma {:induction false} LoopBagOthers(c: Condition, swap: bool, probes: seq<Row>, a: seq<Row>, b: seq<Row>)
    requires multiset(a) == multiset(b)
    ensures multiset(Loop(c, swap, probes, a)) == multiset(Loop(c, swap, probes, b))
  {
    LoopIsFlat(c, swap, probes, a);
    LoopIsFlat(c, swap, probes, b);
    forall i | 0 <= i < |probes| ensures multiset(Walk(c, swap, probes[i], a)) == multiset(Walk(c, swap, probes[i], b)) {
      WalkIsFlat(c, swap, probes[i], a);
      WalkIsFlat(c, swap, probes[i], b);
      FlatBag(o => One(c, swap, probes[i], o), a, b);
    }
    FlatSame(p => Walk(c, swap, p, a), p => Walk(c, swap, p, b), probes);
  }

  /** A search through the index finds what one of the rows would. */
  lemma {:induction false} SearchEntries(p: Probe, outers: seq<Row>, entries: seq<Row>, rows: seq<Row>)
    requires multiset(entries) == multiset(InRange(rows, p.innerCol, 0, LAST_KEY))
    requires forall i | 0 <= i < |rows| :: Held(rows[i], p.innerCol)
    ensures multiset(SearchAll(p, outers, entries)) == multiset(SearchAll(p, outers, rows))
  {
    SearchAllIsFlat(p, outers, entries);
    SearchAllIsFlat(p, outers, rows);
    forall i | 0 <= i < |outers| ensures multiset(Search(p, outers[i], entries)) == multiset(Search(p, outers[i], rows)) {
      var held := InRange(rows, p.innerCol, 0, LAST_KEY);
      SearchIsFlat(p, outers[i], entries);
      SearchIsFlat(p, outers[i], held);
      FlatBag(r => Hit(p, outers[i], r), entries, held);
      SearchHeld(p, outers[i], rows);
    }
    FlatSame(o => Search(p, o, entries), o => Search(p, o, rows), outers);
  }

  predicate Held(row: Row, col: nat) { ValueOk(At(row, col)) && !At(row, col).ctype.Double? }

  lemma {:induction false} SearchHeld(p: Probe, outer: Row, rows: seq<Row>)
    requires forall i | 0 <= i < |rows| :: Held(rows[i], p.innerCol)
    ensures Search(p, outer, InRange(rows, p.innerCol, 0, LAST_KEY)) == Search(p, outer, rows)
  {
    hide Found, Indexed, ValueOk;
    if rows != [] {
      assert forall i | 0 <= i < |rows[1..]| :: rows[1..][i] == rows[i + 1];
      SearchHeld(p, outer, rows[1..]);
      var row, more := rows[0], InRange(rows[1..], p.innerCol, 0, LAST_KEY);
      NotHeld(p, outer, row);
      InRangeFirst(rows, p.innerCol, 0, LAST_KEY);
      assert ([row] + more)[1..] == more;
    }
  }

  lemma InRangeFirst(rows: seq<Row>, col: nat, lo: nat, hi: nat)
    requires rows != []
    ensures InRange(rows, col, lo, hi) ==
            if Indexed(rows[0], col, lo, hi) then [rows[0]] + InRange(rows[1..], col, lo, hi) else InRange(rows[1..], col, lo, hi)
  {
    hide Indexed;
    assert [] + InRange(rows[1..], col, lo, hi) == InRange(rows[1..], col, lo, hi);
  }

  lemma NotHeld(p: Probe, outer: Row, row: Row)
    requires Held(row, p.innerCol)
    ensures !Indexed(row, p.innerCol, 0, LAST_KEY) ==> Hit(p, outer, row) == []
  {
    IndexKeyBound(At(row, p.innerCol));
  }

  lemma NoneInBag(b: seq<Row>)
    requires multiset(b) == multiset{}
    ensures b == []
  {
    assert |multiset(b)| == |b|;
  }

  lemma FindRow(row: Row, a: seq<Row>, b: seq<Row>) returns (j: nat)
    requires a != [] && row == a[0] && multiset(a) == multiset(b)
    ensures j < |b| && b[j] == row
  {
    assert row in multiset(a);
    j :| j < |b| && b[j] == row;
  }

  lemma Removed(a: seq<Row>, b: seq<Row>, j: nat)
    requires a != [] && j < |b| && b[j] == a[0] && multiset(a) == multiset(b)
    ensures multiset(a[1..]) == multiset(b[..j] + b[j + 1..])
  {
    BagWithout(a, 0);
    assert a[..0] + a[1..] == a[1..];
    BagWithout(b, j);
    Cancel(multiset([a[0]]), multiset(a[1..]), multiset(b[..j] + b[j + 1..]));
  }

  lemma BagWithout<T>(b: seq<T>, j: nat)
    requires j < |b|
    ensures multiset(b) == multiset([b[j]]) + multiset(b[..j] + b[j + 1..])
  {
    assert b == b[..j] + [b[j]] + b[j + 1..];
  }

  lemma Cancel<T>(one: multiset<T>, x: multiset<T>, y: multiset<T>)
    requires one + x == one + y
    ensures x == y
  {
    assert x == (one + x) - one;
    assert y == (one + y) - one;
  }

  // ---- filters and joins ----

  lemma {:induction false} KeptFirst(terms: seq<Comparison>, row: Row, rest: seq<Row>)
    ensures Kept(terms, [row] + rest) == (if Passes(terms, row) then [row] else []) + Kept(terms, rest)
  {
    KeptConcat(terms, [row], rest);
    KeptOne(terms, row);
  }

  /** What a filter of the joined rows amounts to on each side and at the join. */
  ghost predicate Factors(whole: seq<Comparison>, a: seq<Comparison>, b: seq<Comparison>, here: seq<Comparison>, n: nat, m: nat) {
    forall l: Row, r: Row | |l| == n && |r| == m ::
      Passes(whole, l + r) <==> Passes(a, l) && Passes(b, r) && EvalAll(here, l, r, n)
  }

  lemma {:induction false} WalkFactors(whole: seq<Comparison>, a: seq<Comparison>, b: seq<Comparison>, here: seq<Comparison>, n: nat, m: nat,
                                       l: Row, rs: seq<Row>)
    requires Factors(whole, a, b, here, n, m) && |l| == n && Wide(rs, m)
    ensures Kept(whole, Walk(Terms([], 0), false, l, rs)) == if Passes(a, l) then Walk(Terms(here, n), false, l, Kept(b, rs)) else []
  {
    hide Passes, Eval, EvalAll, Factors;
    NothingKept(whole);
    if rs != [] {
      var r, rest := rs[0], rs[1..];
      WalkFactors(whole, a, b, here, n, m, l, rest);
      FreeOne(l, r, rest);
      KeptFirst(whole, l + r, Walk(Terms([], 0), false, l, rest));
      assert [r] + rest == rs;
      KeptFirst(b, r, rest);
      FactorsAt(whole, a, b, here, n, m, l, r);
      WalkFirst(here, n, l, r, Kept(b, rest));
      hide Kept, Walk;
      assert [] + Kept(b, rest) == Kept(b, rest);
    }
  }

  lemma FactorsAt(whole: seq<Comparison>, a: seq<Comparison>, b: seq<Comparison>, here: seq<Comparison>, n: nat, m: nat, l: Row, r: Row)
    requires Factors(whole, a, b, here, n, m) && |l| == n && |r| == m
    ensures Passes(whole, l + r) <==> Passes(a, l) && Passes(b, r) && EvalAll(here, l, r, n)
  {
  }

  lemma {:induction false} FreeOne(l: Row, r: Row, rest: seq<Row>)
    ensures Walk(Terms([], 0), false, l, [r] + rest) == [l + r] + Walk(Terms([], 0), false, l, rest)
  {
    assert ([r] + rest)[1..] == rest;
  }

  lemma {:induction false} WalkFirst(here: seq<Comparison>, n: nat, l: Row, r: Row, rest: seq<Row>)
    ensures Walk(Terms(here, n), false, l, [r] + rest) == (if EvalAll(here, l, r, n) then [l + r] else []) + Walk(Terms(here, n), false, l, rest)
  {
    assert ([r] + rest)[1..] == rest;
  }

  /** Terms checked on each input and at the join, instead of on every pair. */
  lemma {:induction false} LoopFactors(whole: seq<Comparison>, a: seq<Comparison>, b: seq<Comparison>, here: seq<Comparison>, n: nat, m: nat,
                                       ls: seq<Row>, rs: seq<Row>)
    requires Factors(whole, a, b, here, n, m) && Wide(ls, n) && Wide(rs, m)
    ensures Kept(whole, Loop(Terms([], 0), false, ls, rs)) == Loop(Terms(here, n), false, Kept(a, ls), Kept(b, rs))
  {
    NothingKept(whole);
    hide Passes, Factors;
    if ls != [] {
      var l, rest := ls[0], ls[1..];
      LoopFactors(whole, a, b, here, n, m, rest, rs);
      WalkFactors(whole, a, b, here, n, m, l, rs);
      KeptConcat(whole, Walk(Terms([], 0), false, l, rs), Loop(Terms([], 0), false, rest, rs));
      assert [l] + rest == ls;
      KeptFirst(a, l, rest);
      LoopFirst(here, n, l, Kept(a, rest), Kept(b, rs));
      hide Kept, Walk;
      assert [] + Kept(a, rest) == Kept(a, rest);
    }
  }

  lemma {:induction false} LoopFirst(here: seq<Comparison>, n: nat, l: Row, rest: seq<Row>, rs: seq<Row>)
    ensures Loop(Terms(here, n), false, [l] + rest, rs) == Walk(Terms(here, n), false, l, rs) + Loop(Terms(here, n), false, rest, rs)
  {
    assert ([l] + rest)[1..] == rest;
  }

  // ---- an index join ----

  /** A row of a scope: a value of its type in every column. */
  predicate Typed(s: seq<OutColumn>, row: Row) {
    |row| == |s| && forall c | 0 <= c < |s| :: row[c].ctype == s[c].ctype && ValueOk(row[c])
  }

  predicate AllTyped(s: seq<OutColumn>, rows: seq<Row>) { forall i | 0 <= i < |rows| :: Typed(s, rows[i]) }

  lemma TypedWide(s: seq<OutColumn>, rows: seq<Row>)
    requires AllTyped(s, rows)
    ensures Wide(rows, |s|)
  {
  }

  lemma TypedBoth(sl: seq<OutColumn>, sr: seq<OutColumn>, l: Row, r: Row)
    requires Typed(sl, l) && Typed(sr, r)
    ensures Typed(sl + sr, l + r)
  {
    hide ValueOk;
  }

  lemma {:induction false} LoopTyped(c: Condition, sl: seq<OutColumn>, sr: seq<OutColumn>, ls: seq<Row>, rs: seq<Row>)
    requires AllTyped(sl, ls) && AllTyped(sr, rs)
    ensures AllTyped(sl + sr, Loop(c, false, ls, rs))
  {
    hide Typed;
    if ls != [] {
      assert forall i | 0 <= i < |ls[1..]| :: ls[1..][i] == ls[i + 1];
      LoopTyped(c, sl, sr, ls[1..], rs);
      WalkTyped(c, sl, sr, ls[0], rs);
    }
  }

  lemma {:induction false} WalkTyped(c: Condition, sl: seq<OutColumn>, sr: seq<OutColumn>, l: Row, rs: seq<Row>)
    requires Typed(sl, l) && AllTyped(sr, rs)
    ensures AllTyped(sl + sr, Walk(c, false, l, rs))
  {
    hide Typed, Joins;
    if rs != [] {
      assert forall i | 0 <= i < |rs[1..]| :: rs[1..][i] == rs[i + 1];
      WalkTyped(c, sl, sr, l, rs[1..]);
      TypedBoth(sl, sr, l, rs[0]);
    }
  }

  lemma {:induction false} WhereTyped(s: seq<OutColumn>, f: Row -> bool, rows: seq<Row>)
    requires AllTyped(s, rows)
    ensures AllTyped(s, Where(f, rows))
  {
    hide Typed;
    if rows != [] {
      assert forall i | 0 <= i < |rows[1..]| :: rows[1..][i] == rows[i + 1];
      WhereTyped(s, f, rows[1..]);
    }
  }

  /** Typed or not, a bag's rows are those of any other order. */
  lemma TypedBag(s: seq<OutColumn>, a: seq<Row>, b: seq<Row>)
    requires multiset(a) == multiset(b) && AllTyped(s, b)
    ensures AllTyped(s, a)
  {
    hide Typed;
    forall i | 0 <= i < |a| ensures Typed(s, a[i]) {
      assert a[i] in multiset(a);
      assert a[i] in b;
    }
  }

  /** The probe's key term and its other checks are the terms of the join. */
  ghost predicate ProbeIs(p: Probe, on: seq<Comparison>, sl: seq<OutColumn>, sr: seq<OutColumn>) {
    forall outer: Row, inner: Row :: ProbeOf(p, on, sl, sr, outer, inner)
  }

  predicate ProbeOf(p: Probe, on: seq<Comparison>, sl: seq<OutColumn>, sr: seq<OutColumn>, outer: Row, inner: Row) {
    var (l, r) := if p.innerFirst then (inner, outer) else (outer, inner);
    Typed(sl, l) && Typed(sr, r) ==> (Found(p, outer, inner) <==> Passes(p.innerFilter, inner) && EvalAll(on, l, r, |sl|))
  }

  lemma {:induction false} SearchIsWalk(p: Probe, on: seq<Comparison>, sl: seq<OutColumn>, sr: seq<OutColumn>, outer: Row, rows: seq<Row>)
    requires ProbeIs(p, on, sl, sr)
    requires Typed(if p.innerFirst then sr else sl, outer) && AllTyped(if p.innerFirst then sl else sr, rows)
    ensures Search(p, outer, rows) == Walk(Terms(on, |sl|), p.innerFirst, outer, Kept(p.innerFilter, rows))
  {
    hide Passes, Found, EvalAll, ProbeIs, Typed;
    if rows == [] {
      NothingKept(p.innerFilter);
    } else {
      var r, rest := rows[0], rows[1..];
      assert forall i | 0 <= i < |rest| :: rest[i] == rows[i + 1];
      SearchIsWalk(p, on, sl, sr, outer, rest);
      ProbeAt(p, on, sl, sr, outer, r);
      assert [r] + rest == rows;
      KeptFirst(p.innerFilter, r, rest);
      WalkEither(on, |sl|, p.innerFirst, outer, r, Kept(p.innerFilter, rest));
      hide Kept, Walk;
      assert [] + Kept(p.innerFilter, rest) == Kept(p.innerFilter, rest);
    }
  }

  lemma ProbeAt(p: Probe, on: seq<Comparison>, sl: seq<OutColumn>, sr: seq<OutColumn>, outer: Row, inner: Row)
    requires ProbeIs(p, on, sl, sr) && Typed(if p.innerFirst then sr else sl, outer) && Typed(if p.innerFirst then sl else sr, inner)
    ensures var (l, r) := if p.innerFirst then (inner, outer) else (outer, inner);
            Found(p, outer, inner) <==> Passes(p.innerFilter, inner) && EvalAll(on, l, r, |sl|)
  {
    hide Found, Passes, EvalAll, Typed;
    assert ProbeOf(p, on, sl, sr, outer, inner);
  }

  lemma {:induction false} WalkEither(on: seq<Comparison>, n: nat, swap: bool, probe: Row, other: Row, rest: seq<Row>)
    ensures Walk(Terms(on, n), swap, probe, [other] + rest) ==
            (var (l, r) := if swap then (other, probe) else (probe, other); if EvalAll(on, l, r, n) then [l + r] else [])
            + Walk(Terms(on, n), swap, probe, rest)
  {
    assert ([other] + rest)[1..] == rest;
  }

  /** What an index join yields is what a loop over the table's filtered rows yields. */
  lemma {:induction false} IndexJoinIsLoop(p: Probe, on: seq<Comparison>, sl: seq<OutColumn>, sr: seq<OutColumn>, outers: seq<Row>, rows: seq<Row>)
    requires ProbeIs(p, on, sl, sr)
    requires AllTyped(if p.innerFirst then sr else sl, outers) && AllTyped(if p.innerFirst then sl else sr, rows)
    ensures SearchAll(p, outers, rows) == Loop(Terms(on, |sl|), p.innerFirst, outers, Kept(p.innerFilter, rows))
  {
    hide ProbeIs, Typed;
    if outers != [] {
      assert forall i | 0 <= i < |outers[1..]| :: outers[1..][i] == outers[i + 1];
      IndexJoinIsLoop(p, on, sl, sr, outers[1..], rows);
      SearchIsWalk(p, on, sl, sr, outers[0], rows);
    }
  }

  lemma WithoutTerm(on: seq<Comparison>, k: nat, l: Row, r: Row)
    requires k < |on|
    ensures EvalAll(on, l, r, |l|) <==> EvalPair(on[k], l, r, |l|) && Passes(on[..k] + on[k + 1..], l + r)
  {
    var others := on[..k] + on[k + 1..];
    hide Eval, EvalPair;
    forall i | 0 <= i < |on| ensures EvalPair(on[i], l, r, |l|) <==> Eval(on[i], l + r) { PairIsJoined(on[i], l, r); }
    if Passes(others, l + r) && EvalPair(on[k], l, r, |l|) {
      forall i | 0 <= i < |on| ensures Eval(on[i], l + r) {
        if i < k { assert others[i] == on[i]; } else if i > k { assert others[i - 1] == on[i]; }
      }
    }
    if EvalAll(on, l, r, |l|) {
      forall i | 0 <= i < |others| ensures Eval(others[i], l + r) {
        if i < k { assert others[i] == on[i]; } else { assert others[i] == on[i + 1]; }
      }
    }
  }

  /** Two values of one class are equal exactly when their index keys are, and for TEXT
      the strings themselves. */
  lemma SameIndexKey(isText: bool, a: Field, b: Field)
    requires Like(isText, a) && Like(isText, b) && ValueOk(a) && ValueOk(b)
    ensures (if isText then a.text == b.text else a.i64 == b.i64) <==> IndexKey(a) == IndexKey(b) && (isText ==> a.text == b.text)
  {
    IndexKeyIs(isText, a);
    IndexKeyIs(isText, b);
    if isText && a.text == b.text { SameText(a, b); }
  }

  lemma SameText(a: Field, b: Field)
    requires a.ctype.Text? && b.ctype.Text? && a.text == b.text
    ensures IndexKey(a) == IndexKey(b)
  {
  }
}
