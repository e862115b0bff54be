/** Which operators answer a FROM, its JOINs and a WHERE (src/executor.cpp:296-652). What
    a plan costs is left to an oracle: any choice yields the same rows. */
module PlanAccesses {
  import opened Wrappers
  import opened SqlTypes
  import opened Rows
  import opened Batches
  import opened SortOrder
  import opened IndexKeys
  import opened PlanScope
  import opened PlanTree

  /** A row of a table: a value of its type in every column, and a key. */
  predicate RowOk(schema: seq<OutColumn>, row: Row) { Typed(schema, row) && |schema| > 0 && !row[0].isNull }

  /** No table declares a DOUBLE; the first column is the key, an INT64; an index holds
      the rows whose value in its column is not NULL. */
  ghost predicate TableOk(t: Table) {
    && |t.index| == |t.schema| > 0 && t.schema[0].ctype == Int64
    && (forall c | 0 <= c < |t.schema| :: !t.schema[c].ctype.Double?)
    && (forall i | 0 <= i < |t.rows| :: RowOk(t.schema, t.rows[i]))
    && t.index[0] == Some(t.rows)
    && forall c | 0 <= c < |t.index| && t.index[c].Some? :: IndexOk(t.rows, c, t.index[c].value)
  }

  ghost predicate IndexOk(rows: seq<Row>, c: nat, entries: seq<Row>) { multiset(entries) == multiset(InRange(rows, c, 0, LAST_KEY)) }

  predicate TermOk(t: Term) { t.right.LiteralTerm? ==> ValueOk(t.right.value) }

  /** A bound comparison of a scope. */
  predicate BoundOk(s: seq<OutColumn>, b: Comparison) {
    && b.left < |s| && (b.rightIsColumn ==> b.right < |s|) && b.asText == s[b.left].ctype.Text?
    && (b.rightIsColumn ==> ClassOf(s[b.left].ctype) == ClassOf(s[b.right].ctype) && b.asDouble == (s[b.left].ctype.Double? || s[b.right].ctype.Double?))
    && (!b.rightIsColumn ==>
          && (b.literal.isNull || ClassOf(b.literal.ctype) == ClassOf(s[b.left].ctype)) && ValueOk(b.literal)
          && b.asDouble == (s[b.left].ctype.Double? || b.literal.ctype.Double?))
  }

  lemma BindOk(s: seq<OutColumn>, t: Term)
    requires TermOk(t)
    ensures Bind(s, t).Some? ==> BoundOk(s, Bind(s, t).value)
  {
    hide Lookup;
  }

  /** A term a range on `col` can use. */
  predicate Bounds(b: Comparison, col: nat) { b.left == col && !b.rightIsColumn && b.op != Ne && !b.literal.ctype.Double? }

  predicate LiteralHolds(b: Comparison, f: Field) { !b.literal.isNull && HoldsOp(b.op, CompareValues(f, b.literal)) }

  ghost predicate BoundsHold(bound: seq<Comparison>, col: nat, f: Field) {
    forall k | 0 <= k < |bound| && Bounds(bound[k], col) :: LiteralHolds(bound[k], f)
  }

  ghost predicate AllBound(s: seq<OutColumn>, bound: seq<Comparison>) { forall k | 0 <= k < |bound| :: BoundOk(s, bound[k]) }

  /** A range and the terms it stands for hold of the same values. */
  ghost predicate Stands(range: ValueRange, isText: bool, bound: seq<Comparison>, col: nat) {
    && RangeOk(isText, range) && (range.lo.Some? ==> ValueOk(range.lo.value)) && (range.hi.Some? ==> ValueOk(range.hi.value))
    && forall f | Like(isText, f) && ValueOk(f) :: Within(range, f) <==> BoundsHold(bound, col, f)
  }

  /** One term more. */
  lemma StandsMore(range: ValueRange, isText: bool, s: seq<OutColumn>, bound: seq<Comparison>, col: nat, b: Comparison)
    requires Stands(range, isText, bound, col) && BoundOk(s, b) && col < |s| && isText == s[col].ctype.Text? && !s[col].ctype.Double?
    ensures !Bounds(b, col) ==> Stands(range, isText, bound + [b], col)
    ensures Bounds(b, col) && b.literal.isNull ==> Stands(range.(empty := true), isText, bound + [b], col)
    ensures Bounds(b, col) && !b.literal.isNull ==> Stands(Narrow(range, b.op, b.literal), isText, bound + [b], col)
  {
    hide ValueOk, CompareValues, Within;
    forall f | Like(isText, f) && ValueOk(f)
      ensures BoundsHold(bound + [b], col, f) <==> BoundsHold(bound, col, f) && (Bounds(b, col) ==> LiteralHolds(b, f))
    {
      BoundsMore(bound, col, b, f);
    }
    if Bounds(b, col) {
      if b.literal.isNull {
        forall f | Like(isText, f) && ValueOk(f) ensures !Within(range.(empty := true), f) { EmptyHolds(range, f); }
      } else {
        forall f | Like(isText, f) && ValueOk(f)
          ensures Within(Narrow(range, b.op, b.literal), f) <==> Within(range, f) && LiteralHolds(b, f)
        {
          NarrowMeans(isText, range, b.op, b.literal, f);
        }
        NarrowBounds(isText, range, b.op, b.literal);
      }
    }
  }

  lemma EmptyHolds(range: ValueRange, f: Field) ensures !Within(range.(empty := true), f) {}

  lemma NarrowBounds(isText: bool, r: ValueRange, op: Op, v: Field)
    requires RangeOk(isText, r) && Like(isText, v) && ValueOk(v) && op != Ne
    requires (r.lo.Some? ==> ValueOk(r.lo.value)) && (r.hi.Some? ==> ValueOk(r.hi.value))
    ensures var n := Narrow(r, op, v);
            RangeOk(isText, n) && (n.lo.Some? ==> ValueOk(n.lo.value)) && (n.hi.Some? ==> ValueOk(n.hi.value))
  {
    hide ValueOk, CompareValues;
  }

  lemma BoundsMore(bound: seq<Comparison>, col: nat, b: Comparison, f: Field)
    ensures BoundsHold(bound + [b], col, f) <==> BoundsHold(bound, col, f) && (Bounds(b, col) ==> LiteralHolds(b, f))
  {
    hide LiteralHolds, Bounds;
    var all := bound + [b];
    if BoundsHold(all, col, f) {
      assert all[|bound|] == b;
      forall k | 0 <= k < |bound| && Bounds(bound[k], col) ensures LiteralHolds(bound[k], f) { assert all[k] == bound[k]; }
    }
  }

  /** The range of a column's values that its terms allow, and whether it has any. */
  method RangeOf(s: seq<OutColumn>, bound: seq<Comparison>, col: nat) returns (range: ValueRange, any: bool)
    requires AllBound(s, bound) && col < |s| && !s[col].ctype.Double?
    ensures Stands(range, s[col].ctype.Text?, bound, col)
    ensures any <==> exists k | 0 <= k < |bound| :: Bounds(bound[k], col)
  {
    hide Stands, BoundOk;
    range, any := ANY, false;
    AnyStands(s[col].ctype.Text?, col);
    assert bound[..0] == [];
    for k := 0 to |bound|
      invariant Stands(range, s[col].ctype.Text?, bound[..k], col)
      invariant any <==> exists j | 0 <= j < k :: Bounds(bound[j], col)
    {
      assert bound[..k + 1] == bound[..k] + [bound[k]];
      StandsMore(range, s[col].ctype.Text?, s, bound[..k], col, bound[k]);
      if Bounds(bound[k], col) {
        if bound[k].literal.isNull {
          range := range.(empty := true);
        } else {
          range := Narrow(range, bound[k].op, bound[k].literal);
        }
        any := true;
      }
    }
    assert bound[..|bound|] == bound;
  }

  lemma AnyStands(isText: bool, col: nat)
    ensures Stands(ANY, isText, [], col)
  {
  }

  /** An indexed column that some term bounds, and the keys its terms allow. */
  datatype Candidate = Candidate(col: nat, lo: nat, hi: nat)

  ghost predicate CandidateOk(t: Table, bound: seq<Comparison>, c: Candidate) {
    && c.col < |t.schema| == |t.index| && t.index[c.col].Some? && (exists k | 0 <= k < |bound| :: Bounds(bound[k], c.col))
    && forall f: Field | f.ctype == t.schema[c.col].ctype && !f.isNull && ValueOk(f) :: KeysHold(t, bound, c, f)
  }

  /** The keys hold every value the terms allow, and for an exact key no other. */
  ghost predicate KeysHold(t: Table, bound: seq<Comparison>, c: Candidate, f: Field) requires c.col < |t.schema| {
    && (BoundsHold(bound, c.col, f) ==> c.lo <= IndexKey(f) <= c.hi)
    && (!t.schema[c.col].ctype.Text? && c.lo <= IndexKey(f) <= c.hi ==> BoundsHold(bound, c.col, f))
  }

  method Candidates(t: Table, bound: seq<Comparison>) returns (cands: seq<Candidate>)
    requires TableOk(t) && AllBound(t.schema, bound)
    ensures forall i | 0 <= i < |cands| :: CandidateOk(t, bound, cands[i])
  {
    hide CandidateOk, AllBound, Stands, IndexOk, RowOk, IndexKeysOf;
    cands := [];
    for col := 0 to |t.schema|
      invariant forall i | 0 <= i < |cands| :: CandidateOk(t, bound, cands[i])
    {
      if t.index[col].None? { continue; }
      var range, any := RangeOf(t.schema, bound, col);
      if !any { continue; }
      StandsBounds(range, t.schema[col].ctype.Text?, bound, col);
      var some, lo, hi := RangeKeys(range, t.schema[col].ctype.Text?);
      if !some { lo, hi := 1, 0; }
      CandidateIs(t, bound, range, Candidate(col, lo, hi));
      cands := cands + [Candidate(col, lo, hi)];
    }
  }

  lemma StandsBounds(range: ValueRange, isText: bool, bound: seq<Comparison>, col: nat)
    requires Stands(range, isText, bound, col)
    ensures RangeOk(isText, range) && (range.lo.Some? ==> ValueOk(range.lo.value)) && (range.hi.Some? ==> ValueOk(range.hi.value))
  {
  }

  lemma CandidateIs(t: Table, bound: seq<Comparison>, range: ValueRange, c: Candidate)
    requires c.col < |t.schema| == |t.index| && t.index[c.col].Some? && !t.schema[c.col].ctype.Double?
    requires exists k | 0 <= k < |bound| :: Bounds(bound[k], c.col)
    requires Stands(range, t.schema[c.col].ctype.Text?, bound, c.col)
    requires IndexKeysOf(range, t.schema[c.col].ctype.Text?) == Some((c.lo, c.hi)) || (IndexKeysOf(range, t.schema[c.col].ctype.Text?) == None && c.lo > c.hi)
    ensures CandidateOk(t, bound, c)
  {
    var isText := t.schema[c.col].ctype.Text?;
    forall f: Field | f.ctype == t.schema[c.col].ctype && !f.isNull && ValueOk(f) ensures KeysHold(t, bound, c, f) {
      assert Like(isText, f);
      KeysMean(range, isText, f);
      hide IndexKeysOf, IndexKey, ValueOk, Within, BoundsHold;
    }
  }

  /** A term on a literal, of a row whose value is not NULL. */
  lemma EvalBounds(schema: seq<OutColumn>, b: Comparison, col: nat, row: Row)
    requires BoundOk(schema, b) && Bounds(b, col) && RowOk(schema, row) && !schema[col].ctype.Double?
    ensures col < |row| && (Eval(b, row) <==> !row[col].isNull && LiteralHolds(b, row[col]))
  {
    hide ValueOk;
  }

  /** The terms a chosen index answers by itself: those its range is exactly. */
  predicate Consumed(exact: bool, col: nat, b: Comparison) { exact && Bounds(b, col) }

  function Left(exact: bool, col: nat, bound: seq<Comparison>): seq<Comparison> {
    if bound == [] then [] else (if Consumed(exact, col, bound[0]) then [] else [bound[0]]) + Left(exact, col, bound[1..])
  }

  lemma {:induction false} LeftPasses(exact: bool, col: nat, bound: seq<Comparison>, row: Row)
    ensures Passes(Left(exact, col, bound), row) <==> forall k | 0 <= k < |bound| && !Consumed(exact, col, bound[k]) :: Eval(bound[k], row)
  {
    hide Eval, Bounds;
    if bound != [] {
      var b, rest := bound[0], bound[1..];
      LeftPasses(exact, col, rest, row);
      assert bound == [b] + rest;
      PassesFirst(b, Left(exact, col, rest), row);
      assert [] + Left(exact, col, rest) == Left(exact, col, rest);
      assert forall k | 0 <= k < |rest| :: bound[k + 1] == rest[k];
      if forall k | 0 <= k < |bound| && !Consumed(exact, col, bound[k]) :: Eval(bound[k], row) {
        forall k | 0 <= k < |rest| && !Consumed(exact, col, rest[k]) ensures Eval(rest[k], row) { assert bound[k + 1] == rest[k]; }
      }
    }
  }

  lemma PassesFirst(b: Comparison, rest: seq<Comparison>, row: Row)
    ensures Passes([b] + rest, row) <==> Eval(b, row) && Passes(rest, row)
  {
    hide Eval;
    var all := [b] + rest;
    if Passes(all, row) {
      assert all[0] == b;
      forall k | 0 <= k < |rest| ensures Eval(rest[k], row) { assert all[k + 1] == rest[k]; }
    }
  }

  /** The rows an index yields under a candidate's keys, filtered by what it does not
      answer, are the rows that pass every term. */
  lemma RowPath(t: Table, bound: seq<Comparison>, c: Candidate, row: Row)
    requires TableOk(t) && AllBound(t.schema, bound) && CandidateOk(t, bound, c) && RowOk(t.schema, row)
    ensures Passes(bound, row) <==>
            Passes(Left(!t.schema[c.col].ctype.Text?, c.col, bound), row) && Indexed(row, c.col, c.lo, c.hi)
  {
    var exact, f := !t.schema[c.col].ctype.Text?, row[c.col];
    LeftPasses(exact, c.col, bound, row);
    forall k | 0 <= k < |bound| && Bounds(bound[k], c.col) ensures Eval(bound[k], row) <==> !f.isNull && LiteralHolds(bound[k], f) {
      EvalBounds(t.schema, bound[k], c.col, row);
    }
    assert !f.isNull ==> KeysHold(t, bound, c, f);
    hide Eval, LiteralHolds, Bounds, RowOk, TableOk, AllBound, IndexKey, CandidateOk;
    if Passes(bound, row) {
      var k :| 0 <= k < |bound| && Bounds(bound[k], c.col);
      assert Eval(bound[k], row);
      assert BoundsHold(bound, c.col, f);
    }
  }

  lemma {:induction false} WhereSame(f: Row -> bool, g: Row -> bool, rows: seq<Row>)
    requires forall i | 0 <= i < |rows| :: f(rows[i]) == g(rows[i])
    ensures Where(f, rows) == Where(g, rows)
  {
    if rows != [] {
      assert forall i | 0 <= i < |rows[1..]| :: rows[1..][i] == rows[i + 1];
      WhereSame(f, g, rows[1..]);
    }
  }

  lemma {:induction false} KeptIsWhere(terms: seq<Comparison>, rows: seq<Row>)
    ensures Kept(terms, rows) == Where(r => Passes(terms, r), rows)
  {
    hide Passes;
    if rows != [] { KeptIsWhere(terms, rows[1..]); }
  }

  lemma {:induction false} WhereBoth(f: Row -> bool, g: Row -> bool, rows: seq<Row>)
    ensures Where(f, Where(g, rows)) == Where(r => g(r) && f(r), rows)
  {
    if rows != [] {
      WhereBoth(f, g, rows[1..]);
      assert ([rows[0]] + Where(g, rows[1..]))[1..] == Where(g, rows[1..]);
      assert [] + Where(g, rows[1..]) == Where(g, rows[1..]);
    }
  }

  lemma {:induction false} KeptBag(terms: seq<Comparison>, a: seq<Row>, b: seq<Row>)
    requires multiset(a) == multiset(b)
    ensures multiset(Kept(terms, a)) == multiset(Kept(terms, b))
  {
    KeptIsWhere(terms, a);
    KeptIsWhere(terms, b);
    WhereBag(r => Passes(terms, r), a, b);
  }

  /** Read in key order, the candidate's rows, filtered, are the rows that pass. */
  lemma {:induction false} PathKeeps(t: Table, bound: seq<Comparison>, c: Candidate)
    requires TableOk(t) && AllBound(t.schema, bound) && CandidateOk(t, bound, c)
    ensures Kept(Left(!t.schema[c.col].ctype.Text?, c.col, bound), InRange(t.rows, c.col, c.lo, c.hi)) == Kept(bound, t.rows)
  {
    var left := Left(!t.schema[c.col].ctype.Text?, c.col, bound);
    KeptIsWhere(left, InRange(t.rows, c.col, c.lo, c.hi));
    KeptIsWhere(bound, t.rows);
    WhereBoth(r => Passes(left, r), r => Indexed(r, c.col, c.lo, c.hi), t.rows);
    forall i | 0 <= i < |t.rows|
      ensures Passes(bound, t.rows[i]) <==> Passes(left, t.rows[i]) && Indexed(t.rows[i], c.col, c.lo, c.hi)
    {
      RowPath(t, bound, c, t.rows[i]);
    }
    hide Passes, Indexed;
    WhereSame(r => Passes(bound, r), r => Indexed(r, c.col, c.lo, c.hi) && Passes(left, r), t.rows);
    SameWhere(r => ((r' => Indexed(r', c.col, c.lo, c.hi))(r)) && ((r' => Passes(left, r'))(r)),
              r => Indexed(r, c.col, c.lo, c.hi) && Passes(left, r), t.rows);
  }

  lemma {:induction false} SameWhere(f: Row -> bool, g: Row -> bool, rows: seq<Row>)
    requires forall r :: f(r) == g(r)
    ensures Where(f, rows) == Where(g, rows)
  {
    WhereSame(f, g, rows);
  }

  /** An index's own order gives the same bag. */
  lemma {:induction false} PathBag(t: Table, bound: seq<Comparison>, c: Candidate, entries: seq<Row>)
    requires TableOk(t) && AllBound(t.schema, bound) && CandidateOk(t, bound, c) && t.index[c.col] == Some(entries)
    ensures multiset(Kept(Left(!t.schema[c.col].ctype.Text?, c.col, bound), InRange(entries, c.col, c.lo, c.hi))) == multiset(Kept(bound, t.rows))
    ensures c.col == 0 ==> entries == t.rows
  {
    PathKeeps(t, bound, c);
    EntriesInRange(t, c.col, c.lo, c.hi, entries);
    hide Kept, Left, InRange, TableOk, AllBound, CandidateOk;
    KeptBag(Left(!t.schema[c.col].ctype.Text?, c.col, bound), InRange(entries, c.col, c.lo, c.hi), InRange(t.rows, c.col, c.lo, c.hi));
  }

  lemma EntriesInRange(t: Table, col: nat, lo: nat, hi: nat, entries: seq<Row>)
    requires TableOk(t) && col < |t.index| && t.index[col] == Some(entries)
    ensures multiset(InRange(entries, col, lo, hi)) == multiset(InRange(t.rows, col, lo, hi))
    ensures col == 0 ==> entries == t.rows
  {
    assert IndexOk(t.rows, col, entries);
    var f: Row -> bool := r => Indexed(r, col, lo, hi);
    var g: Row -> bool := r => Indexed(r, col, 0, LAST_KEY);
    WhereBag(f, entries, InRange(t.rows, col, 0, LAST_KEY));
    WhereBoth(f, g, t.rows);
    forall i | 0 <= i < |t.rows| ensures g(t.rows[i]) && f(t.rows[i]) <==> f(t.rows[i]) {
      if !At(t.rows[i], col).isNull {
        assert RowOk(t.schema, t.rows[i]);
        IndexKeyBound(t.rows[i][col]);
      }
    }
    WhereSame(r => g(r) && f(r), f, t.rows);
  }

  /** One key is one lookup. */
  lemma LookupIsRange(t: Table, k: nat)
    requires TableOk(t)
    ensures WithKey(t.rows, k - SIGN) == InRange(t.rows, 0, k, k)
  {
    forall i | 0 <= i < |t.rows| ensures Indexed(t.rows[i], 0, k, k) <==> !At(t.rows[i], 0).isNull && At(t.rows[i], 0).i64 == k - SIGN {
      assert RowOk(t.schema, t.rows[i]);
      IndexKeyIs(false, t.rows[i][0]);
    }
    WhereSame(r => !At(r, 0).isNull && At(r, 0).i64 == k - SIGN, r => Indexed(r, 0, k, k), t.rows);
  }

  /** The terms of a table, bound to its own columns, or None if one cannot be. */
  function BindAll(s: seq<OutColumn>, terms: seq<Term>): Option<seq<Comparison>> {
    if terms == [] then Some([])
    else
      match (BindAll(s, terms[..|terms| - 1]), Bind(s, terms[|terms| - 1]))
      case (Some(bound), Some(b)) => Some(bound + [b])
      case _ => None
  }

  lemma {:induction false} BindMore(s: seq<OutColumn>, terms: seq<Term>, k: nat)
    requires k < |terms|
    ensures BindAll(s, terms[..k + 1]) ==
            if BindAll(s, terms[..k]).Some? && Bind(s, terms[k]).Some?
            then Some(BindAll(s, terms[..k]).value + [Bind(s, terms[k]).value]) else None
  {
    assert terms[..k + 1][..k] == terms[..k];
  }

  lemma {:induction false} BindFails(s: seq<OutColumn>, terms: seq<Term>, k: nat)
    requires k <= |terms| && BindAll(s, terms[..k]) == None
    ensures BindAll(s, terms) == None
    decreases |terms| - k
  {
    hide Bind, BindAll;
    if k == |terms| {
      assert terms[..k] == terms;
    } else {
      BindMore(s, terms, k);
      BindFails(s, terms, k + 1);
    }
  }

  /** How a table is read. */
  datatype Access = Access(op: Node, keyOrder: bool, bare: bool)

  // ---- what the terms ask for, as they are written ----

  ghost predicate TermsComparable(s: seq<OutColumn>, terms: seq<Term>) { forall k | 0 <= k < |terms| :: Comparable(s, terms[k]) }

  ghost predicate Meeting(s: seq<OutColumn>, terms: seq<Term>, row: Row) { forall k | 0 <= k < |terms| :: Satisfies(s, terms[k], row) }

  /** The rows of a table that satisfy every term, in order. */
  ghost predicate Selected(t: Table, terms: seq<Term>, rows: seq<Row>) {
    Sequences.Picks((row: Row) => Meeting(t.schema, terms, row), t.rows, rows)
  }

  ghost predicate Yielded(db: seq<Table>, a: Access, rows: seq<Row>) {
    multiset(Run(db, a.op)) == multiset(rows) && (a.keyOrder ==> Run(db, a.op) == rows)
  }

  lemma PassesMore(gs: seq<Comparison>, g: Comparison, row: Row)
    ensures Passes(gs + [g], row) <==> Passes(gs, row) && Eval(g, row)
  {
    hide Eval;
    if Passes(gs + [g], row) {
      assert (gs + [g])[|gs|] == g;
      forall k | 0 <= k < |gs| ensures Eval(gs[k], row) { assert (gs + [g])[k] == gs[k]; }
    }
  }

  lemma MeetingMore(s: seq<OutColumn>, terms: seq<Term>, row: Row)
    requires terms != []
    ensures Meeting(s, terms, row) <==> Meeting(s, terms[..|terms| - 1], row) && Satisfies(s, terms[|terms| - 1], row)
  {
    hide Satisfies;
    assert forall k | 0 <= k < |terms| - 1 :: terms[..|terms| - 1][k] == terms[k];
  }

  lemma {:induction false} AllBoundMeans(s: seq<OutColumn>, terms: seq<Term>)
    ensures BindAll(s, terms).Some? <==> TermsComparable(s, terms)
    ensures BindAll(s, terms).Some? ==> forall row: Row | Fills(s, row) :: Passes(BindAll(s, terms).value, row) <==> Meeting(s, terms, row)
  {
    hide Bind, Fills, Comparable, Satisfies, Eval;
    if terms != [] {
      var n := |terms| - 1;
      AllBoundMeans(s, terms[..n]);
      BindMeans(s, terms[n]);
      assert forall k | 0 <= k < n :: terms[..n][k] == terms[k];
      if BindAll(s, terms).Some? {
        var gs, g := BindAll(s, terms[..n]).value, Bind(s, terms[n]).value;
        forall row: Row | Fills(s, row) ensures Passes(gs + [g], row) <==> Meeting(s, terms, row) {
          PassesMore(gs, g, row);
          MeetingMore(s, terms, row);
        }
      }
    }
  }

  lemma TableFills(t: Table)
    requires TableOk(t)
    ensures forall i | 0 <= i < |t.rows| :: Fills(t.schema, t.rows[i])
  {
    forall i | 0 <= i < |t.rows| ensures Fills(t.schema, t.rows[i]) { assert RowOk(t.schema, t.rows[i]); }
  }

  lemma {:induction false} KeptSelected(t: Table, terms: seq<Term>)
    requires forall i | 0 <= i < |t.rows| :: Fills(t.schema, t.rows[i])
    ensures BindAll(t.schema, terms).Some? <==> TermsComparable(t.schema, terms)
    ensures BindAll(t.schema, terms).Some? ==> Selected(t, terms, Kept(BindAll(t.schema, terms).value, t.rows))
  {
    AllBoundMeans(t.schema, terms);
    if BindAll(t.schema, terms).Some? {
      var gs := BindAll(t.schema, terms).value;
      hide Fills, Meeting, Passes;
      KeptMeans(gs, t.rows);
      Sequences.PicksSame(row => Passes(gs, row), (row: Row) => Meeting(t.schema, terms, row), t.rows, Kept(gs, t.rows));
    }
  }

  /** One table's access path: any candidate, or the whole table; then a filter for the
      terms the path does not answer. It fails only if a term cannot be bound. */
  method PlanAccess(db: seq<Table>, t: nat, terms: seq<Term>, choose: seq<Candidate> -> Option<nat>)
    returns (a: Option<Access>, ghost bound: seq<Comparison>)
    requires t < |db| && TableOk(db[t]) && forall k | 0 <= k < |terms| :: TermOk(terms[k])
    ensures a.Some? <==> TermsComparable(db[t].schema, terms)
    ensures a.Some? ==> exists rows :: Selected(db[t], terms, rows) && Yielded(db, a.value, rows)
    ensures a.None? <==> BindAll(db[t].schema, terms) == None
    ensures a.Some? ==> BindAll(db[t].schema, terms) == Some(bound) && AllBound(db[t].schema, bound)
    ensures a.Some? ==> multiset(Run(db, a.value.op)) == multiset(Kept(bound, db[t].rows))
    ensures a.Some? && a.value.keyOrder ==> Run(db, a.value.op) == Kept(bound, db[t].rows)
    ensures a.Some? && a.value.bare ==> terms == [] && a.value.op == SeqScan(t)
  {
    hide TableOk, AllBound, CandidateOk, Bind, BindAll, TermOk, Kept, Left, TermsComparable, Selected;
    var table := db[t];
    TableFills(table);
    KeptSelected(table, terms);
    var all: seq<Comparison> := [];
    BindNone(table.schema, terms);
    for k := 0 to |terms|
      invariant BindAll(table.schema, terms[..k]) == Some(all) && AllBound(table.schema, all) && |all| == k
    {
      BindMore(table.schema, terms, k);
      var b := Bind(table.schema, terms[k]);
      if b.None? {
        BindFails(table.schema, terms, k + 1);
        return None, [];
      }
      AllBoundMore(table.schema, all, terms[k]);
      all := all + [b.value];
    }
    assert terms[..|terms|] == terms;
    bound := all;
    var cands := Candidates(table, all);
    var pick := choose(cands);
    if pick.None? || pick.value >= |cands| {
      var scan := SeqScan(t);
      if all == [] { NoTerms(table.rows); }
      a := Some(Access(if all == [] then scan else Filter(scan, all), true, all == []));
      assert Run(db, scan) == table.rows && Run(db, a.value.op) == Kept(all, table.rows);
      assert Yielded(db, a.value, Kept(all, table.rows));
      return;
    }
    var c := cands[pick.value];
    var exact := CandidateExact(table, all, c);
    var op := if c.col == 0 && c.lo == c.hi then IndexLookup(t, c.lo - SIGN) else IndexScan(t, c.col, c.lo, c.hi);
    PathRuns(db, t, all, c);
    var preds := [];
    assert all[0..] == all;
    for k := 0 to |all|
      invariant preds + Left(exact, c.col, all[k..]) == Left(exact, c.col, all)
    {
      LeftNext(exact, c.col, all, k, preds);
      if !Consumed(exact, c.col, all[k]) { preds := preds + [all[k]]; }
    }
    LeftNone(exact, c.col);
    assert all[|all|..] == [] && preds + [] == preds;
    if preds == [] { NoTerms(Run(db, op)); }
    a := Some(Access(if preds == [] then op else Filter(op, preds), c.col == 0, false));
    assert Yielded(db, a.value, Kept(all, table.rows));
  }

  function CandidateExact(t: Table, bound: seq<Comparison>, c: Candidate): bool
    requires CandidateOk(t, bound, c)
  {
    !t.schema[c.col].ctype.Text?
  }

  lemma {:induction false} PathRuns(db: seq<Table>, t: nat, bound: seq<Comparison>, c: Candidate)
    requires t < |db| && TableOk(db[t]) && AllBound(db[t].schema, bound) && CandidateOk(db[t], bound, c)
    ensures var left := Left(CandidateExact(db[t], bound, c), c.col, bound);
            var op := if c.col == 0 && c.lo == c.hi then IndexLookup(t, c.lo - SIGN) else IndexScan(t, c.col, c.lo, c.hi);
            && multiset(Kept(left, Run(db, op))) == multiset(Kept(bound, db[t].rows))
            && (c.col == 0 ==> Kept(left, Run(db, op)) == Kept(bound, db[t].rows))
  {
    hide *;
    HasIndex(db[t], bound, c);
    var entries := db[t].index[c.col].value;
    RunsPath(db, t, c, entries);
    PathBag(db[t], bound, c, entries);
    PathKeeps(db[t], bound, c);
    if c.col == 0 { LookupIsRange(db[t], c.lo); }
  }

  lemma HasIndex(t: Table, bound: seq<Comparison>, c: Candidate)
    requires CandidateOk(t, bound, c)
    ensures c.col < |t.schema| == |t.index| && t.index[c.col].Some? && CandidateExact(t, bound, c) == !t.schema[c.col].ctype.Text?
  {
  }

  lemma {:induction false} RunsPath(db: seq<Table>, t: nat, c: Candidate, entries: seq<Row>)
    requires t < |db| && c.col < |db[t].index| && db[t].index[c.col] == Some(entries)
    ensures Run(db, IndexLookup(t, c.lo - SIGN)) == WithKey(db[t].rows, c.lo - SIGN)
    ensures Run(db, IndexScan(t, c.col, c.lo, c.hi)) == InRange(entries, c.col, c.lo, c.hi)
  {
    hide InRange, WithKey;
  }

  lemma {:induction false} BindNone(s: seq<OutColumn>, terms: seq<Term>)
    ensures BindAll(s, terms[..0]) == Some([]) && AllBound(s, [])
  {
  }

  lemma AllBoundMore(s: seq<OutColumn>, bound: seq<Comparison>, t: Term)
    requires AllBound(s, bound) && TermOk(t) && Bind(s, t).Some?
    ensures AllBound(s, bound + [Bind(s, t).value])
  {
    hide BoundOk, Bind;
    BindOk(s, t);
  }

  lemma {:induction false} NoTerms(rows: seq<Row>)
    ensures Kept([], rows) == rows
  {
    KeptAll(rows);
  }

  lemma {:induction false} LeftNext(exact: bool, col: nat, bound: seq<Comparison>, k: nat, preds: seq<Comparison>)
    requires k < |bound|
    ensures preds + Left(exact, col, bound[k..]) ==
            (if Consumed(exact, col, bound[k]) then preds else preds + [bound[k]]) + Left(exact, col, bound[k + 1..])
  {
    assert bound[k..][1..] == bound[k + 1..];
  }

  lemma {:induction false} LeftNone(exact: bool, col: nat) ensures Left(exact, col, []) == [] {}
}
