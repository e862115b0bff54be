/** Names in scope and the comparisons bound to them (src/operator.cpp:20-41,
    src/executor.cpp:97-147). */
module PlanScope {
  import opened Wrappers
  import opened SqlTypes
  import opened Rows
  import Sql = SqlSyntax

  /** A column of a scope: the label of its table, its name, its type. */
  datatype OutColumn = OutColumn(table: string, name: string, ctype: ColType)

  datatype Right = ColumnTerm(ref: Sql.ColumnRef) | LiteralTerm(value: Field)

  /** A term of a WHERE or an ON as written. */
  datatype Term = Term(left: Sql.ColumnRef, aggregate: bool, op: Op, right: Right)

  predicate Named(c: OutColumn, r: Sql.ColumnRef) { (r.table == "" || c.table == r.table) && c.name == r.column }

  /** The positions a name could mean. */
  function Matches(s: seq<OutColumn>, r: Sql.ColumnRef): (m: seq<nat>)
    ensures forall k | 0 <= k < |m| :: m[k] < |s|
  {
    if s == [] then [] else Matches(s[..|s| - 1], r) + if Named(s[|s| - 1], r) then [|s| - 1] else []
  }

  /** What a name means: the one column it matches. */
  function Lookup(s: seq<OutColumn>, r: Sql.ColumnRef): (p: Option<nat>)
    ensures p.Some? ==> p.value < |s|
  {
    var m := Matches(s, r);
    if |m| == 1 then Some(m[0]) else None
  }

  lemma {:induction false} NoMatches(r: Sql.ColumnRef) ensures Matches([], r) == [] {}

  lemma {:induction false} NextMatch(s: seq<OutColumn>, i: nat, r: Sql.ColumnRef)
    requires i < |s|
    ensures Matches(s[..i + 1], r) == Matches(s[..i], r) + if Named(s[i], r) then [i] else []
  {
    assert s[..i + 1][..i] == s[..i];
  }

  method Resolve(s: seq<OutColumn>, r: Sql.ColumnRef) returns (p: Option<nat>)
    ensures p == Lookup(s, r)
  {
    hide Matches;
    var tableSeen: bool, found: nat, matches: nat := r.table == "", 0, 0;
    NoMatches(r);
    assert s[..0] == [];
    for i := 0 to |s|
      invariant matches == |Matches(s[..i], r)| && (matches > 0 ==> found == Matches(s[..i], r)[0])
      invariant (r.table == "" ==> tableSeen) && (!tableSeen ==> matches == 0)
    {
      NextMatch(s, i, r);
      if r.table != "" {
        if s[i].table != r.table { continue; }
        tableSeen := true;
      }
      if s[i].name == r.column {
        if matches == 0 { found := i; }
        matches := matches + 1;
      }
    }
    assert s[..|s|] == s;
    if !tableSeen || matches == 0 || matches > 1 { return None; }
    return Some(found);
  }

  lemma {:induction false} MatchesConcat(a: seq<OutColumn>, b: seq<OutColumn>, r: Sql.ColumnRef)
    ensures |Matches(a + b, r)| == |Matches(a, r)| + |Matches(b, r)|
    ensures forall k | 0 <= k < |Matches(a, r)| :: Matches(a + b, r)[k] == Matches(a, r)[k]
    ensures forall k | 0 <= k < |Matches(b, r)| :: Matches(a + b, r)[|Matches(a, r)| + k] == |a| + Matches(b, r)[k]
  {
    if b == [] {
      assert a + b == a;
    } else {
      var n := |b| - 1;
      assert (a + b)[..|a + b| - 1] == a + b[..n];
      MatchesConcat(a, b[..n], r);
    }
  }

  /** A name that means a column of a part of a scope means it in that part alone. */
  lemma LookupPart(a: seq<OutColumn>, b: seq<OutColumn>, r: Sql.ColumnRef)
    requires Lookup(a + b, r).Some?
    ensures Lookup(a + b, r).value < |a| ==> Lookup(a, r) == Lookup(a + b, r)
    ensures Lookup(a + b, r).value >= |a| ==> Lookup(b, r) == Some(Lookup(a + b, r).value - |a|)
  {
    hide Matches;
    MatchesConcat(a, b, r);
    var m, x, y := Matches(a + b, r), Matches(a, r), Matches(b, r);
    if |x| == 1 { assert m[0] == x[0]; } else { assert m[0] == m[|x| + 0] == |a| + y[0]; }
  }

  // ---- binding ----

  datatype TypeClass = NumberClass | BoolClass | TextClass

  function ClassOf(t: ColType): TypeClass {
    match t case Text => TextClass case Bool => BoolClass case _ => NumberClass
  }

  /** A term's names resolved, if its two sides can be compared. */
  function Bind(s: seq<OutColumn>, t: Term): (b: Option<Comparison>)
    ensures b.Some? ==> b.value.left < |s| && (b.value.rightIsColumn ==> b.value.right < |s|)
  {
    if t.aggregate then None
    else
      match Lookup(s, t.left)
      case None => None
      case Some(l) =>
        var lt := s[l].ctype;
        match t.right
        case LiteralTerm(v) =>
          if v.isNull then Some(Comparison(l, t.op, lt.Text?, lt.Double?, false, 0, Field(lt, true, 0, 0.0, "")))
          else if ClassOf(v.ctype) != ClassOf(lt) then None
          else Some(Comparison(l, t.op, lt.Text?, lt.Double? || v.ctype.Double?, false, 0, v))
        case ColumnTerm(ref) =>
          match Lookup(s, ref)
          case None => None
          case Some(r) =>
            var rt := s[r].ctype;
            if ClassOf(lt) != ClassOf(rt) then None
            else Some(Comparison(l, t.op, lt.Text?, lt.Double? || rt.Double?, true, r, NULL_FIELD))
  }

  // ---- what is bound, by value ----

  /** The name means column `p`: no other column of the scope has that name, under that
      label if one is written. */
  ghost predicate Means(s: seq<OutColumn>, r: Sql.ColumnRef, p: nat) {
    && p < |s| && s[p].name == r.column && (r.table != "" ==> s[p].table == r.table)
    && forall j | 0 <= j < |s| && j != p && s[j].name == r.column :: r.table != "" && s[j].table != r.table
  }

  lemma {:induction false} MatchesAre(s: seq<OutColumn>, r: Sql.ColumnRef)
    ensures forall k | 0 <= k < |Matches(s, r)| :: Named(s[Matches(s, r)[k]], r)
    ensures forall k, m | 0 <= k < m < |Matches(s, r)| :: Matches(s, r)[k] < Matches(s, r)[m]
    ensures forall i | 0 <= i < |s| && Named(s[i], r) :: i in Matches(s, r)
  {
    if s != [] {
      var n := |s| - 1;
      MatchesAre(s[..n], r);
      NextMatch(s, n, r);
      assert s[..n + 1] == s;
    }
  }

  lemma LookupMeans(s: seq<OutColumn>, r: Sql.ColumnRef)
    ensures forall p: nat :: Lookup(s, r) == Some(p) <==> Means(s, r, p)
  {
    MatchesAre(s, r);
    hide Matches;
    var m := Matches(s, r);
    if |m| > 1 { assert m[0] < m[1] && Named(s[m[0]], r) && Named(s[m[1]], r); }
    forall p: nat ensures Lookup(s, r) == Some(p) <==> Means(s, r, p) {
      if Lookup(s, r) == Some(p) {
        forall j | 0 <= j < |s| && j != p && s[j].name == r.column ensures r.table != "" && s[j].table != r.table {
          assert Named(s[j], r) ==> j in m;
        }
      }
      if Means(s, r, p) {
        assert p in m;
        assert |m| == 1 ==> m[0] == p;
      }
    }
  }

  /** Numbers are compared with numbers, truth values with truth values, text with text. */
  predicate SameClass(a: ColType, b: ColType) { a.Text? == b.Text? && a.Bool? == b.Bool? }

  /** A term as written, of a row of the scope. */
  ghost predicate Satisfies(s: seq<OutColumn>, t: Term, row: Row) {
    exists l: nat :: Means(s, t.left, l) && l < |row| && Meets(s, t, ValueOf(row[l]), row)
  }

  ghost predicate Meets(s: seq<OutColumn>, t: Term, left: Value, row: Row) {
    match t.right
    case LiteralTerm(v) => Holds(t.op, left, ValueOf(v))
    case ColumnTerm(ref) => exists r: nat :: Means(s, ref, r) && r < |row| && Holds(t.op, left, ValueOf(row[r]))
  }

  /** The term can be compared at all. */
  ghost predicate Comparable(s: seq<OutColumn>, t: Term) { !t.aggregate && exists l: nat :: Means(s, t.left, l) && Suits(s, t, s[l].ctype) }

  ghost predicate Suits(s: seq<OutColumn>, t: Term, left: ColType) {
    match t.right
    case LiteralTerm(v) => v.isNull || SameClass(left, v.ctype)
    case ColumnTerm(ref) => exists r: nat :: Means(s, ref, r) && SameClass(left, s[r].ctype)
  }

  /** A row begins with values of the scope's types. */
  predicate Fills(s: seq<OutColumn>, row: Row) { |s| <= |row| && forall c | 0 <= c < |s| :: row[c].isNull || row[c].ctype == s[c].ctype }

  /** A term is bound if and only if it can be compared; then the bound term holds of
      exactly the rows that satisfy it as written. */
  lemma BindMeans(s: seq<OutColumn>, t: Term)
    ensures Bind(s, t).Some? <==> Comparable(s, t)
    ensures forall row: Row | Bind(s, t).Some? && Fills(s, row) :: Eval(Bind(s, t).value, row) <==> Satisfies(s, t, row)
  {
    LookupMeans(s, t.left);
    if t.right.ColumnTerm? { LookupMeans(s, t.right.ref); }
    hide Lookup, Means;
    forall row: Row | Bind(s, t).Some? && Fills(s, row) ensures Eval(Bind(s, t).value, row) <==> Satisfies(s, t, row) {
      var b := Bind(s, t).value;
      var right := if b.rightIsColumn then row[b.right] else b.literal;
      assert Means(s, t.left, b.left);
      ComparedMeans(b, row[b.left], right);
      if t.right.ColumnTerm? { assert Means(s, t.right.ref, b.right); }
      hide Holds, Compared;
    }
  }

  /** A comparison on a part of a row, as one on the whole. */
  function Shift(c: Comparison, d: nat): Comparison { c.(left := c.left + d, right := if c.rightIsColumn then c.right + d else c.right) }

  predicate LeftPart(c: Comparison, n: nat) { c.left < n && (c.rightIsColumn ==> c.right < n) }
  predicate RightPart(c: Comparison, n: nat) { c.left >= n && (c.rightIsColumn ==> c.right >= n) }

  /** Bound in a larger scope or a smaller one, a term compares the same columns. */
  lemma BindPart(a: seq<OutColumn>, b: seq<OutColumn>, t: Term)
    requires Bind(a + b, t).Some?
    ensures LeftPart(Bind(a + b, t).value, |a|) ==> Bind(a, t) == Bind(a + b, t)
    ensures RightPart(Bind(a + b, t).value, |a|) ==> Bind(b, t).Some? && Shift(Bind(b, t).value, |a|) == Bind(a + b, t).value
  {
    LookupPart(a, b, t.left);
    if t.right.ColumnTerm? { LookupPart(a, b, t.right.ref); }
    hide Lookup;
  }

  lemma EvalLeft(c: Comparison, l: Row, r: Row)
    requires LeftPart(c, |l|)
    ensures Eval(c, l + r) <==> Eval(c, l)
  {
  }

  lemma EvalRight(c: Comparison, l: Row, r: Row)
    ensures Eval(Shift(c, |l|), l + r) <==> Eval(c, r)
  {
  }
}
