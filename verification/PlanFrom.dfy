/** The joins of a FROM, and all of it: every term of every ON and of the WHERE is
    checked at one table or at one join, whatever the costs say
    (src/executor.cpp:443-652). */
module PlanJoins {
  import opened Wrappers
  import opened Sequences
  import opened Rows
  import opened Batches
  import opened JoinSpec
  import opened IndexKeys
  import opened PlanScope
  import opened PlanTree
  import opened PlanAccesses
  import opened Products

  predicate NoDouble(s: seq<OutColumn>) { forall c | 0 <= c < |s| :: !s[c].ctype.Double? }

  /** A key term of a join: both values there, and equal by index key and, for TEXT, by
      the strings. */
  lemma KeyTerm(b: Comparison, sl: seq<OutColumn>, sr: seq<OutColumn>, l: Row, r: Row)
    requires BoundOk(sl + sr, b) && IsKey(b, |sl|) && NoDouble(sl) && NoDouble(sr) && Typed(sl, l) && Typed(sr, r)
    ensures var k := KeyOf(b, |sl|);
            && k.left < |sl| && k.right < |sr| && sl[k.left].ctype.Text? == k.isText == sr[k.right].ctype.Text?
            && var x, y := l[k.left], r[k.right];
               (EvalPair(b, l, r, |sl|) <==>
                !x.isNull && !y.isNull && IndexKey(x) == IndexKey(y) && (k.isText ==> x.text == y.text))
  {
    var k := KeyOf(b, |sl|);
    assert (sl + sr)[k.left] == sl[k.left] && (sl + sr)[|sl| + k.right] == sr[k.right];
    var x, y := l[k.left], r[k.right];
    if !x.isNull && !y.isNull {
      SameIndexKey(k.isText, x, y);
      hide IndexKey, ValueOk;
    }
  }

  function OtherTerms(bound: seq<Comparison>, k: nat): seq<Comparison> requires k < |bound| { bound[..k] + bound[k + 1..] }

  /** A search of the right table by the left row's key. */
  lemma ProbeRight(bound: seq<Comparison>, k: nat, p: Probe, sl: seq<OutColumn>, sr: seq<OutColumn>)
    requires AllBound(sl + sr, bound) && k < |bound| && IsKey(bound[k], |sl|) && NoDouble(sl) && NoDouble(sr)
    requires var key := KeyOf(bound[k], |sl|);
             key.right < |sr| && p == Probe(key.left, key.right, sr[key.right].ctype.Text?, p.innerFilter, OtherTerms(bound, k), false)
    ensures ProbeIs(p, bound, sl, sr)
  {
    hide Typed, Passes, EvalAll, IsKey, KeyOf, IndexKey, BoundOk, NoDouble, EvalPair;
    forall outer: Row, inner: Row ensures ProbeOf(p, bound, sl, sr, outer, inner) {
      if Typed(sl, outer) && Typed(sr, inner) {
        KeyTerm(bound[k], sl, sr, outer, inner);
        TypedSize(sl, outer);
        TypedSize(sr, inner);
        WithoutTerm(bound, k, outer, inner);
      }
    }
  }

  lemma TypedSize(s: seq<OutColumn>, row: Row) requires Typed(s, row) ensures |row| == |s| {}

  /** A search of the left table by the right row's key. */
  lemma ProbeLeft(bound: seq<Comparison>, k: nat, p: Probe, sl: seq<OutColumn>, sr: seq<OutColumn>)
    requires AllBound(sl + sr, bound) && k < |bound| && IsKey(bound[k], |sl|) && NoDouble(sl) && NoDouble(sr)
    requires var key := KeyOf(bound[k], |sl|);
             key.left < |sl| && p == Probe(key.right, key.left, sl[key.left].ctype.Text?, p.innerFilter, OtherTerms(bound, k), true)
    ensures ProbeIs(p, bound, sl, sr)
  {
    hide Typed, Passes, EvalAll, IsKey, KeyOf, IndexKey, BoundOk, NoDouble, EvalPair;
    forall outer: Row, inner: Row ensures ProbeOf(p, bound, sl, sr, outer, inner) {
      if Typed(sl, inner) && Typed(sr, outer) {
        KeyTerm(bound[k], sl, sr, inner, outer);
        TypedSize(sl, inner);
        TypedSize(sr, outer);
        WithoutTerm(bound, k, inner, outer);
      }
    }
  }

  // ---- one join, by any algorithm ----

  datatype Algorithm = LoopJoin | HashRight | HashLeft | SearchRight(term: nat) | SearchLeft(term: nat)

  /** The inputs of a join as the planner has them: a tree for the tables so far, the
      paths of the tables, and what their rows are as bags. */
  ghost predicate Inputs(db: seq<Table>, i: nat, root: Node, right: Node, sl: seq<OutColumn>,
                         a: seq<Comparison>, ls: seq<Row>, b: seq<Comparison>, f: seq<Comparison>)
  {
    && 0 < i < |db| && TableOk(db[i]) && TableOk(db[0]) && NoDouble(sl)
    && AllTyped(sl, ls)
    && multiset(Run(db, root)) == multiset(Kept(a, ls))
    && multiset(Run(db, right)) == multiset(Kept(b, db[i].rows))
    && (i == 1 ==> sl == db[0].schema && Kept(f, db[0].rows) == Kept(a, ls))
  }

  /** What the join must yield. */
  function Joined(bound: seq<Comparison>, n: nat, a: seq<Comparison>, ls: seq<Row>, b: seq<Comparison>, rs: seq<Row>): seq<Row> {
    Loop(Terms(bound, n), false, Kept(a, ls), Kept(b, rs))
  }

  lemma {:induction false} LoopEither(bound: seq<Comparison>, n: nat, l: seq<Row>, l': seq<Row>, r: seq<Row>, r': seq<Row>)
    requires multiset(l) == multiset(l') && multiset(r) == multiset(r')
    ensures multiset(Loop(Terms(bound, n), false, l, r)) == multiset(Loop(Terms(bound, n), false, l', r'))
  {
    LoopBag(Terms(bound, n), false, l, l', r);
    LoopBagOthers(Terms(bound, n), false, l', r, r');
  }

  lemma HashTerms(s: seq<OutColumn>, bound: seq<Comparison>)
    requires AllBound(s, bound) && NoDouble(s)
    ensures NoDoubles(bound)
  {
  }

  lemma NoDoubleBoth(sl: seq<OutColumn>, sr: seq<OutColumn>)
    requires NoDouble(sl) && NoDouble(sr)
    ensures NoDouble(sl + sr)
  {
  }

  /** The operator an algorithm stands for. */
  function Build(alg: Algorithm, i: nat, root: Node, right: Node, bound: seq<Comparison>, sl: seq<OutColumn>, t: Table,
                 t0: Table, b: seq<Comparison>, f: seq<Comparison>): Option<Node>
  {
    var n := |sl|;
    match alg
    case LoopJoin => Some(NestedLoop(root, right, bound, n))
    case HashRight => Some(Hash(root, right, KeysOf(bound, n), ResidualOf(bound, n), n, false))
    case HashLeft => Some(Hash(root, right, KeysOf(bound, n), ResidualOf(bound, n), n, true))
    case SearchRight(k) =>
      if k < |bound| && IsKey(bound[k], n) then
        var key := KeyOf(bound[k], n);
        if key.right < |t.schema| then
          Some(IndexJoin(root, i, Probe(key.left, key.right, t.schema[key.right].ctype.Text?, b, OtherTerms(bound, k), false)))
        else None
      else None
    case SearchLeft(k) =>
      if k < |bound| && IsKey(bound[k], n) then
        var key := KeyOf(bound[k], n);
        if key.left < |t0.schema| then
          Some(IndexJoin(right, 0, Probe(key.right, key.left, t0.schema[key.left].ctype.Text?, f, OtherTerms(bound, k), true)))
        else None
      else None
  }

  /** Whether the planner may offer an algorithm at a join. */
  predicate Offered(alg: Algorithm, i: nat, bound: seq<Comparison>, n: nat, t: Table, t0: Table) {
    match alg
    case LoopJoin => true
    case HashRight => KeysOf(bound, n) != []
    case HashLeft => KeysOf(bound, n) != []
    case SearchRight(k) => k < |bound| && IsKey(bound[k], n) && HasIndexOn(t, KeyOf(bound[k], n).right)
    case SearchLeft(k) => i == 1 && k < |bound| && IsKey(bound[k], n) && HasIndexOn(t0, KeyOf(bound[k], n).left)
  }

  predicate HasIndexOn(t: Table, col: nat) { col < |t.index| && t.index[col].Some? }

  /** Any algorithm the planner may choose yields the rows of the join. */
  lemma {:induction false} JoinSound(alg: Algorithm, db: seq<Table>, i: nat, root: Node, right: Node, sl: seq<OutColumn>, bound: seq<Comparison>,
                  a: seq<Comparison>, ls: seq<Row>, b: seq<Comparison>, f: seq<Comparison>)
    requires Inputs(db, i, root, right, sl, a, ls, b, f) && AllBound(sl + db[i].schema, bound)
    requires Offered(alg, i, bound, |sl|, db[i], db[0])
    ensures Build(alg, i, root, right, bound, sl, db[i], db[0], b, f).Some?
    ensures multiset(Run(db, Build(alg, i, root, right, bound, sl, db[i], db[0], b, f).value))
            == multiset(Joined(bound, |sl|, a, ls, b, db[i].rows))
  {
    hide Loop, Kept, KeysOf, ResidualOf, AllBound, AllTyped, IsKey, KeyOf, TableOk, Run, Joined, NoDouble, OtherTerms;
    match alg
    case LoopJoin => LoopSound(db, i, root, right, sl, bound, a, ls, b);
    case HashRight => HashSound(db, i, root, right, sl, bound, a, ls, b, false);
    case HashLeft => HashSound(db, i, root, right, sl, bound, a, ls, b, true);
    case SearchRight(k) => SearchRightSound(k, db, i, root, sl, bound, a, ls, b);
    case SearchLeft(k) => SearchLeftSound(k, db, right, bound, a, ls, b, f);
  }

  lemma {:induction false} LoopSound(db: seq<Table>, i: nat, root: Node, right: Node, sl: seq<OutColumn>, bound: seq<Comparison>,
                  a: seq<Comparison>, ls: seq<Row>, b: seq<Comparison>)
    requires i < |db| && multiset(Run(db, root)) == multiset(Kept(a, ls)) && multiset(Run(db, right)) == multiset(Kept(b, db[i].rows))
    ensures multiset(Run(db, NestedLoop(root, right, bound, |sl|))) == multiset(Joined(bound, |sl|, a, ls, b, db[i].rows))
  {
    hide Loop, Kept;
    LoopEither(bound, |sl|, Run(db, root), Kept(a, ls), Run(db, right), Kept(b, db[i].rows));
  }

  lemma {:induction false} HashSound(db: seq<Table>, i: nat, root: Node, right: Node, sl: seq<OutColumn>, bound: seq<Comparison>,
                  a: seq<Comparison>, ls: seq<Row>, b: seq<Comparison>, buildLeft: bool)
    requires i < |db| && multiset(Run(db, root)) == multiset(Kept(a, ls)) && multiset(Run(db, right)) == multiset(Kept(b, db[i].rows))
    requires TableOk(db[i]) && NoDouble(sl) && AllBound(sl + db[i].schema, bound)
    ensures multiset(Run(db, Hash(root, right, KeysOf(bound, |sl|), ResidualOf(bound, |sl|), |sl|, buildLeft)))
            == multiset(Joined(bound, |sl|, a, ls, b, db[i].rows))
  {
    hide Loop, Kept, KeysOf, ResidualOf, AllBound, TableOk, NoDouble;
    var n, l, r := |sl|, Run(db, root), Run(db, right);
    LoopEither(bound, n, l, Kept(a, ls), r, Kept(b, db[i].rows));
    TableNoDouble(db[i]);
    NoDoubleBoth(sl, db[i].schema);
    HashTerms(sl + db[i].schema, bound);
    HashJoinIsNestedLoop(bound, n, l, r);
  }

  lemma TableNoDouble(t: Table)
    requires TableOk(t)
    ensures NoDouble(t.schema) && |t.schema| == |t.index| && AllTyped(t.schema, t.rows)
  {
    forall i | 0 <= i < |t.rows| ensures Typed(t.schema, t.rows[i]) { assert RowOk(t.schema, t.rows[i]); }
  }

  lemma TableHeld(t: Table, col: nat)
    requires TableOk(t) && col < |t.schema|
    ensures forall i | 0 <= i < |t.rows| :: Held(t.rows[i], col)
  {
    forall i | 0 <= i < |t.rows| ensures Held(t.rows[i], col) { assert RowOk(t.schema, t.rows[i]); }
  }

  lemma IndexHolds(t: Table, col: nat)
    requires TableOk(t) && HasIndexOn(t, col)
    ensures multiset(t.index[col].value) == multiset(InRange(t.rows, col, 0, LAST_KEY))
  {
    assert IndexOk(t.rows, col, t.index[col].value);
  }

  lemma {:induction false} SearchRightSound(k: nat, db: seq<Table>, i: nat, root: Node, sl: seq<OutColumn>, bound: seq<Comparison>,
                         a: seq<Comparison>, ls: seq<Row>, b: seq<Comparison>)
    requires 0 < i < |db| && TableOk(db[i]) && NoDouble(sl) && AllTyped(sl, ls) && multiset(Run(db, root)) == multiset(Kept(a, ls))
    requires AllBound(sl + db[i].schema, bound) && k < |bound| && IsKey(bound[k], |sl|) && HasIndexOn(db[i], KeyOf(bound[k], |sl|).right)
    ensures var key := KeyOf(bound[k], |sl|);
            key.right < |db[i].schema| &&
            var p := Probe(key.left, key.right, db[i].schema[key.right].ctype.Text?, b, OtherTerms(bound, k), false);
            multiset(Run(db, IndexJoin(root, i, p))) == multiset(Joined(bound, |sl|, a, ls, b, db[i].rows))
  {
    hide Loop, Kept, AllBound, IsKey, KeyOf, SearchAll, TableOk, AllTyped, NoDouble, ProbeIs, InRange;
    var t, key, l := db[i], KeyOf(bound[k], |sl|), Run(db, root);
    TableNoDouble(t);
    TableHeld(t, key.right);
    var p := Probe(key.left, key.right, t.schema[key.right].ctype.Text?, b, OtherTerms(bound, k), false);
    ProbeRight(bound, k, p, sl, t.schema);
    IndexHolds(t, key.right);
    SearchEntries(p, l, t.index[key.right].value, t.rows);
    KeptTyped(sl, a, ls);
    TypedBag(sl, l, Kept(a, ls));
    IndexJoinIsLoop(p, bound, sl, t.schema, l, t.rows);
    LoopBag(Terms(bound, |sl|), false, l, Kept(a, ls), Kept(b, t.rows));
  }

  lemma {:induction false} KeptTyped(s: seq<OutColumn>, terms: seq<Comparison>, rows: seq<Row>)
    requires AllTyped(s, rows)
    ensures AllTyped(s, Kept(terms, rows))
  {
    KeptIsWhere(terms, rows);
    WhereTyped(s, r => Passes(terms, r), rows);
  }

  lemma {:induction false} SearchLeftSound(k: nat, db: seq<Table>, right: Node, bound: seq<Comparison>,
                        a: seq<Comparison>, ls: seq<Row>, b: seq<Comparison>, f: seq<Comparison>)
    requires 1 < |db| && TableOk(db[0]) && TableOk(db[1]) && multiset(Run(db, right)) == multiset(Kept(b, db[1].rows))
    requires Kept(f, db[0].rows) == Kept(a, ls)
    requires AllBound(db[0].schema + db[1].schema, bound) && k < |bound| && IsKey(bound[k], |db[0].schema|)
    requires HasIndexOn(db[0], KeyOf(bound[k], |db[0].schema|).left)
    ensures var key := KeyOf(bound[k], |db[0].schema|);
            key.left < |db[0].schema| &&
            var p := Probe(key.right, key.left, db[0].schema[key.left].ctype.Text?, f, OtherTerms(bound, k), true);
            multiset(Run(db, IndexJoin(right, 0, p))) == multiset(Joined(bound, |db[0].schema|, a, ls, b, db[1].rows))
  {
    hide Loop, Kept, AllBound, IsKey, KeyOf, SearchAll, TableOk, AllTyped, NoDouble, ProbeIs, InRange;
    var t, sl, r := db[0], db[0].schema, Run(db, right);
    var key := KeyOf(bound[k], |sl|);
    TableNoDouble(t);
    TableNoDouble(db[1]);
    TableHeld(t, key.left);
    var p := Probe(key.right, key.left, sl[key.left].ctype.Text?, f, OtherTerms(bound, k), true);
    ProbeLeft(bound, k, p, sl, db[1].schema);
    IndexHolds(t, key.left);
    SearchEntries(p, r, t.index[key.left].value, t.rows);
    KeptTyped(db[1].schema, b, db[1].rows);
    TypedBag(db[1].schema, r, Kept(b, db[1].rows));
    IndexJoinIsLoop(p, bound, sl, db[1].schema, r, t.rows);
    LoopBag(Terms(bound, |sl|), true, r, Kept(b, db[1].rows), Kept(f, t.rows));
    SwappedLoop(Terms(bound, |sl|), Kept(f, t.rows), Kept(b, db[1].rows));
  }

  // ---- scopes ----

  /** The columns of the first `n` tables. */
  function Scope(db: seq<Table>, n: nat): seq<OutColumn>
    requires n <= |db|
  {
    if n == 0 then [] else Scope(db, n - 1) + db[n - 1].schema
  }

  function After(db: seq<Table>, m: nat, n: nat): seq<OutColumn>
    requires m <= n <= |db|
    decreases n
  {
    if m == n then [] else After(db, m, n - 1) + db[n - 1].schema
  }

  lemma {:induction false} ScopeSplits(db: seq<Table>, m: nat, n: nat)
    requires m <= n <= |db|
    ensures Scope(db, n) == Scope(db, m) + After(db, m, n)
  {
    if m == n {
      assert Scope(db, m) + [] == Scope(db, m);
    } else {
      ScopeSplits(db, m, n - 1);
      Assoc(Scope(db, m), After(db, m, n - 1), db[n - 1].schema);
    }
  }

  /** A term as written, and how many tables it sees: an ON sees those joined so far. */
  datatype Written = Written(term: Term, scope: nat)

  /** A term and the tables its two sides name. */
  datatype Term2 = Term2(term: Term, left: nat, right: nat) {
    function Last(): nat { if left < right then right else left }
  }

  /** A column of the scope, by its position, is a column of one table. */
  predicate Owns(db: seq<Table>, i: nat, pos: nat) { i < |db| && |Scope(db, i)| <= pos < |Scope(db, i + 1)| }

  /** A term bound where it was written, and where that puts it. */
  ghost predicate Placed(db: seq<Table>, t: Term2, g: Comparison) {
    && TermOk(t.term) && Owns(db, t.left, g.left) && (if g.rightIsColumn then Owns(db, t.right, g.right) else t.right == t.left)
    && exists s :: BoundIn(db, t, s, g)
  }

  predicate BoundIn(db: seq<Table>, t: Term2, s: nat, g: Comparison) { t.Last() < s <= |db| && Bind(Scope(db, s), t.term) == Some(g) }

  lemma {:induction false} OwnsBefore(db: seq<Table>, i: nat, pos: nat, n: nat)
    requires Owns(db, i, pos) && i < n <= |db|
    ensures pos < |Scope(db, n)|
  {
    ScopeSplits(db, i + 1, n);
  }

  /** A term bound again in the scope of the tables up to its last is the same. (In a
      larger scope its names could be ambiguous.) */
  lemma BoundHere(db: seq<Table>, t: Term2, g: Comparison)
    requires Placed(db, t, g)
    ensures t.Last() < |db| && Bind(Scope(db, t.Last() + 1), t.term) == Some(g) && LeftPart(g, |Scope(db, t.Last() + 1)|)
  {
    hide Bind;
    var s :| BoundIn(db, t, s, g);
    var n := t.Last() + 1;
    OwnsBefore(db, t.left, g.left, n);
    if g.rightIsColumn { OwnsBefore(db, t.right, g.right, n); }
    ScopeSplits(db, n, s);
    BindPart(Scope(db, n), After(db, n, s), t.term);
  }

  /** A term that names one table is bound in that table's own columns. */
  lemma {:induction false} BoundLocal(db: seq<Table>, t: Term2, g: Comparison)
    requires Placed(db, t, g) && t.left == t.right
    ensures t.left < |db| && Bind(db[t.left].schema, t.term).Some?
    ensures Shift(Bind(db[t.left].schema, t.term).value, |Scope(db, t.left)|) == g
  {
    hide Bind;
    BoundHere(db, t, g);
    BindPart(Scope(db, t.left), db[t.left].schema, t.term);
  }

  // ---- the terms of a query ----

  datatype Query = Query(ons: seq<seq<Term>>, filter: seq<Term>)

  function Mark(ts: seq<Term>, scope: nat): seq<Written> { seq(|ts|, i requires 0 <= i < |ts| => Written(ts[i], scope)) }

  function OnTerms(ons: seq<seq<Term>>, j: nat): seq<Written>
    requires j <= |ons|
  {
    if j == 0 then [] else OnTerms(ons, j - 1) + Mark(ons[j - 1], j + 1)
  }

  /** Every ON, then the WHERE, which sees every table. */
  function AllTerms(q: Query): seq<Written> { OnTerms(q.ons, |q.ons|) + Mark(q.filter, |q.ons| + 1) }

  /** Each term bound where it was written, or None if one cannot be. */
  function BindWritten(db: seq<Table>, ws: seq<Written>): Option<seq<Comparison>> {
    if ws == [] then Some([])
    else
      var w := ws[|ws| - 1];
      match (BindWritten(db, ws[..|ws| - 1]), if w.scope <= |db| then Bind(Scope(db, w.scope), w.term) else None)
      case (Some(gs), Some(g)) => Some(gs + [g])
      case _ => None
  }

  lemma {:induction false} WrittenMore(db: seq<Table>, ws: seq<Written>, w: Written)
    requires w.scope <= |db|
    ensures BindWritten(db, ws + [w]) ==
            if BindWritten(db, ws).Some? && Bind(Scope(db, w.scope), w.term).Some?
            then Some(BindWritten(db, ws).value + [Bind(Scope(db, w.scope), w.term).value]) else None
  {
    assert (ws + [w])[..|ws|] == ws;
  }

  lemma {:induction false} WrittenFails(db: seq<Table>, ws: seq<Written>, more: seq<Written>)
    requires BindWritten(db, ws) == None
    ensures BindWritten(db, ws + more) == None
  {
    if more == [] {
      assert ws + more == ws;
    } else {
      var n := |more| - 1;
      WrittenFails(db, ws, more[..n]);
      assert (ws + more)[..|ws + more| - 1] == ws + more[..n];
    }
  }

  /** The terms gathered, with where each stands in the scope. */
  ghost predicate Gathered(db: seq<Table>, ws: seq<Written>, terms: seq<Term2>, gs: seq<Comparison>) {
    && |ws| == |terms| == |gs| && BindWritten(db, ws) == Some(gs)
    && forall k | 0 <= k < |terms| :: Placed(db, terms[k], gs[k])
  }

  lemma {:induction false} GatheredMore(db: seq<Table>, ws: seq<Written>, terms: seq<Term2>, gs: seq<Comparison>, w: Written, t: Term2, g: Comparison)
    requires Gathered(db, ws, terms, gs) && w.scope <= |db| && Bind(Scope(db, w.scope), w.term) == Some(g) && Placed(db, t, g)
    ensures Gathered(db, ws + [w], terms + [t], gs + [g])
  {
    hide Placed, Bind;
    WrittenMore(db, ws, w);
  }

  /** Where each table's columns begin. */
  method Offsets(db: seq<Table>) returns (offset: seq<nat>)
    ensures |offset| == |db| + 1 && forall i | 0 <= i <= |db| :: offset[i] == |Scope(db, i)|
  {
    offset := [0];
    for i := 0 to |db|
      invariant |offset| == i + 1 && forall j | 0 <= j <= i :: offset[j] == |Scope(db, j)|
    {
      offset := offset + [offset[i] + |db[i].schema|];
    }
  }

  /** The table a position belongs to. */
  method Owner(db: seq<Table>, offset: seq<nat>, pos: nat, ghost n: nat) returns (i: nat)
    requires |offset| == |db| + 1 && (forall j | 0 <= j <= |db| :: offset[j] == |Scope(db, j)|)
    requires n <= |db| && pos < |Scope(db, n)|
    ensures Owns(db, i, pos) && i < n
  {
    i := 0;
    while pos >= offset[i + 1]
      invariant i < n && offset[i] <= pos
      decreases n - i
    {
      if i + 1 == n { assert false; }
      i := i + 1;
    }
  }

  /** The terms of one clause. */
  method AddTerms(db: seq<Table>, offset: seq<nat>, scope: seq<OutColumn>, ghost n: nat, cs: seq<Term>, terms: seq<Term2>,
                  ghost ws: seq<Written>, ghost gs: seq<Comparison>)
    returns (ok: bool, all: seq<Term2>, ghost more: seq<Comparison>)
    requires |offset| == |db| + 1 && (forall j | 0 <= j <= |db| :: offset[j] == |Scope(db, j)|)
    requires n <= |db| && scope == Scope(db, n) && Gathered(db, ws, terms, gs) && forall k | 0 <= k < |cs| :: TermOk(cs[k])
    ensures ok ==> Gathered(db, ws + Mark(cs, n), all, more)
    ensures !ok ==> BindWritten(db, ws + Mark(cs, n)) == None
  {
    hide Gathered, Bind, Placed, TermOk, Mark;
    all, more := terms, gs;
    MarkMore(cs, n, 0);
    assert ws + [] == ws;
    for k := 0 to |cs|
      invariant Gathered(db, ws + Mark(cs[..k], n), all, more)
    {
      MarkMore(cs, n, k);
      ghost var w, before := Written(cs[k], n), ws + Mark(cs[..k], n);
      assert before + [w] == ws + Mark(cs[..k + 1], n);
      var b := Bind(scope, cs[k]);
      if b.None? {
        MarkRest(cs, n, k, ws);
        WrittenMore(db, before, w);
        WrittenFails(db, before + [w], Mark(cs[k + 1..], n));
        return false, all, more;
      }
      BindInside(scope, cs[k]);
      var left := Owner(db, offset, b.value.left, n);
      var right := left;
      if b.value.rightIsColumn { right := Owner(db, offset, b.value.right, n); }
      PlacedIs(db, Term2(cs[k], left, right), n, b.value);
      GatheredMore(db, before, all, more, w, Term2(cs[k], left, right), b.value);
      all := all + [Term2(cs[k], left, right)];
      more := more + [b.value];
    }
    assert cs[..|cs|] == cs;
    ok := true;
  }

  lemma BindInside(s: seq<OutColumn>, t: Term)
    requires Bind(s, t).Some?
    ensures Bind(s, t).value.left < |s| && (Bind(s, t).value.rightIsColumn ==> Bind(s, t).value.right < |s|)
  {
  }

  lemma {:induction false} PlacedIs(db: seq<Table>, t: Term2, n: nat, g: Comparison)
    requires TermOk(t.term) && Owns(db, t.left, g.left) && (if g.rightIsColumn then Owns(db, t.right, g.right) else t.right == t.left)
    requires t.Last() < n <= |db| && Bind(Scope(db, n), t.term) == Some(g)
    ensures Placed(db, t, g)
  {
    assert BoundIn(db, t, n, g);
  }

  lemma MarkMore(cs: seq<Term>, n: nat, k: nat)
    ensures Mark(cs[..0], n) == []
    ensures k < |cs| ==> Mark(cs[..k + 1], n) == Mark(cs[..k], n) + [Written(cs[k], n)]
  {
  }

  lemma MarkRest(cs: seq<Term>, n: nat, k: nat, ws: seq<Written>)
    requires k < |cs|
    ensures ws + Mark(cs, n) == ws + Mark(cs[..k], n) + [Written(cs[k], n)] + Mark(cs[k + 1..], n)
  {
  }

  // ---- which terms are checked where ----

  predicate IsLocal(t: Term2, i: nat) { t.left == t.right == i }
  predicate IsHere(t: Term2, i: nat) { t.left != t.right && t.Last() == i }

  /** The terms that name one table only. */
  function Local(terms: seq<Term2>, i: nat): seq<Term> {
    if terms == [] then []
    else Local(terms[..|terms| - 1], i) + if IsLocal(terms[|terms| - 1], i) then [terms[|terms| - 1].term] else []
  }

  /** The others. */
  function CrossTerms(terms: seq<Term2>): seq<Term2> {
    if terms == [] then []
    else CrossTerms(terms[..|terms| - 1]) + if terms[|terms| - 1].left != terms[|terms| - 1].right then [terms[|terms| - 1]] else []
  }

  /** Those that table `i` makes checkable. */
  function Here(terms: seq<Term2>, i: nat): seq<Term> {
    if terms == [] then []
    else Here(terms[..|terms| - 1], i) + if IsHere(terms[|terms| - 1], i) then [terms[|terms| - 1].term] else []
  }

  /** The comparisons of the terms whose last table is at most `i`. */
  function Upto(terms: seq<Term2>, gs: seq<Comparison>, i: nat): seq<Comparison>
    requires |terms| == |gs|
  {
    if terms == [] then []
    else
      var n := |terms| - 1;
      Upto(terms[..n], gs[..n], i) + if terms[n].Last() <= i then [gs[n]] else []
  }

  ghost predicate AllPlaced(db: seq<Table>, terms: seq<Term2>, gs: seq<Comparison>) {
    |terms| == |gs| && forall k | 0 <= k < |terms| :: Placed(db, terms[k], gs[k])
  }

  lemma FewerPlaced(db: seq<Table>, terms: seq<Term2>, gs: seq<Comparison>)
    requires AllPlaced(db, terms, gs) && terms != []
    ensures AllPlaced(db, terms[..|terms| - 1], gs[..|terms| - 1]) && Placed(db, terms[|terms| - 1], gs[|terms| - 1])
  {
    hide Placed;
  }

  lemma PassesLast(terms: seq<Comparison>, c: Comparison, row: Row)
    ensures Passes(terms + [c], row) <==> Passes(terms, row) && Eval(c, row)
  {
    hide Eval;
    var all := terms + [c];
    if Passes(all, row) {
      assert all[|terms|] == c;
      forall k | 0 <= k < |terms| ensures Eval(terms[k], row) { assert all[k] == terms[k]; }
    }
  }

  lemma {:induction false} BindLast(s: seq<OutColumn>, terms: seq<Term>, t: Term)
    ensures BindAll(s, terms + [t]) ==
            if BindAll(s, terms).Some? && Bind(s, t).Some? then Some(BindAll(s, terms).value + [Bind(s, t).value]) else None
  {
    assert (terms + [t])[..|terms|] == terms;
  }

  /** A table's own terms can be bound in its columns, and mean there what they meant
      where they were written. */
  lemma {:induction false} LocalMeans(db: seq<Table>, terms: seq<Term2>, gs: seq<Comparison>, i: nat, l: Row, r: Row)
    requires AllPlaced(db, terms, gs) && i < |db| && |l| == |Scope(db, i)|
    ensures BindAll(db[i].schema, Local(terms, i)).Some?
    ensures Passes(BindAll(db[i].schema, Local(terms, i)).value, r) <==>
            forall k | 0 <= k < |terms| && IsLocal(terms[k], i) :: Eval(gs[k], l + r)
  {
    hide Placed, Eval, Passes, Bind, AllPlaced, BindAll;
    if terms == [] {
      BindNothing(db[i].schema, r);
    } else {
      var n := |terms| - 1;
      PlacedSize(db, terms, gs);
      FewerPlaced(db, terms, gs);
      LocalMeans(db, terms[..n], gs[..n], i, l, r);
      if IsLocal(terms[n], i) {
        BoundLocal(db, terms[n], gs[n]);
        BindLast(db[i].schema, Local(terms[..n], i), terms[n].term);
        var c := Bind(db[i].schema, terms[n].term).value;
        PassesLast(BindAll(db[i].schema, Local(terms[..n], i)).value, c, r);
        EvalRight(c, l, r);
      } else {
        assert Local(terms[..n], i) + [] == Local(terms[..n], i);
      }
      EachOf(terms, gs, n, l + r, x => IsLocal(x, i));
    }
  }

  lemma PlacedSize(db: seq<Table>, terms: seq<Term2>, gs: seq<Comparison>) requires AllPlaced(db, terms, gs) ensures |terms| == |gs| {}

  lemma {:induction false} BindNothing(s: seq<OutColumn>, r: Row)
    ensures BindAll(s, []) == Some([]) && Passes([], r)
  {
  }

  lemma EachOf(terms: seq<Term2>, gs: seq<Comparison>, n: nat, row: Row, f: Term2 -> bool)
    requires |terms| == |gs| == n + 1
    ensures (forall k | 0 <= k < n + 1 && f(terms[k]) :: Eval(gs[k], row)) <==>
            (forall k | 0 <= k < n && f(terms[..n][k]) :: Eval(gs[..n][k], row)) && (f(terms[n]) ==> Eval(gs[n], row))
  {
    hide Eval;
    if forall k | 0 <= k < n + 1 && f(terms[k]) :: Eval(gs[k], row) {
      forall k | 0 <= k < n && f(terms[..n][k]) ensures Eval(gs[..n][k], row) { assert terms[k] == terms[..n][k] && gs[k] == gs[..n][k]; }
    }
    if (forall k | 0 <= k < n && f(terms[..n][k]) :: Eval(gs[..n][k], row)) && (f(terms[n]) ==> Eval(gs[n], row)) {
      forall k | 0 <= k < n + 1 && f(terms[k]) ensures Eval(gs[k], row) { if k < n { assert terms[k] == terms[..n][k] && gs[k] == gs[..n][k]; } }
    }
  }

  /** The terms a join checks mean in its scope what they meant where they were written. */
  lemma {:induction false} HereMeans(db: seq<Table>, terms: seq<Term2>, gs: seq<Comparison>, i: nat, row: Row)
    requires AllPlaced(db, terms, gs) && i < |db|
    ensures BindAll(Scope(db, i + 1), Here(terms, i)).Some?
    ensures Passes(BindAll(Scope(db, i + 1), Here(terms, i)).value, row) <==>
            forall k | 0 <= k < |terms| && IsHere(terms[k], i) :: Eval(gs[k], row)
  {
    hide Placed, Eval, Passes, Bind, AllPlaced, BindAll, Scope;
    if terms == [] {
      BindNothing(Scope(db, i + 1), row);
    } else {
      var n := |terms| - 1;
      PlacedSize(db, terms, gs);
      FewerPlaced(db, terms, gs);
      HereMeans(db, terms[..n], gs[..n], i, row);
      if IsHere(terms[n], i) {
        BoundHere(db, terms[n], gs[n]);
        BindLast(Scope(db, i + 1), Here(terms[..n], i), terms[n].term);
        PassesLast(BindAll(Scope(db, i + 1), Here(terms[..n], i)).value, gs[n], row);
      } else {
        assert Here(terms[..n], i) + [] == Here(terms[..n], i);
      }
      EachOf(terms, gs, n, row, x => IsHere(x, i));
    }
  }

  lemma {:induction false} UptoMeans(terms: seq<Term2>, gs: seq<Comparison>, i: nat, row: Row)
    requires |terms| == |gs|
    ensures Passes(Upto(terms, gs, i), row) <==> forall k | 0 <= k < |terms| && terms[k].Last() <= i :: Eval(gs[k], row)
  {
    hide Eval, Passes;
    if terms == [] {
      BindNothing([], row);
    } else {
      var n := |terms| - 1;
      UptoMeans(terms[..n], gs[..n], i, row);
      PassesLast(Upto(terms[..n], gs[..n], i), gs[n], row);
      if terms[n].Last() > i { assert Upto(terms[..n], gs[..n], i) + [] == Upto(terms[..n], gs[..n], i); }
      EachOf(terms, gs, n, row, (x: Term2) => x.Last() <= i);
    }
  }

  lemma {:induction false} UptoAll(terms: seq<Term2>, gs: seq<Comparison>, i: nat)
    requires |terms| == |gs| && forall k | 0 <= k < |terms| :: terms[k].Last() <= i
    ensures Upto(terms, gs, i) == gs
  {
    if terms != [] {
      var n := |terms| - 1;
      UptoAll(terms[..n], gs[..n], i);
      assert gs == gs[..n] + [gs[n]];
    }
  }

  lemma EvalAllIsPasses(on: seq<Comparison>, l: Row, r: Row)
    ensures EvalAll(on, l, r, |l|) <==> Passes(on, l + r)
  {
    hide Eval, EvalPair;
    forall k | 0 <= k < |on| ensures EvalPair(on[k], l, r, |l|) <==> Eval(on[k], l + r) { PairIsJoined(on[k], l, r); }
    if Passes(on, l + r) { forall k | 0 <= k < |on| ensures EvalPair(on[k], l, r, |l|) { assert Eval(on[k], l + r); } }
    if EvalAll(on, l, r, |l|) { forall k | 0 <= k < |on| ensures Eval(on[k], l + r) { assert EvalPair(on[k], l, r, |l|); } }
  }

  /** Every term with its last table at most `i` is one checked before table `i`, one of
      the table's own, or one checked at its join. */
  lemma PairFactors(db: seq<Table>, terms: seq<Term2>, gs: seq<Comparison>, i: nat, l: Row, r: Row)
    requires AllPlaced(db, terms, gs) && 0 < i < |db| && |l| == |Scope(db, i)|
    ensures BindAll(db[i].schema, Local(terms, i)).Some? && BindAll(Scope(db, i + 1), Here(terms, i)).Some? && |terms| == |gs|
    ensures Passes(Upto(terms, gs, i), l + r) <==>
            && Passes(Upto(terms, gs, i - 1), l) && Passes(BindAll(db[i].schema, Local(terms, i)).value, r)
            && EvalAll(BindAll(Scope(db, i + 1), Here(terms, i)).value, l, r, |l|)
  {
    hide Eval, Passes, Upto, BindAll, Local, Here, Scope, EvalAll, AllPlaced;
    PlacedSize(db, terms, gs);
    LocalMeans(db, terms, gs, i, l, r);
    HereMeans(db, terms, gs, i, l + r);
    UptoMeans(terms, gs, i, l + r);
    UptoMeans(terms, gs, i - 1, l);
    EvalAllIsPasses(BindAll(Scope(db, i + 1), Here(terms, i)).value, l, r);
    forall k | 0 <= k < |terms| && terms[k].Last() <= i - 1 ensures Eval(gs[k], l + r) <==> Eval(gs[k], l) {
      EarlierLeft(db, terms, gs, k, i);
      EvalLeft(gs[k], l, r);
    }
    assert forall k | 0 <= k < |terms| :: terms[k].Last() <= i <==> terms[k].Last() <= i - 1 || IsLocal(terms[k], i) || IsHere(terms[k], i);
  }

  lemma {:induction false} EarlierLeft(db: seq<Table>, terms: seq<Term2>, gs: seq<Comparison>, k: nat, i: nat)
    requires AllPlaced(db, terms, gs) && k < |terms| && terms[k].Last() < i < |db|
    ensures LeftPart(gs[k], |Scope(db, i)|)
  {
    assert Placed(db, terms[k], gs[k]);
    OwnsBefore(db, terms[k].left, gs[k].left, i);
    if gs[k].rightIsColumn { OwnsBefore(db, terms[k].right, gs[k].right, i); }
  }

  lemma {:induction false} JoinFactors(db: seq<Table>, terms: seq<Term2>, gs: seq<Comparison>, i: nat)
    requires AllPlaced(db, terms, gs) && 0 < i < |db|
    ensures BindAll(db[i].schema, Local(terms, i)).Some? && BindAll(Scope(db, i + 1), Here(terms, i)).Some? && |terms| == |gs|
    ensures Factors(Upto(terms, gs, i), Upto(terms, gs, i - 1), BindAll(db[i].schema, Local(terms, i)).value,
                    BindAll(Scope(db, i + 1), Here(terms, i)).value, |Scope(db, i)|, |db[i].schema|)
  {
    hide Eval, Passes, Upto, BindAll, Local, Here, Scope, EvalAll, AllPlaced;
    PlacedSize(db, terms, gs);
    LocalMeans(db, terms, gs, i, seq(|Scope(db, i)|, x => NULL_FIELD), []);
    HereMeans(db, terms, gs, i, []);
    forall l: Row, r: Row | |l| == |Scope(db, i)| && |r| == |db[i].schema|
      ensures Passes(Upto(terms, gs, i), l + r) <==>
              && Passes(Upto(terms, gs, i - 1), l) && Passes(BindAll(db[i].schema, Local(terms, i)).value, r)
              && EvalAll(BindAll(Scope(db, i + 1), Here(terms, i)).value, l, r, |Scope(db, i)|)
    {
      PairFactors(db, terms, gs, i, l, r);
    }
  }

  /** The first table's own terms are all there is to check on it. */
  lemma {:induction false} FirstTable(db: seq<Table>, terms: seq<Term2>, gs: seq<Comparison>)
    requires AllPlaced(db, terms, gs) && 0 < |db|
    ensures BindAll(db[0].schema, Local(terms, 0)).Some? && |terms| == |gs|
    ensures Kept(BindAll(db[0].schema, Local(terms, 0)).value, db[0].rows) == Kept(Upto(terms, gs, 0), db[0].rows)
  {
    hide Eval, Passes, Upto, BindAll, Local, AllPlaced, Kept;
    PlacedSize(db, terms, gs);
    LocalMeans(db, terms, gs, 0, [], []);
    var own, upto := BindAll(db[0].schema, Local(terms, 0)).value, Upto(terms, gs, 0);
    forall i | 0 <= i < |db[0].rows| ensures Passes(own, db[0].rows[i]) <==> Passes(upto, db[0].rows[i]) {
      var r := db[0].rows[i];
      LocalMeans(db, terms, gs, 0, [], r);
      UptoMeans(terms, gs, 0, r);
      assert [] + r == r;
    }
    KeptIsWhere(own, db[0].rows);
    KeptIsWhere(upto, db[0].rows);
    WhereSame(r => Passes(own, r), r => Passes(upto, r), db[0].rows);
  }

  // ---- the planner ----

  /** Every row of the tables' product that passes every term, whatever the order. */
  function Wanted(db: seq<Table>, gs: seq<Comparison>): seq<Row> { Kept(gs, Cross(db)) }

  /** Pushdown: a term that names one table is checked as that table is read. */
  method Pushdown(n: nat, terms: seq<Term2>) returns (local: seq<seq<Term>>, cross: seq<Term2>)
    requires forall k | 0 <= k < |terms| :: terms[k].left < n && terms[k].right < n
    ensures |local| == n && (forall i | 0 <= i < n :: local[i] == Local(terms, i)) && cross == CrossTerms(terms)
  {
    local, cross := seq(n, i => []), [];
    assert terms[..0] == [];
    for k := 0 to |terms|
      invariant |local| == n && (forall i | 0 <= i < n :: local[i] == Local(terms[..k], i)) && cross == CrossTerms(terms[..k])
    {
      var t := terms[k];
      assert terms[..k + 1][..k] == terms[..k];
      if t.left == t.right {
        local := local[t.left := local[t.left] + [t.term]];
        assert cross + [] == cross;
      } else {
        cross := cross + [t];
      }
      assert forall i | 0 <= i < n && !IsLocal(t, i) :: Local(terms[..k], i) + [] == Local(terms[..k], i);
    }
    assert terms[..|terms|] == terms;
  }

  /** The cross terms that table `i` makes checkable: not placed yet, and naming no later
      table. */
  method TermsHere(cross: seq<Term2>, i: nat, placed: seq<bool>, ghost terms: seq<Term2>) returns (here: seq<Term>, all: seq<bool>)
    requires |placed| == |cross| && (forall k | 0 <= k < |cross| :: placed[k] <==> cross[k].Last() < i) && cross == CrossTerms(terms)
    ensures here == Here(terms, i) && |all| == |cross| && forall k | 0 <= k < |cross| :: all[k] <==> cross[k].Last() < i + 1
  {
    here, all := [], placed;
    assert cross[..0] == [];
    HereNone(i);
    hide CrossTerms, Here;
    HereOfCross(terms, i);
    AllCross(terms);
    for k := 0 to |cross|
      invariant |all| == |cross| && here == Here(cross[..k], i)
      invariant forall j | 0 <= j < k :: all[j] <==> cross[j].Last() < i + 1
      invariant forall j | k <= j < |cross| :: all[j] <==> cross[j].Last() < i
    {
      HereNext(cross, i, k);
      if !all[k] && cross[k].left <= i && cross[k].right <= i {
        here := here + [cross[k].term];
        all := all[k := true];
      }
    }
    assert cross[..|cross|] == cross;
  }

  lemma {:induction false} HereNone(i: nat) ensures Here([], i) == [] {}

  lemma {:induction false} HereNext(cross: seq<Term2>, i: nat, k: nat)
    requires k < |cross|
    ensures Here(cross[..k + 1], i) == if cross[k].left != cross[k].right && cross[k].Last() == i then Here(cross[..k], i) + [cross[k].term] else Here(cross[..k], i)
  {
    assert cross[..k + 1][..k] == cross[..k];
    assert Here(cross[..k], i) + [] == Here(cross[..k], i);
  }

  lemma {:induction false} HereOfCross(terms: seq<Term2>, i: nat)
    ensures Here(CrossTerms(terms), i) == Here(terms, i)
  {
    if terms != [] {
      var n := |terms| - 1;
      HereOfCross(terms[..n], i);
      var some, t := CrossTerms(terms[..n]), terms[n];
      if t.left != t.right { assert (some + [t])[..|some|] == some; } else { assert some + [] == some; assert Here(some, i) + [] == Here(some, i); }
    }
  }

  lemma {:induction false} AllCross(terms: seq<Term2>)
    ensures forall k | 0 <= k < |CrossTerms(terms)| :: CrossTerms(terms)[k].left != CrossTerms(terms)[k].right
  {
    if terms != [] { AllCross(terms[..|terms| - 1]); }
  }

  /** The terms a join checks, bound in its scope. */
  method BindHere(s: seq<OutColumn>, here: seq<Term>) returns (bound: seq<Comparison>)
    requires BindAll(s, here).Some? && forall k | 0 <= k < |here| :: TermOk(here[k])
    ensures BindAll(s, here) == Some(bound) && AllBound(s, bound)
  {
    hide Bind, AllBound, BindAll, TermOk;
    bound := [];
    BindNone(s, here);
    for k := 0 to |here|
      invariant BindAll(s, here[..k]) == Some(bound) && AllBound(s, bound)
    {
      BindMore(s, here, k);
      if BindAll(s, here[..k + 1]) == None { BindFails(s, here, k + 1); }
      AllBoundMore(s, bound, here[k]);
      bound := bound + [Bind(s, here[k]).value];
    }
    assert here[..|here|] == here;
  }

  /** The ways to join that the terms and the indexes allow. */
  method Options(i: nat, bound: seq<Comparison>, n: nat, t: Table, t0: Table) returns (options: seq<Algorithm>)
    requires |t.schema| == |t.index| && |t0.schema| == |t0.index|
    ensures options != [] && forall o | o in options :: Offered(o, i, bound, n, t, t0)
  {
    hide KeysOf, IsKey;
    options := [LoopJoin];
    var keys, _ := SplitOn(bound, n);
    if keys != [] { options := options + [HashRight, HashLeft]; }
    for k := 0 to |bound|
      invariant options != [] && forall o | o in options :: Offered(o, i, bound, n, t, t0)
    {
      if IsKey(bound[k], n) {
        var key := KeyOf(bound[k], n);
        if HasIndexOn(t, key.right) { options := options + [SearchRight(k)]; }
        if i == 1 && HasIndexOn(t0, key.left) { options := options + [SearchLeft(k)]; }
      }
    }
  }

  ghost predicate TablesOk(db: seq<Table>) { forall i | 0 <= i < |db| :: TableOk(db[i]) }

  lemma {:induction false} CrossTyped(db: seq<Table>, n: nat)
    requires TablesOk(db) && 0 < n <= |db|
    ensures AllTyped(Scope(db, n), Cross(db[..n])) && NoDouble(Scope(db, n))
    ensures n == 1 ==> Scope(db, n) == db[0].schema && Cross(db[..n]) == db[0].rows
    ensures n > 1 ==> Cross(db[..n]) == Loop(Terms([], 0), false, Cross(db[..n - 1]), db[n - 1].rows)
    decreases n
  {
    hide TableOk, AllTyped, NoDouble, Loop;
    TableNoDouble(db[n - 1]);
    if n == 1 {
      assert Scope(db, 0) + db[0].schema == db[0].schema;
    } else {
      CrossTyped(db, n - 1);
      assert db[..n][..n - 1] == db[..n - 1];
      LoopTyped(Terms([], 0), Scope(db, n - 1), db[n - 1].schema, Cross(db[..n - 1]), db[n - 1].rows);
      NoDoubleBoth(Scope(db, n - 1), db[n - 1].schema);
    }
  }

  /** A path that yields the rows of a table its own terms allow. */
  ghost predicate PathOk(db: seq<Table>, terms: seq<Term2>, i: nat, op: Node) {
    && i < |db| && BindAll(db[i].schema, Local(terms, i)).Some?
    && multiset(Run(db, op)) == multiset(Kept(BindAll(db[i].schema, Local(terms, i)).value, db[i].rows))
  }

  /** A tree that yields the rows of the first `n` tables that every term on them
      allows. */
  ghost predicate RootOk(db: seq<Table>, terms: seq<Term2>, gs: seq<Comparison>, n: nat, root: Node) {
    && 0 < n <= |db| && |terms| == |gs|
    && multiset(Run(db, root)) == multiset(Kept(Upto(terms, gs, n - 1), Cross(db[..n])))
  }

  lemma FirstRoot(db: seq<Table>, terms: seq<Term2>, gs: seq<Comparison>, op: Node)
    requires TablesOk(db) && AllPlaced(db, terms, gs) && 0 < |db| && PathOk(db, terms, 0, op)
    ensures RootOk(db, terms, gs, 1, op)
  {
    hide AllPlaced, Local, Upto, BindAll, Kept;
    FirstTable(db, terms, gs);
    CrossTyped(db, 1);
  }

  /** One table more, joined by any algorithm on offer. */
  lemma {:induction false} JoinStep(db: seq<Table>, terms: seq<Term2>, gs: seq<Comparison>, i: nat, root: Node, right: Node, alg: Algorithm, bound: seq<Comparison>)
    requires TablesOk(db) && AllPlaced(db, terms, gs) && 0 < i < |db|
    requires RootOk(db, terms, gs, i, root) && PathOk(db, terms, i, right)
    requires BindAll(Scope(db, i + 1), Here(terms, i)) == Some(bound) && AllBound(Scope(db, i + 1), bound)
    requires Offered(alg, i, bound, |Scope(db, i)|, db[i], db[0])
    ensures BindAll(db[i].schema, Local(terms, i)).Some? && BindAll(db[0].schema, Local(terms, 0)).Some?
    ensures var op := Build(alg, i, root, right, bound, Scope(db, i), db[i], db[0], BindAll(db[i].schema, Local(terms, i)).value,
                            BindAll(db[0].schema, Local(terms, 0)).value);
            op.Some? && RootOk(db, terms, gs, i + 1, op.value)
  {
    hide AllPlaced, Local, Here, Upto, BindAll, Kept, Loop, Build, AllBound, AllTyped, NoDouble, TableOk, Factors, Offered;
    var sl, ls := Scope(db, i), Cross(db[..i]);
    CrossTyped(db, i);
    CrossTyped(db, i + 1);
    FirstTable(db, terms, gs);
    JoinFactors(db, terms, gs, i);
    var a, b, f := Upto(terms, gs, i - 1), BindAll(db[i].schema, Local(terms, i)).value, BindAll(db[0].schema, Local(terms, 0)).value;
    JoinSound(alg, db, i, root, right, sl, bound, a, ls, b, f);
    TypedWide(sl, ls);
    TableNoDouble(db[i]);
    TypedWide(db[i].schema, db[i].rows);
    LoopFactors(Upto(terms, gs, i), a, b, bound, |sl|, |db[i].schema|, ls, db[i].rows);
  }

  /** What the FROM and the WHERE became. */
  datatype Source = Source(root: Node, keyOrder: bool, bare: bool)

  ghost predicate QueryOk(q: Query) {
    && (forall j, k | 0 <= j < |q.ons| && 0 <= k < |q.ons[j]| :: TermOk(q.ons[j][k]))
    && forall k | 0 <= k < |q.filter| :: TermOk(q.filter[k])
  }

  /** What the source yields, in terms of the bound comparisons. */
  ghost predicate AnswersBound(db: seq<Table>, q: Query, src: Source) {
    && BindWritten(db, AllTerms(q)).Some?
    && multiset(Run(db, src.root)) == multiset(Wanted(db, BindWritten(db, AllTerms(q)).value))
    && (src.keyOrder ==> |db| == 1 && Run(db, src.root) == Wanted(db, BindWritten(db, AllTerms(q)).value))
    && (src.bare ==> |db| == 1 && q.filter == [] && src.root == SeqScan(0))
  }

  // ---- what a query asks for, as it is written ----

  /** The term is one of the `n - 1`th ON, which sees `n` tables, or of the WHERE, which sees
      all. */
  predicate WrittenIn(q: Query, t: Term, n: nat) { (2 <= n < |q.ons| + 2 && t in q.ons[n - 2]) || (n == |q.ons| + 1 && t in q.filter) }

  ghost predicate AllComparable(db: seq<Table>, q: Query) {
    forall t, n: nat | WrittenIn(q, t, n) :: n <= |db| && Comparable(Scope(db, n), t)
  }

  ghost predicate Passed(db: seq<Table>, q: Query, row: Row) {
    forall t, n: nat | WrittenIn(q, t, n) :: n <= |db| && Satisfies(Scope(db, n), t, row)
  }

  /** The rows asked for: of all ways to take a row of each table those, and each once, whose
      row every term of every ON and of the WHERE holds of; in order of place. */
  ghost predicate Asked(db: seq<Table>, q: Query, ts: seq<seq<nat>>, rows: seq<Row>) {
    InPlaceOrder(ts) && RowsAre(db, ts, rows) && forall t :: t in ts <==> IsPlace(db, t) && Passed(db, q, RowAt(db, t))
  }

  /** Every choice of access paths and join algorithms yields the same bag of rows: those
      asked for. Rows of one table said to be in key order are in the table's. */
  ghost predicate Answers(db: seq<Table>, q: Query, src: Source) {
    && AllComparable(db, q)
    && (exists ts, rows :: Asked(db, q, ts, rows) && multiset(Run(db, src.root)) == multiset(rows) && (src.keyOrder ==> Run(db, src.root) == rows))
    && (src.keyOrder ==> |db| == 1) && (src.bare ==> |db| == 1 && q.filter == [] && src.root == SeqScan(0))
  }

  lemma {:induction false} OnTermsMean(ons: seq<seq<Term>>, j: nat, t: Term, n: nat)
    requires j <= |ons|
    ensures Written(t, n) in OnTerms(ons, j) <==> 2 <= n < j + 2 && t in ons[n - 2]
  {
    if j > 0 {
      OnTermsMean(ons, j - 1, t, n);
      MarkMeans(ons[j - 1], j + 1, t, n);
    }
  }

  lemma MarkMeans(ts: seq<Term>, scope: nat, t: Term, n: nat)
    ensures Written(t, n) in Mark(ts, scope) <==> n == scope && t in ts
  {
    if t in ts {
      var k :| 0 <= k < |ts| && ts[k] == t;
      assert Mark(ts, scope)[k] == Written(t, scope);
    }
  }

  lemma AllTermsMean(q: Query, t: Term, n: nat)
    ensures Written(t, n) in AllTerms(q) <==> WrittenIn(q, t, n)
  {
    OnTermsMean(q.ons, |q.ons|, t, n);
    MarkMeans(q.filter, |q.ons| + 1, t, n);
  }

  lemma {:induction false} ScopeFilled(db: seq<Table>, n: nat, row: Row)
    requires n <= |db| && Typed(Scope(db, |db|), row)
    ensures Fills(Scope(db, n), row)
  {
    ScopeSplits(db, n, |db|);
  }

  /** The terms' bound forms hold of the rows of the product that the terms do. */
  lemma {:induction false} WrittenMean(db: seq<Table>, ws: seq<Written>)
    ensures BindWritten(db, ws).Some? <==> forall w | w in ws :: w.scope <= |db| && Comparable(Scope(db, w.scope), w.term)
    ensures BindWritten(db, ws).Some? ==> forall row: Row | Typed(Scope(db, |db|), row) ::
              Passes(BindWritten(db, ws).value, row) <==> forall w | w in ws :: Satisfies(Scope(db, w.scope), w.term, row)
  {
    hide Bind, Typed, Comparable, Satisfies, Fills, Eval, Scope;
    if ws != [] {
      var k := |ws| - 1;
      var before, w := ws[..k], ws[k];
      WrittenMean(db, before);
      assert ws == before + [w];
      assert forall x :: x in ws <==> x in before || x == w;
      if w.scope <= |db| {
        var s := Scope(db, w.scope);
        BindMeans(s, w.term);
        if BindWritten(db, ws).Some? {
          var gs, g := BindWritten(db, before).value, Bind(s, w.term).value;
          forall row: Row | Typed(Scope(db, |db|), row)
            ensures Passes(gs + [g], row) <==> forall x | x in ws :: Satisfies(Scope(db, x.scope), x.term, row)
          {
            ScopeFilled(db, w.scope, row);
            PassesMore(gs, g, row);
          }
        }
      }
    }
  }

  lemma {:induction false} TermsMean(db: seq<Table>, q: Query)
    requires |q.ons| + 1 == |db|
    ensures BindWritten(db, AllTerms(q)).Some? <==> AllComparable(db, q)
    ensures BindWritten(db, AllTerms(q)).Some? ==> forall row: Row | Typed(Scope(db, |db|), row) ::
              Passes(BindWritten(db, AllTerms(q)).value, row) <==> Passed(db, q, row)
  {
    var ws := AllTerms(q);
    WrittenMean(db, ws);
    forall t, n: nat ensures Written(t, n) in ws <==> WrittenIn(q, t, n) { AllTermsMean(q, t, n); }
    forall w | w in ws ensures WrittenIn(q, w.term, w.scope) { assert Written(w.term, w.scope) == w; }
    hide BindWritten, Comparable, Satisfies, AllTerms, Passes, Typed, Scope;
  }

  lemma AnswersMean(db: seq<Table>, q: Query, src: Source)
    requires TablesOk(db) && |q.ons| + 1 == |db| && AnswersBound(db, q, src)
    ensures Answers(db, q, src)
  {
    TermsMean(db, q);
    var gs := BindWritten(db, AllTerms(q)).value;
    var f, rows := row => Passes(gs, row), Cross(db);
    var ts := CrossMeans(db);
    KeptMeans(gs, rows);
    var at: seq<nat> :| Sequences.PickedAt(f, rows, Kept(gs, rows), at);
    var us := ChosenPlaces(db, ts, f, rows, Kept(gs, rows), at);
    forall t | IsPlace(db, t) ensures Passes(gs, RowAt(db, t)) <==> Passed(db, q, RowAt(db, t)) { PlaceTyped(db, ts, rows, t); }
    hide IsPlace, InPlaceOrder, Passed, Passes, Kept, Run, BindWritten, AllTerms;
    assert Asked(db, q, us, Kept(gs, rows));
  }

  lemma {:induction false} PlaceTyped(db: seq<Table>, ts: seq<seq<nat>>, rows: seq<Row>, t: seq<nat>)
    requires TablesOk(db) && db != [] && IsPlace(db, t) && AllPlaces(db, ts) && RowsAre(db, ts, rows) && rows == Cross(db)
    ensures Typed(Scope(db, |db|), RowAt(db, t))
  {
    CrossTyped(db, |db|);
    assert db[..|db|] == db;
    hide IsPlace, TableOk, Typed, Scope;
    assert t in ts;
    var i :| 0 <= i < |ts| && ts[i] == t;
    assert rows[i] == RowAt(db, t);
  }

  method PlanFrom(db: seq<Table>, q: Query, chooseAccess: (nat, seq<Candidate>) -> Option<nat>,
                  chooseJoin: (nat, seq<Algorithm>) -> Option<nat>) returns (src: Option<Source>)
    requires TablesOk(db) && |q.ons| + 1 == |db| && QueryOk(q)
    ensures src.Some? ==> Answers(db, q, src.value)
    ensures src.None? && AllComparable(db, q) ==> Refuses(chooseJoin)
  {
    hide *;
    if q.ons == [] {
      src := PlanOne(db, q, cs => chooseAccess(0, cs));
      return;
    }
    var ok, terms, offset; ghost var gs;
    ok, terms, offset, gs := GatherTerms(db, q);
    if !ok { TermsMean(db, q); return None; }
    GatheredAre(db, AllTerms(q), terms, gs);
    var local, cross := Pushdown(|db|, terms);
    var ops := PlanTables(db, terms, gs, local, chooseAccess);
    var root := ops[0];
    FirstRoot(db, terms, gs, root);
    var placed := seq(|cross|, k => false);
    CrossLast(terms);
    CrossTyped(db, 1);
    var schema := db[0].schema;
    for i := 1 to |db|
      invariant schema == Scope(db, i) && RootOk(db, terms, gs, i, root)
      invariant |placed| == |cross| && forall k | 0 <= k < |cross| :: placed[k] <==> cross[k].Last() < i
    {
      var here;
      here, placed := TermsHere(cross, i, placed, terms);
      var both := schema + db[i].schema;
      ScopeNext(db, i);
      HereBinds(db, terms, gs, i);
      var bound := BindHere(both, here);
      TableSizes(db, i);
      var options := Options(i, bound, |schema|, db[i], db[0]);
      var pick := chooseJoin(i, options);
      if pick.None? || pick.value >= |options| {
        RefusesAt(chooseJoin, i, options);
        return None;
      }
      JoinStep(db, terms, gs, i, root, ops[i], options[pick.value], bound);
      root := Build(options[pick.value], i, root, ops[i], bound, schema, db[i], db[0], BindAll(db[i].schema, local[i]).value,
                    BindAll(db[0].schema, local[0]).value).value;
      schema := both;
    }
    RootAnswers(db, q, terms, gs, root);
    return Some(Source(root, false, false));
  }

  /** The oracle offers no algorithm at some join. */
  ghost predicate Refuses(chooseJoin: (nat, seq<Algorithm>) -> Option<nat>) { exists i, options :: RefusesThere(chooseJoin, i, options) }

  predicate RefusesThere(chooseJoin: (nat, seq<Algorithm>) -> Option<nat>, i: nat, options: seq<Algorithm>) {
    options != [] && (chooseJoin(i, options).None? || chooseJoin(i, options).value >= |options|)
  }

  lemma RefusesAt(chooseJoin: (nat, seq<Algorithm>) -> Option<nat>, i: nat, options: seq<Algorithm>)
    requires options != [] && (chooseJoin(i, options).None? || chooseJoin(i, options).value >= |options|)
    ensures Refuses(chooseJoin)
  {
    assert RefusesThere(chooseJoin, i, options);
  }

  lemma {:induction false} GatheredAre(db: seq<Table>, ws: seq<Written>, terms: seq<Term2>, gs: seq<Comparison>)
    requires Gathered(db, ws, terms, gs)
    ensures AllPlaced(db, terms, gs) && BindWritten(db, ws) == Some(gs)
    ensures forall k | 0 <= k < |terms| :: terms[k].left < |db| && terms[k].right < |db|
  {
    forall k | 0 <= k < |terms| ensures terms[k].left < |db| && terms[k].right < |db| { assert Placed(db, terms[k], gs[k]); }
  }

  lemma {:induction false} CrossLast(terms: seq<Term2>)
    ensures forall k | 0 <= k < |CrossTerms(terms)| :: CrossTerms(terms)[k].Last() >= 1
  {
    AllCross(terms);
  }

  lemma ScopeNext(db: seq<Table>, i: nat)
    requires i < |db|
    ensures Scope(db, i + 1) == Scope(db, i) + db[i].schema
  {
  }

  lemma TableSizes(db: seq<Table>, i: nat)
    requires TablesOk(db) && i < |db|
    ensures |db[i].schema| == |db[i].index| && |db[0].schema| == |db[0].index|
  {
    assert TableOk(db[i]) && TableOk(db[0]);
  }

  lemma {:induction false} HereBinds(db: seq<Table>, terms: seq<Term2>, gs: seq<Comparison>, i: nat)
    requires AllPlaced(db, terms, gs) && i < |db|
    ensures BindAll(Scope(db, i + 1), Here(terms, i)).Some? && forall k | 0 <= k < |Here(terms, i)| :: TermOk(Here(terms, i)[k])
  {
    HereMeans(db, terms, gs, i, []);
    HereOk(db, terms, gs, i);
  }

  lemma {:induction false} HereOk(db: seq<Table>, terms: seq<Term2>, gs: seq<Comparison>, i: nat)
    requires AllPlaced(db, terms, gs)
    ensures forall k | 0 <= k < |Here(terms, i)| :: TermOk(Here(terms, i)[k])
  {
    if terms != [] {
      FewerPlaced(db, terms, gs);
      HereOk(db, terms[..|terms| - 1], gs[..|terms| - 1], i);
    }
  }

  lemma {:induction false} LocalOk(db: seq<Table>, terms: seq<Term2>, gs: seq<Comparison>, i: nat)
    requires AllPlaced(db, terms, gs)
    ensures forall k | 0 <= k < |Local(terms, i)| :: TermOk(Local(terms, i)[k])
  {
    if terms != [] {
      FewerPlaced(db, terms, gs);
      LocalOk(db, terms[..|terms| - 1], gs[..|terms| - 1], i);
    }
  }

  lemma {:induction false} RootAnswers(db: seq<Table>, q: Query, terms: seq<Term2>, gs: seq<Comparison>, root: Node)
    requires TablesOk(db) && |q.ons| + 1 == |db| && RootOk(db, terms, gs, |db|, root) && BindWritten(db, AllTerms(q)) == Some(gs)
    requires forall k | 0 <= k < |terms| :: terms[k].left < |db| && terms[k].right < |db|
    ensures Answers(db, q, Source(root, false, false))
  {
    UptoAll(terms, gs, |db| - 1);
    assert db[..|db|] == db;
    hide Answers, Run, Kept, Upto, TableOk, BindWritten, AllTerms;
    AnswersMean(db, q, Source(root, false, false));
  }

  /** Every term of every clause, bound in the scope it was written in. */
  method GatherTerms(db: seq<Table>, q: Query) returns (ok: bool, terms: seq<Term2>, offset: seq<nat>, ghost gs: seq<Comparison>)
    requires |q.ons| + 1 == |db| && QueryOk(q)
    ensures ok ==> Gathered(db, AllTerms(q), terms, gs)
    ensures !ok ==> BindWritten(db, AllTerms(q)) == None
  {
    hide *;
    offset := Offsets(db);
    ScopeNext(db, 0);
    ScopeNone(db);
    var scope := db[0].schema;
    terms, gs := [], [];
    NoOn(db, q);
    for j := 0 to |q.ons|
      invariant scope == Scope(db, j + 1) && Gathered(db, OnTerms(q.ons, j), terms, gs)
    {
      ScopeNext(db, j + 1);
      scope := scope + db[j + 1].schema;
      OnTermsOk(q, j);
      var before := terms;
      ok, terms, gs := AddTerms(db, offset, scope, j + 2, q.ons[j], terms, OnTerms(q.ons, j), gs);
      OnNext(q, j);
      if !ok {
        OnFails(db, q, j + 1);
        return;
      }
    }
    FilterOk(q);
    ok, terms, gs := AddTerms(db, offset, scope, |db|, q.filter, terms, OnTerms(q.ons, |q.ons|), gs);
    AllTermsAre(q);
  }

  lemma {:induction false} ScopeNone(db: seq<Table>)
    requires |db| > 0
    ensures Scope(db, 0) + db[0].schema == db[0].schema
  {
  }

  lemma NoOn(db: seq<Table>, q: Query)
    ensures OnTerms(q.ons, 0) == [] && Gathered(db, [], [], [])
  {
  }

  lemma OnTermsOk(q: Query, j: nat)
    requires QueryOk(q) && j < |q.ons|
    ensures forall k | 0 <= k < |q.ons[j]| :: TermOk(q.ons[j][k])
  {
  }

  lemma FilterOk(q: Query)
    requires QueryOk(q)
    ensures forall k | 0 <= k < |q.filter| :: TermOk(q.filter[k])
  {
  }

  lemma OnNext(q: Query, j: nat)
    requires j < |q.ons|
    ensures OnTerms(q.ons, j + 1) == OnTerms(q.ons, j) + Mark(q.ons[j], j + 2)
  {
  }

  lemma AllTermsAre(q: Query) ensures AllTerms(q) == OnTerms(q.ons, |q.ons|) + Mark(q.filter, |q.ons| + 1) {}

  lemma {:induction false} OnFails(db: seq<Table>, q: Query, j: nat)
    requires j <= |q.ons| && BindWritten(db, OnTerms(q.ons, j)) == None
    ensures BindWritten(db, AllTerms(q)) == None
    decreases |q.ons| - j
  {
    hide BindWritten;
    if j == |q.ons| {
      WrittenFails(db, OnTerms(q.ons, j), Mark(q.filter, |q.ons| + 1));
    } else {
      WrittenFails(db, OnTerms(q.ons, j), Mark(q.ons[j], j + 2));
      OnFails(db, q, j + 1);
    }
  }

  /** An access path for every table. */
  method PlanTables(db: seq<Table>, terms: seq<Term2>, ghost gs: seq<Comparison>, local: seq<seq<Term>>,
                    chooseAccess: (nat, seq<Candidate>) -> Option<nat>) returns (ops: seq<Node>)
    requires TablesOk(db) && AllPlaced(db, terms, gs) && |local| == |db| && forall i | 0 <= i < |db| :: local[i] == Local(terms, i)
    ensures |ops| == |db| && forall i | 0 <= i < |db| :: PathOk(db, terms, i, ops[i])
  {
    hide AllPlaced, Local, BindAll, TableOk, Kept, TermOk, AllBound;
    ops := [];
    for i := 0 to |db|
      invariant |ops| == i && forall k | 0 <= k < i :: PathOk(db, terms, k, ops[k])
    {
      LocalOk(db, terms, gs, i);
      LocalMeans(db, terms, gs, i, seq(|Scope(db, i)|, x => NULL_FIELD), []);
      var a; ghost var bound;
      a, bound := PlanAccess(db, i, local[i], cs => chooseAccess(i, cs));
      ops := ops + [a.value.op];
    }
  }

  /** One table: every term is its own. */
  method PlanOne(db: seq<Table>, q: Query, choose: seq<Candidate> -> Option<nat>) returns (src: Option<Source>)
    requires |db| == 1 && TablesOk(db) && q.ons == [] && QueryOk(q)
    ensures src.Some? ==> Answers(db, q, src.value)
    ensures src.None? ==> !AllComparable(db, q)
  {
    hide BindAll, BindWritten, TableOk, Kept, TermOk, AllBound, AllTerms, Answers, AllComparable;
    TermsMean(db, q);
    var a; ghost var bound;
    OneBinds(db, q);
    a, bound := PlanAccess(db, 0, q.filter, choose);
    if a.None? { return None; }
    src := Some(Source(a.value.op, a.value.keyOrder, a.value.bare));
    AnswersMean(db, q, src.value);
  }

  lemma {:induction false} OneBinds(db: seq<Table>, q: Query)
    requires |db| == 1 && q.ons == []
    ensures BindWritten(db, AllTerms(q)) == BindAll(db[0].schema, q.filter)
  {
    hide BindWritten, BindAll, Mark;
    assert AllTerms(q) == [] + Mark(q.filter, 1) == Mark(q.filter, 1);
    ScopeNext(db, 0);
    ScopeNone(db);
    OneBindsFrom(db, q.filter);
  }

  lemma {:induction false} OneBindsFrom(db: seq<Table>, ts: seq<Term>)
    requires |db| == 1 && Scope(db, 1) == db[0].schema
    ensures BindWritten(db, Mark(ts, 1)) == BindAll(db[0].schema, ts)
  {
    hide Bind, Scope;
    if ts != [] {
      var n := |ts| - 1;
      OneBindsFrom(db, ts[..n]);
      assert Mark(ts, 1)[..n] == Mark(ts[..n], 1);
    }
  }
}
