/** The grammar's rules: what may follow each, where its parts end, and that no stretch of
    tokens spells two trees. */
module SqlRules {
  import opened Wrappers
  import opened SqlSyntax
  import opened SqlGrammar

  // ---- what may follow ----

  /** A token that no name, column or value goes on with. */
  predicate Closes(t: Token) { t.Kw? || t == End || t == Sym(Comma) || t == Sym(RParen) || t == Sym(Semicolon) }

  /** One after which no column or value goes on. */
  predicate Ends(t: Token) { t != Sym(Dot) && t != Sym(LParen) }

  /** Ends a list, and whatever stands last in it. */
  predicate Stopper(t: Token) {
    Closes(t) && t != Sym(Comma) && t != Kw(AS) && t != Kw(ASC) && t != Kw(DESC) && t != Kw(NOT) && t != Kw(NULL) && t != Kw(AND)
  }

  /** What may come after an element of a list. */
  predicate Between(t: Token) { t == Sym(Comma) || Stopper(t) }

  predicate StatementEnd(t: Token) { t == End || t == Sym(Semicolon) }

  // ---- where the parts of a rule end ----

  /** A name is one aggregate's at most. */
  lemma AggOnce(w: string, f: AggFunc, g: AggFunc)
    requires NamesAgg(w, f) && NamesAgg(w, g)
    ensures f == g
  {
    assert SameLetter(w[0], AggName(f)[0]) && SameLetter(w[0], AggName(g)[0]);
    assert SameLetter(w[1], AggName(f)[1]) && SameLetter(w[1], AggName(g)[1]);
  }

  lemma NextOf<T>(goal: seq<T>, n: nat)
    requires n < |goal|
    ensures goal[n..][0] == goal[n] && goal[n..][1..] == goal[n + 1..] && goal[..n + 1] == goal[..n] + [goal[n]]
  {
  }

  lemma ValueEnds(toks: seq<Token>, i: nat, j: nat, v: Value)
    ensures IsValue(toks, i, j, v) ==> i < j < |toks|
  {
  }

  lemma ComparisonCut(toks: seq<Token>, i: nat, j: nat, c: Comparison) returns (m: nat)
    requires IsComparison(toks, i, j, c)
    ensures IsValue(toks, i, m, c.left) && m + 1 < j < |toks| && toks[m] == Sym(Cmp(c.op)) && IsOperand(toks, m + 1, j, c.right)
  {
    hide IsValue;
    m :| IsValue(toks, i, m, c.left) && m < j && toks[m] == Sym(Cmp(c.op)) && IsOperand(toks, m + 1, j, c.right);
  }

  lemma ComparisonIs(toks: seq<Token>, i: nat, m: nat, j: nat, c: Comparison)
    requires IsValue(toks, i, m, c.left) && m < j && m < |toks| && toks[m] == Sym(Cmp(c.op)) && IsOperand(toks, m + 1, j, c.right)
    ensures IsComparison(toks, i, j, c)
  {
    hide IsValue;
  }

  /** The operand's kind shows in its first token. */
  lemma OperandFirst(toks: seq<Token>, i: nat, j: nat, o: Operand)
    requires IsOperand(toks, i, j, o) && j < |toks| && Closes(toks[j])
    ensures i < |toks| && match o case ColumnOperand(r) => toks[i].Ident? && IsRef(toks, i, j, r) && toks[j] != Sym(Dot)
                                  case LiteralOperand(l) => !toks[i].Ident? && [toks[i]] == LiteralTokens(l) && j == i + 1
  {
  }

  lemma ConditionCut(toks: seq<Token>, i: nat, j: nat, ts: seq<Comparison>) returns (m: nat)
    requires IsCondition(toks, i, j, ts) && j < |toks| && Closes(toks[j])
    ensures ts != [] && IsComparison(toks, i, m, ts[0]) && MoreTerms(toks, m, j, ts[1..]) && m < |toks| && Closes(toks[m])
  {
    hide IsComparison;
    m :| IsComparison(toks, i, m, ts[0]) && MoreTerms(toks, m, j, ts[1..]);
  }

  lemma MoreTermsCut(toks: seq<Token>, i: nat, j: nat, ts: seq<Comparison>) returns (m: nat)
    requires MoreTerms(toks, i, j, ts) && j < |toks| && Closes(toks[j]) && toks[j] != Kw(AND) && toks[i] == Kw(AND)
    ensures ts != [] && IsComparison(toks, i + 1, m, ts[0]) && MoreTerms(toks, m, j, ts[1..]) && m < |toks| && Closes(toks[m])
  {
    hide IsComparison, IsCondition;
    m := ConditionCut(toks, i + 1, j, ts);
  }

  lemma {:induction false} TermsDone(toks: seq<Token>, i: nat, j: nat, ts: seq<Comparison>)
    requires MoreTerms(toks, i, j, ts) && toks[i] != Kw(AND)
    ensures ts == [] && i == j
  {
    hide IsCondition;
  }

  lemma {:induction false} OneTerm(toks: seq<Token>, i: nat, j: nat, c: Comparison)
    requires IsComparison(toks, i, j, c) && j < |toks|
    ensures IsCondition(toks, i, j, [c])
  {
    hide IsComparison;
    assert MoreTerms(toks, j, j, [c][1..]);
  }

  /** A term more. */
  lemma {:induction false} TermAfter(toks: seq<Token>, i: nat, m: nat, j: nat, ts: seq<Comparison>, c: Comparison)
    requires IsCondition(toks, i, m, ts) && m < |toks| && toks[m] == Kw(AND) && IsComparison(toks, m + 1, j, c) && j < |toks|
    ensures IsCondition(toks, i, j, ts + [c])
    decreases |ts|
  {
    hide IsComparison;
    var all := ts + [c];
    var n: nat :| IsComparison(toks, i, n, ts[0]) && MoreTerms(toks, n, m, ts[1..]);
    assert all[0] == ts[0] && all[1..] == ts[1..] + [c];
    if |ts| == 1 {
      OneTerm(toks, m + 1, j, c);
      assert all[1..] == [c];
    } else {
      TermAfter(toks, n + 1, m, j, ts[1..], c);
    }
    assert MoreTerms(toks, n, j, all[1..]);
  }

  lemma {:induction false} ConditionSome(toks: seq<Token>, i: nat, j: nat, ts: seq<Comparison>) requires IsCondition(toks, i, j, ts) ensures ts != [] {}

  lemma JoinCut(toks: seq<Token>, i: nat, j: nat, c: JoinClause) returns (m: nat)
    requires IsJoin(toks, i, j, c)
    ensures var a := if toks[i] == Kw(INNER) then i + 1 else i;
            && a < |toks| && toks[a] == Kw(JOIN) && IsTable(toks, a + 1, m, c.table) && m < |toks| && toks[m] == Kw(ON)
            && IsCondition(toks, m + 1, j, c.on)
  {
    hide IsCondition;
    var a := if toks[i] == Kw(INNER) then i + 1 else i;
    m :| IsTable(toks, a + 1, m, c.table) && toks[m] == Kw(ON) && IsCondition(toks, m + 1, j, c.on);
  }

  lemma {:induction false} NoJoins(toks: seq<Token>, i: nat) requires i < |toks| ensures IsJoins(toks, i, i, []) {}

  lemma JoinsCut(toks: seq<Token>, i: nat, j: nat, js: seq<JoinClause>) returns (m: nat)
    requires IsJoins(toks, i, j, js) && i < |toks| && (toks[i] == Kw(JOIN) || toks[i] == Kw(INNER))
    requires j < |toks| && Closes(toks[j]) && toks[j] != Kw(AND) && toks[j] != Kw(JOIN) && toks[j] != Kw(INNER)
    ensures js != [] && IsJoin(toks, i, m, js[0]) && IsJoins(toks, m, j, js[1..]) && m < |toks| && Closes(toks[m]) && toks[m] != Kw(AND)
  {
    hide IsJoin;
    m :| IsJoin(toks, i, m, js[0]) && IsJoins(toks, m, j, js[1..]);
    if js[1..] != [] { JoinsOpen(toks, m, j, js[1..]); }
  }

  /** What joins begin with. */
  lemma {:induction false} JoinsOpen(toks: seq<Token>, i: nat, j: nat, js: seq<JoinClause>)
    requires IsJoins(toks, i, j, js)
    ensures js != [] ==> i < |toks| && (toks[i] == Kw(JOIN) || toks[i] == Kw(INNER))
    ensures js == [] ==> i == j < |toks|
  {
    if js != [] { var m: nat :| IsJoin(toks, i, m, js[0]) && IsJoins(toks, m, j, js[1..]); }
  }

  lemma {:induction false} JoinsDone(toks: seq<Token>, i: nat, j: nat, js: seq<JoinClause>)
    requires IsJoins(toks, i, j, js) && i < |toks| && toks[i] != Kw(JOIN) && toks[i] != Kw(INNER)
    ensures js == [] && i == j
  {
    JoinsOpen(toks, i, j, js);
  }

  /** A join more. */
  lemma {:induction false} JoinAfter(toks: seq<Token>, i: nat, m: nat, j: nat, js: seq<JoinClause>, c: JoinClause)
    requires IsJoins(toks, i, m, js) && IsJoin(toks, m, j, c) && j < |toks|
    ensures IsJoins(toks, i, j, js + [c])
    decreases |js|
  {
    hide IsJoin;
    var all := js + [c];
    if js == [] {
      assert all[1..] == [] && IsJoins(toks, j, j, all[1..]);
    } else {
      var n: nat :| IsJoin(toks, i, n, js[0]) && IsJoins(toks, n, m, js[1..]);
      JoinAfter(toks, n, m, j, js[1..], c);
      assert all[0] == js[0] && all[1..] == js[1..] + [c];
    }
  }

  lemma OrderCut(toks: seq<Token>, i: nat, j: nat, o: OrderItem) returns (m: nat)
    requires IsOrder(toks, i, j, o)
    ensures IsValue(toks, i, m, o.value) && m <= j < |toks| && m < |toks|
    ensures if m == j then !o.desc else m + 1 == j && toks[m] == Kw(if o.desc then DESC else ASC)
  {
    m := if !o.desc && IsValue(toks, i, j, o.value) then j else j - 1;
  }

  ghost predicate Element<T>(toks: seq<Token>, i: nat, j: nat, is_: (seq<Token>, nat, nat, T) -> bool, e: T) { is_(toks, i, j, e) }

  /** The tokens from `i` to `j` spell the list, and what follows ends it. */
  ghost predicate Listed<T>(toks: seq<Token>, i: nat, j: nat, is_: (seq<Token>, nat, nat, T) -> bool, es: seq<T>) {
    j < |toks| && Stopper(toks[j]) && IsList(toks, i, j, is_, es)
  }

  /** Of such a list `out` is spelled before `i`, and from there on the rest. */
  ghost predicate OnTrack<T>(toks: seq<Token>, i: nat, j: nat, is_: (seq<Token>, nat, nat, T) -> bool, goal: seq<T>, out: seq<T>) {
    && j < |toks| && Stopper(toks[j])
    && |out| <= |goal| && out == goal[..|out|] && MoreListed(toks, i, j, is_, goal[|out|..])
  }

  lemma ListCut<T>(toks: seq<Token>, i: nat, j: nat, is_: (seq<Token>, nat, nat, T) -> bool, es: seq<T>, no: T) returns (e: T, m: nat)
    ensures Listed(toks, i, j, is_, es) ==>
              Element(toks, i, m, is_, e) && m < |toks| && Between(toks[m]) && OnTrack(toks, m, j, is_, es, [e]) && es != [] && e == es[0]
  {
    hide Stopper;
    e, m := no, 0;
    if Listed(toks, i, j, is_, es) {
      e := es[0];
      m :| is_(toks, i, m, es[0]) && MoreListed(toks, m, j, is_, es[1..]);
    }
  }

  lemma TrackNext<T>(toks: seq<Token>, i: nat, j: nat, is_: (seq<Token>, nat, nat, T) -> bool, goal: seq<T>, out: seq<T>, no: T)
      returns (e: T, m: nat)
    requires i < |toks| && toks[i] == Sym(Comma)
    ensures OnTrack(toks, i, j, is_, goal, out) ==>
              Element(toks, i + 1, m, is_, e) && m < |toks| && Between(toks[m]) && OnTrack(toks, m, j, is_, goal, out + [e])
  {
    var es := if |out| <= |goal| then goal[|out|..] else [];
    if OnTrack(toks, i, j, is_, goal, out) { CommaGoesOn(toks, i, j, is_, es); }
    hide IsList;
    e, m := ListCut(toks, i + 1, j, is_, es, no);
    if OnTrack(toks, i, j, is_, goal, out) {
      NextOf(goal, |out|);
      assert es[|[e]|..] == goal[|out| + 1..];
    }
  }

  lemma {:induction false} CommaGoesOn<T>(toks: seq<Token>, i: nat, j: nat, is_: (seq<Token>, nat, nat, T) -> bool, es: seq<T>)
    requires MoreListed(toks, i, j, is_, es) && j < |toks| && toks[i] == Sym(Comma) && toks[j] != Sym(Comma)
    ensures es != [] && IsList(toks, i + 1, j, is_, es)
  {
    hide IsList;
  }

  lemma TrackDone<T>(toks: seq<Token>, i: nat, j: nat, is_: (seq<Token>, nat, nat, T) -> bool, goal: seq<T>, out: seq<T>)
    requires i < |toks| && toks[i] != Sym(Comma)
    ensures OnTrack(toks, i, j, is_, goal, out) ==> out == goal && i == j
  {
    hide IsList;
    assert goal[..|goal|] == goal;
  }

  lemma {:induction false} OneListed<T>(toks: seq<Token>, i: nat, j: nat, is_: (seq<Token>, nat, nat, T) -> bool, e: T)
    requires Element(toks, i, j, is_, e) && j < |toks|
    ensures IsList(toks, i, j, is_, [e])
  {
    assert MoreListed(toks, j, j, is_, [e][1..]);
  }

  /** An element more. */
  lemma {:induction false} ListedAfter<T>(toks: seq<Token>, i: nat, m: nat, j: nat, is_: (seq<Token>, nat, nat, T) -> bool, es: seq<T>, e: T)
    requires IsList(toks, i, m, is_, es) && m < |toks| && toks[m] == Sym(Comma) && Element(toks, m + 1, j, is_, e) && j < |toks|
    ensures IsList(toks, i, j, is_, es + [e])
    decreases |es|
  {
    var all := es + [e];
    var n: nat :| is_(toks, i, n, es[0]) && MoreListed(toks, n, m, is_, es[1..]);
    assert all[0] == es[0] && all[1..] == es[1..] + [e];
    if |es| == 1 {
      OneListed(toks, m + 1, j, is_, e);
      assert all[1..] == [e];
    } else {
      ListedAfter(toks, n + 1, m, j, is_, es[1..], e);
    }
    assert MoreListed(toks, n, j, is_, all[1..]);
  }

  // ---- a SELECT ----

  /** The order of the clauses. */
  function Rank(k: Key): nat {
    match k case WHERE => 0 case GROUP => 1 case HAVING => 2 case ORDER => 3 case LIMIT => 4 case _ => 5
  }

  /** The `n`th clause or a later one opens here, or the statement ends. */
  predicate From(t: Token, n: nat) { (t.Kw? && Rank(t.key) < 5 && n <= Rank(t.key)) || StatementEnd(t) }

  lemma FromStops(t: Token, n: nat)
    requires From(t, n)
    ensures Stopper(t) && Closes(t) && t != Kw(AS) && t != Kw(AND) && t != Kw(JOIN) && t != Kw(INNER)
    ensures forall k | Rank(k) < n :: t != Kw(k)
  {
  }

  lemma ClausesCut(toks: seq<Token>, i: nat, j: nat, s: Select) returns (b: nat, c: nat, d: nat, e: nat)
    requires IsClauses(toks, i, j, s) && j < |toks| && StatementEnd(toks[j])
    ensures IsWhere(toks, i, b, WHERE, s.where_) && IsBy(toks, b, c, GROUP, IsRef, s.groupBy)
    ensures IsWhere(toks, c, d, HAVING, s.having) && IsBy(toks, d, e, ORDER, IsOrder, s.orderBy) && IsLimit(toks, e, j, s.limit)
    ensures i < |toks| && b < |toks| && c < |toks| && d < |toks| && e < |toks|
    ensures From(toks[i], 0) && From(toks[b], 1) && From(toks[c], 2) && From(toks[d], 3) && From(toks[e], 4)
  {
    hide IsWhere, IsBy, IsLimit, From;
    b, c, d, e :|
      && IsWhere(toks, i, b, WHERE, s.where_) && IsBy(toks, b, c, GROUP, IsRef, s.groupBy)
      && IsWhere(toks, c, d, HAVING, s.having) && IsBy(toks, d, e, ORDER, IsOrder, s.orderBy) && IsLimit(toks, e, j, s.limit);
    LimitOpens(toks, e, j, s.limit);
    ByOpens(toks, d, e, ORDER, IsOrder, s.orderBy);
    WhereOpens(toks, c, d, HAVING, s.having);
    ByOpens(toks, b, c, GROUP, IsRef, s.groupBy);
    WhereOpens(toks, i, b, WHERE, s.where_);
  }

  /** And each ends where the next may begin. */
  lemma ClausesStop(toks: seq<Token>, i: nat, j: nat, s: Select) returns (b: nat, c: nat, d: nat, e: nat)
    requires IsClauses(toks, i, j, s) && j < |toks| && StatementEnd(toks[j])
    ensures IsWhere(toks, i, b, WHERE, s.where_) && IsBy(toks, b, c, GROUP, IsRef, s.groupBy)
    ensures IsWhere(toks, c, d, HAVING, s.having) && IsBy(toks, d, e, ORDER, IsOrder, s.orderBy) && IsLimit(toks, e, j, s.limit)
    ensures b < |toks| && Stopper(toks[b]) && toks[b] != Kw(WHERE) && c < |toks| && Stopper(toks[c]) && toks[c] != Kw(GROUP)
    ensures d < |toks| && Stopper(toks[d]) && toks[d] != Kw(HAVING) && e < |toks| && Stopper(toks[e]) && toks[e] != Kw(ORDER)
    ensures toks[j] != Kw(LIMIT)
  {
    hide IsClauses, IsWhere, IsBy, IsLimit, From, Stopper;
    b, c, d, e := ClausesCut(toks, i, j, s);
    FromStops(toks[b], 1);
    FromStops(toks[c], 2);
    FromStops(toks[d], 3);
    FromStops(toks[e], 4);
  }

  lemma ClausesFirst(toks: seq<Token>, i: nat, j: nat, s: Select)
    requires IsClauses(toks, i, j, s) && j < |toks| && StatementEnd(toks[j])
    ensures i < |toks| && From(toks[i], 0)
  {
    hide *;
    var b, c, d, e := ClausesCut(toks, i, j, s);
  }

  lemma LimitOpens(toks: seq<Token>, i: nat, j: nat, limit: Option<int>)
    requires IsLimit(toks, i, j, limit) && StatementEnd(toks[j])
    ensures i < |toks| && From(toks[i], 4)
  {
  }

  lemma WhereOpens(toks: seq<Token>, i: nat, j: nat, k: Key, terms: seq<Comparison>)
    requires IsWhere(toks, i, j, k, terms) && Rank(k) < 5 && j < |toks| && From(toks[j], Rank(k) + 1)
    ensures i < |toks| && From(toks[i], Rank(k))
  {
    hide IsCondition;
  }

  lemma ByOpens<T>(toks: seq<Token>, i: nat, j: nat, k: Key, is_: (seq<Token>, nat, nat, T) -> bool, es: seq<T>)
    requires IsBy(toks, i, j, k, is_, es) && Rank(k) < 5 && j < |toks| && From(toks[j], Rank(k) + 1)
    ensures i < |toks| && From(toks[i], Rank(k))
  {
    hide IsList;
  }

  lemma ClausesAre(toks: seq<Token>, i: nat, b: nat, c: nat, d: nat, e: nat, j: nat, s: Select)
    requires IsWhere(toks, i, b, WHERE, s.where_) && IsBy(toks, b, c, GROUP, IsRef, s.groupBy)
    requires IsWhere(toks, c, d, HAVING, s.having) && IsBy(toks, d, e, ORDER, IsOrder, s.orderBy) && IsLimit(toks, e, j, s.limit)
    ensures IsClauses(toks, i, j, s)
  {
    hide IsWhere, IsBy, IsLimit;
  }

  lemma SelectCut(toks: seq<Token>, i: nat, j: nat, s: Select) returns (f: nat, a: nat, b: nat)
    requires IsSelect(toks, i, j, s) && j < |toks| && StatementEnd(toks[j])
    ensures i + 1 < |toks| && f < |toks| && toks[f] == Kw(FROM) && Stopper(toks[f])
    ensures if s.star then s.columns == [] && toks[i + 1] == Sym(Star) && f == i + 2
            else IsList(toks, i + 1, f, IsItem, s.columns) && toks[i + 1] != Sym(Star)
    ensures IsTable(toks, f + 1, a, s.from) && a < |toks| && Closes(toks[a]) && toks[a] != Kw(AS)
    ensures IsJoins(toks, a, b, s.joins) && b < |toks| && Closes(toks[b])
    ensures toks[b] != Kw(AND) && toks[b] != Kw(JOIN) && toks[b] != Kw(INNER) && IsClauses(toks, b, j, s)
  {
    hide *;
    f, a, b := SelectPick(toks, i, j, s);
    ColumnsAt(toks, i + 1, f, s);
    ClausesFirst(toks, b, j, s);
    AfterFrom(toks, f + 1, a, b, s);
  }

  lemma SelectPick(toks: seq<Token>, i: nat, j: nat, s: Select) returns (f: nat, a: nat, b: nat)
    requires IsSelect(toks, i, j, s)
    ensures IsColumns(toks, i + 1, f, s) && f < |toks| && toks[f] == Kw(FROM) && IsTable(toks, f + 1, a, s.from)
    ensures IsJoins(toks, a, b, s.joins) && IsClauses(toks, b, j, s)
  {
    hide IsColumns, IsTable, IsJoins, IsClauses;
    f, a, b :|
      && IsColumns(toks, i + 1, f, s) && f < |toks| && toks[f] == Kw(FROM) && IsTable(toks, f + 1, a, s.from)
      && IsJoins(toks, a, b, s.joins) && IsClauses(toks, b, j, s);
  }

  lemma {:induction false} AfterFrom(toks: seq<Token>, i: nat, a: nat, b: nat, s: Select)
    requires i > 0 && i - 1 < |toks| && toks[i - 1] == Kw(FROM) && IsTable(toks, i, a, s.from) && IsJoins(toks, a, b, s.joins)
    requires b < |toks| && From(toks[b], 0)
    ensures Stopper(toks[i - 1]) && a < |toks| && Closes(toks[a]) && toks[a] != Kw(AS) && Closes(toks[b])
    ensures toks[b] != Kw(AND) && toks[b] != Kw(JOIN) && toks[b] != Kw(INNER)
  {
    hide IsJoins;
    JoinsOpen(toks, a, b, s.joins);
  }

  lemma {:induction false} ColumnsAt(toks: seq<Token>, i: nat, f: nat, s: Select)
    requires IsColumns(toks, i, f, s)
    ensures i < |toks|
    ensures if s.star then s.columns == [] && toks[i] == Sym(Star) && f == i + 1 else IsList(toks, i, f, IsItem, s.columns) && toks[i] != Sym(Star)
  {
    hide IsList;
    if !s.star { ItemsFirst(toks, i, f, s.columns); }
  }

  lemma {:induction false} ItemsFirst(toks: seq<Token>, i: nat, j: nat, items: seq<Item>)
    requires IsList(toks, i, j, IsItem, items)
    ensures i < |toks| && toks[i].Ident?
  {
    hide MoreListed;
    var m: nat :| IsItem(toks, i, m, items[0]) && MoreListed(toks, m, j, IsItem, items[1..]);
  }

  lemma Assembled(toks: seq<Token>, i: nat, f: nat, a: nat, b: nat, j: nat, s: Select)
    requires i + 1 < |toks| && toks[i] == Kw(SELECT) && f < |toks| && toks[f] == Kw(FROM)
    requires if s.star then s.columns == [] && f == i + 2 && toks[i + 1] == Sym(Star) else IsList(toks, i + 1, f, IsItem, s.columns)
    requires IsTable(toks, f + 1, a, s.from) && IsJoins(toks, a, b, s.joins) && IsClauses(toks, b, j, s)
    ensures IsSelect(toks, i, j, s)
  {
    hide IsTable, IsJoins, IsClauses, IsList;
    assert IsColumns(toks, i + 1, f, s);
    hide IsColumns;
  }

  lemma SelectFirst(toks: seq<Token>, i: nat, j: nat, q: Select) requires IsSelect(toks, i, j, q) ensures i < |toks| && toks[i] == Kw(SELECT) {
    hide IsClauses;
  }

  // ---- statements ----

  lemma SingleCut(toks: seq<Token>, s: Statement) returns (j: nat)
    requires IsSingle(toks, s)
    ensures IsStatement(toks, 0, j, s) && j < |toks|
    ensures toks[j] == End || (j + 1 < |toks| && toks[j] == Sym(Semicolon) && toks[j + 1] == End)
  {
    hide IsSelect, IsList;
    j :| IsStatement(toks, 0, j, s) && j < |toks| && (toks[j] == End || (j + 1 < |toks| && toks[j] == Sym(Semicolon) && toks[j + 1] == End));
  }

  /** Statements, each with a semicolon after it. */
  ghost predicate Closed(toks: seq<Token>, i: nat, j: nat, ss: seq<Statement>)
    decreases |ss|
  {
    if ss == [] then i == j < |toks|
    else exists m: nat :: IsStatement(toks, i, m, ss[0]) && m < |toks| && toks[m] == Sym(Semicolon) && Closed(toks, m + 1, j, ss[1..])
  }

  lemma {:induction false} NoneClosed(toks: seq<Token>) requires toks != [] ensures Closed(toks, 0, 0, []) {}

  lemma StatementTakes(toks: seq<Token>, i: nat, j: nat, s: Statement)
    requires IsStatement(toks, i, j, s)
    ensures i < j < |toks|
  {
    hide IsSelect, IsList;
  }

  lemma {:induction false} ClosedAfter(toks: seq<Token>, i: nat, m: nat, j: nat, ss: seq<Statement>, s: Statement)
    requires Closed(toks, i, m, ss) && IsStatement(toks, m, j, s) && j + 1 < |toks| && toks[j] == Sym(Semicolon)
    ensures Closed(toks, i, j + 1, ss + [s])
    decreases |ss|
  {
    hide IsStatement;
    var all := ss + [s];
    if ss == [] {
      assert all[1..] == [] && Closed(toks, j + 1, j + 1, all[1..]);
    } else {
      var n: nat :| IsStatement(toks, i, n, ss[0]) && n < |toks| && toks[n] == Sym(Semicolon) && Closed(toks, n + 1, m, ss[1..]);
      ClosedAfter(toks, n + 1, m, j, ss[1..], s);
      assert all[0] == ss[0] && all[1..] == ss[1..] + [s];
    }
  }

  /** And then the rest of a script. */
  lemma {:induction false} ClosedThen(toks: seq<Token>, i: nat, m: nat, ss: seq<Statement>, rest: seq<Statement>)
    requires Closed(toks, i, m, ss) && IsScript(toks, m, rest)
    ensures IsScript(toks, i, ss + rest)
    decreases |ss|
  {
    hide IsStatement;
    var all := ss + rest;
    if ss == [] {
      assert all == rest;
    } else {
      var n: nat :| IsStatement(toks, i, n, ss[0]) && n < |toks| && toks[n] == Sym(Semicolon) && Closed(toks, n + 1, m, ss[1..]);
      ClosedThen(toks, n + 1, m, ss[1..], rest);
      assert all[0] == ss[0] && all[1..] == ss[1..] + rest;
    }
  }

  lemma {:induction false} LastOpen(toks: seq<Token>, i: nat, j: nat, s: Statement)
    requires IsStatement(toks, i, j, s) && j < |toks| && toks[j] == End
    ensures IsScript(toks, i, [s])
  {
    hide IsStatement;
  }

  lemma {:induction false} NothingLeft(toks: seq<Token>, i: nat) requires i < |toks| && toks[i] == End ensures IsScript(toks, i, []) {}

  lemma ScriptCut(toks: seq<Token>, i: nat, ss: seq<Statement>) returns (j: nat)
    requires IsScript(toks, i, ss) && i < |toks| && toks[i] != End
    ensures ss != [] && IsStatement(toks, i, j, ss[0]) && j < |toks| && StatementEnd(toks[j])
    ensures if toks[j] == Sym(Semicolon) then IsScript(toks, j + 1, ss[1..]) else toks[j] == End && IsScript(toks, j, ss[1..])
  {
    hide IsStatement;
    j :| IsStatement(toks, i, j, ss[0]) && j < |toks| && if toks[j] == Sym(Semicolon) then IsScript(toks, j + 1, ss[1..]) else toks[j] == End && |ss| == 1;
    StatementTakes(toks, i, j, ss[0]);
  }

  lemma {:induction false} ScriptDone(toks: seq<Token>, i: nat, ss: seq<Statement>)
    requires IsScript(toks, i, ss) && i < |toks| && toks[i] == End
    ensures ss == []
  {
    hide IsSelect, IsList;
    if ss != [] {
      var j: nat :| IsStatement(toks, i, j, ss[0]) && j < |toks| && if toks[j] == Sym(Semicolon) then IsScript(toks, j + 1, ss[1..]) else toks[j] == End && |ss| == 1;
      StatementBegins(toks, i, j, ss[0]);
      assert false;
    }
  }

  lemma StatementBegins(toks: seq<Token>, i: nat, j: nat, s: Statement)
    requires IsStatement(toks, i, j, s)
    ensures i < |toks| && toks[i] != End
  {
  }

  // ---- no two trees ----

  lemma RefOnce(toks: seq<Token>, i: nat, j: nat, k: nat, a: ColumnRef, b: ColumnRef)
    requires IsRef(toks, i, j, a) && IsRef(toks, i, k, b) && toks[j] != Sym(Dot) && toks[k] != Sym(Dot)
    ensures a == b && j == k
  {
  }

  lemma ValueOnce(toks: seq<Token>, i: nat, j: nat, k: nat, a: Value, b: Value)
    requires IsValue(toks, i, j, a) && IsValue(toks, i, k, b) && Ends(toks[j]) && Ends(toks[k])
    ensures a == b && j == k
  {
    hide NamesAgg;
    if a.func != Plain && b.func != Plain { AggOnce(toks[i].name, a.func, b.func); }
    if a.func != Plain && !a.star && !b.star { RefOnce(toks, i + 2, j - 1, k - 1, a.ref, b.ref); }
  }

  lemma OperandOnce(toks: seq<Token>, i: nat, j: nat, k: nat, a: Operand, b: Operand)
    requires IsOperand(toks, i, j, a) && IsOperand(toks, i, k, b) && j < |toks| && Closes(toks[j]) && k < |toks| && Closes(toks[k])
    ensures a == b && j == k
  {
  }

  lemma ComparisonOnce(toks: seq<Token>, i: nat, j: nat, k: nat, a: Comparison, b: Comparison)
    requires IsComparison(toks, i, j, a) && IsComparison(toks, i, k, b) && j < |toks| && Closes(toks[j]) && k < |toks| && Closes(toks[k])
    ensures a == b && j == k
  {
    hide IsComparison, IsValue, IsOperand, Closes;
    var m := ComparisonCut(toks, i, j, a);
    var n := ComparisonCut(toks, i, k, b);
    ValueOnce(toks, i, m, n, a.left, b.left);
    OperandOnce(toks, m + 1, j, k, a.right, b.right);
  }

  lemma {:induction false} ConditionOnce(toks: seq<Token>, i: nat, j: nat, k: nat, a: seq<Comparison>, b: seq<Comparison>)
    requires IsCondition(toks, i, j, a) && IsCondition(toks, i, k, b)
    requires j < |toks| && Closes(toks[j]) && toks[j] != Kw(AND) && k < |toks| && Closes(toks[k]) && toks[k] != Kw(AND)
    ensures a == b && j == k
    decreases |a|
  {
    hide IsComparison, IsCondition, MoreTerms, Closes;
    var m := ConditionCut(toks, i, j, a);
    var n := ConditionCut(toks, i, k, b);
    ComparisonOnce(toks, i, m, n, a[0], b[0]);
    TermsGoOn(toks, m, j, a[1..]);
    TermsGoOn(toks, m, k, b[1..]);
    if toks[m] == Kw(AND) { ConditionOnce(toks, m + 1, j, k, a[1..], b[1..]); }
    assert a == [a[0]] + a[1..] && b == [b[0]] + b[1..];
  }

  lemma {:induction false} TermsGoOn(toks: seq<Token>, i: nat, j: nat, ts: seq<Comparison>)
    requires MoreTerms(toks, i, j, ts) && j < |toks| && toks[j] != Kw(AND)
    ensures i < |toks| && if toks[i] == Kw(AND) then ts != [] && IsCondition(toks, i + 1, j, ts) else ts == [] && i == j
  {
    hide IsCondition;
  }

  lemma TableOnce(toks: seq<Token>, i: nat, j: nat, k: nat, a: TableRef, b: TableRef)
    requires IsTable(toks, i, j, a) && IsTable(toks, i, k, b)
    requires Closes(toks[j]) && toks[j] != Kw(AS) && Closes(toks[k]) && toks[k] != Kw(AS)
    ensures a == b && j == k
  {
  }

  lemma JoinOnce(toks: seq<Token>, i: nat, j: nat, k: nat, a: JoinClause, b: JoinClause)
    requires IsJoin(toks, i, j, a) && IsJoin(toks, i, k, b)
    requires j < |toks| && Closes(toks[j]) && toks[j] != Kw(AND) && k < |toks| && Closes(toks[k]) && toks[k] != Kw(AND)
    ensures a == b && j == k
  {
    hide IsJoin, IsTable, IsCondition;
    var m := JoinCut(toks, i, j, a);
    var n := JoinCut(toks, i, k, b);
    TableOnce(toks, if toks[i] == Kw(INNER) then i + 2 else i + 1, m, n, a.table, b.table);
    ConditionOnce(toks, m + 1, j, k, a.on, b.on);
  }

  lemma {:induction false} JoinsOnce(toks: seq<Token>, i: nat, j: nat, k: nat, a: seq<JoinClause>, b: seq<JoinClause>)
    requires IsJoins(toks, i, j, a) && IsJoins(toks, i, k, b)
    requires j < |toks| && Closes(toks[j]) && toks[j] != Kw(AND) && toks[j] != Kw(JOIN) && toks[j] != Kw(INNER)
    requires k < |toks| && Closes(toks[k]) && toks[k] != Kw(AND) && toks[k] != Kw(JOIN) && toks[k] != Kw(INNER)
    ensures a == b && j == k
    decreases |a|
  {
    hide IsJoin, IsJoins, Closes;
    JoinsOpen(toks, i, j, a);
    JoinsOpen(toks, i, k, b);
    if a != [] {
      var m := JoinsCut(toks, i, j, a);
    var n := JoinsCut(toks, i, k, b);
      JoinOnce(toks, i, m, n, a[0], b[0]);
      JoinsOnce(toks, m, j, k, a[1..], b[1..]);
      assert a == [a[0]] + a[1..] && b == [b[0]] + b[1..];
    }
  }

  lemma ItemOnce(toks: seq<Token>, i: nat, j: nat, k: nat, a: Item, b: Item)
    requires IsItem(toks, i, j, a) && IsItem(toks, i, k, b) && j < |toks| && Between(toks[j]) && k < |toks| && Between(toks[k])
    ensures a == b && j == k
  {
    hide IsValue;
    var m, n := if a.alias == "" then j else j - 2, if b.alias == "" then k else k - 2;
    ValueEnds(toks, i, m, a.value);
    ValueEnds(toks, i, n, b.value);
    ValueOnce(toks, i, m, n, a.value, b.value);
  }

  lemma OrderOnce(toks: seq<Token>, i: nat, j: nat, k: nat, a: OrderItem, b: OrderItem)
    requires IsOrder(toks, i, j, a) && IsOrder(toks, i, k, b) && j < |toks| && Between(toks[j]) && k < |toks| && Between(toks[k])
    ensures a == b && j == k
  {
    hide IsValue;
    var m := OrderCut(toks, i, j, a);
    var n := OrderCut(toks, i, k, b);
    ValueOnce(toks, i, m, n, a.value, b.value);
  }

  lemma ColumnOnce(toks: seq<Token>, i: nat, j: nat, k: nat, a: Column, b: Column)
    requires IsColumn(toks, i, j, a) && IsColumn(toks, i, k, b) && Between(toks[j]) && Between(toks[k])
    ensures a == b && j == k
  {
  }

  lemma LiteralOnce(toks: seq<Token>, i: nat, j: nat, k: nat, a: Literal, b: Literal)
    requires IsLiteral(toks, i, j, a) && IsLiteral(toks, i, k, b)
    ensures a == b && j == k
  {
  }

  /** No stretch of tokens spells two elements of a list. */
  ghost predicate Once<T(!new)>(toks: seq<Token>, is_: (seq<Token>, nat, nat, T) -> bool) {
    forall i: nat, j: nat, k: nat, a, b |
      is_(toks, i, j, a) && is_(toks, i, k, b) && j < |toks| && Between(toks[j]) && k < |toks| && Between(toks[k]) :: a == b && j == k
  }

  lemma ElementsOnce(toks: seq<Token>)
    ensures Once(toks, IsItem) && Once(toks, IsRef) && Once(toks, IsOrder) && Once(toks, IsColumn) && Once(toks, IsLiteral)
  {
    hide IsItem, IsRef, IsOrder, IsColumn, IsLiteral, Between;
    forall i: nat, j: nat, k: nat, a, b | IsItem(toks, i, j, a) && IsItem(toks, i, k, b) && j < |toks| && Between(toks[j]) && k < |toks| && Between(toks[k])
      ensures a == b && j == k { ItemOnce(toks, i, j, k, a, b); }
    forall i: nat, j: nat, k: nat, a, b | IsRef(toks, i, j, a) && IsRef(toks, i, k, b) && j < |toks| && Between(toks[j]) && k < |toks| && Between(toks[k])
      ensures a == b && j == k { NoDot(toks[j]); NoDot(toks[k]); RefOnce(toks, i, j, k, a, b); }
    forall i: nat, j: nat, k: nat, a, b | IsOrder(toks, i, j, a) && IsOrder(toks, i, k, b) && j < |toks| && Between(toks[j]) && k < |toks| && Between(toks[k])
      ensures a == b && j == k { OrderOnce(toks, i, j, k, a, b); }
    forall i: nat, j: nat, k: nat, a, b | IsColumn(toks, i, j, a) && IsColumn(toks, i, k, b) && j < |toks| && Between(toks[j]) && k < |toks| && Between(toks[k])
      ensures a == b && j == k { ColumnOnce(toks, i, j, k, a, b); }
    forall i: nat, j: nat, k: nat, a, b | IsLiteral(toks, i, j, a) && IsLiteral(toks, i, k, b)
      ensures a == b && j == k { LiteralOnce(toks, i, j, k, a, b); }
  }

  lemma NoDot(t: Token) requires Between(t) ensures t != Sym(Dot) {}

  lemma {:induction false} ListOnce<T(!new)>(toks: seq<Token>, i: nat, j: nat, k: nat, is_: (seq<Token>, nat, nat, T) -> bool, a: seq<T>, b: seq<T>)
    requires IsList(toks, i, j, is_, a) && IsList(toks, i, k, is_, b) && Once(toks, is_)
    requires j < |toks| && Stopper(toks[j]) && k < |toks| && Stopper(toks[k])
    ensures a == b && j == k
    decreases |a|
  {
    hide Stopper;
    var m: nat :| is_(toks, i, m, a[0]) && MoreListed(toks, m, j, is_, a[1..]);
    var n: nat :| is_(toks, i, n, b[0]) && MoreListed(toks, n, k, is_, b[1..]);
    NotComma(toks[j]);
    NotComma(toks[k]);
    hide IsList;
    assert a[0] == b[0] && m == n;
    if toks[m] == Sym(Comma) { ListOnce(toks, m + 1, j, k, is_, a[1..], b[1..]); }
    assert a == [a[0]] + a[1..] && b == [b[0]] + b[1..];
  }

  lemma NotComma(t: Token) requires Stopper(t) ensures t != Sym(Comma) && Between(t) {}

  lemma WhereOnce(toks: seq<Token>, i: nat, j: nat, k: nat, w: Key, a: seq<Comparison>, b: seq<Comparison>)
    requires IsWhere(toks, i, j, w, a) && IsWhere(toks, i, k, w, b)
    requires j < |toks| && Stopper(toks[j]) && toks[j] != Kw(w) && k < |toks| && Stopper(toks[k]) && toks[k] != Kw(w)
    ensures a == b && j == k
  {
    hide IsCondition;
    if a != [] { ConditionOnce(toks, i + 1, j, k, a, b); }
  }

  lemma ByOnce<T(!new)>(toks: seq<Token>, i: nat, j: nat, k: nat, w: Key, is_: (seq<Token>, nat, nat, T) -> bool, a: seq<T>, b: seq<T>)
    requires IsBy(toks, i, j, w, is_, a) && IsBy(toks, i, k, w, is_, b) && Once(toks, is_)
    requires j < |toks| && Stopper(toks[j]) && toks[j] != Kw(w) && k < |toks| && Stopper(toks[k]) && toks[k] != Kw(w)
    ensures a == b && j == k
  {
    hide IsList, Stopper, Once;
    if a != [] { ListOnce(toks, i + 2, j, k, is_, a, b); }
  }

  lemma LimitOnce(toks: seq<Token>, i: nat, j: nat, k: nat, a: Option<int>, b: Option<int>)
    requires IsLimit(toks, i, j, a) && IsLimit(toks, i, k, b) && toks[j] != Kw(LIMIT) && toks[k] != Kw(LIMIT)
    ensures a == b && j == k
  {
  }

  lemma ClausesOnce(toks: seq<Token>, i: nat, j: nat, k: nat, a: Select, b: Select)
    requires IsClauses(toks, i, j, a) && IsClauses(toks, i, k, b) && j < |toks| && StatementEnd(toks[j]) && k < |toks| && StatementEnd(toks[k])
    ensures a.where_ == b.where_ && a.groupBy == b.groupBy && a.having == b.having && a.orderBy == b.orderBy && a.limit == b.limit && j == k
  {
    hide IsClauses, IsWhere, IsBy, IsLimit, Stopper, Once;
    var c, d, e, f := ClausesStop(toks, i, j, a);
    var c', d', e', f' := ClausesStop(toks, i, k, b);
    ElementsOnce(toks);
    WhereOnce(toks, i, c, c', WHERE, a.where_, b.where_);
    ByOnce(toks, c, d, d', GROUP, IsRef, a.groupBy, b.groupBy);
    WhereOnce(toks, d, e, e', HAVING, a.having, b.having);
    ByOnce(toks, e, f, f', ORDER, IsOrder, a.orderBy, b.orderBy);
    LimitOnce(toks, f, j, k, a.limit, b.limit);
  }

  lemma SelectOnce(toks: seq<Token>, i: nat, j: nat, k: nat, a: Select, b: Select)
    requires IsSelect(toks, i, j, a) && IsSelect(toks, i, k, b) && j < |toks| && StatementEnd(toks[j]) && k < |toks| && StatementEnd(toks[k])
    ensures a == b && j == k
  {
    hide IsSelect, IsList, IsTable, IsJoins, IsClauses, Stopper, Closes, Once, IsItem;
    var f, c, d := SelectCut(toks, i, j, a);
    var f', c', d' := SelectCut(toks, i, k, b);
    ElementsOnce(toks);
    if !a.star { ListOnce(toks, i + 1, f, f', IsItem, a.columns, b.columns); }
    TableOnce(toks, f + 1, c, c', a.from, b.from);
    JoinsOnce(toks, c, d, d', a.joins, b.joins);
    ClausesOnce(toks, d, j, k, a, b);
  }

  lemma StatementOnce(toks: seq<Token>, i: nat, j: nat, k: nat, a: Statement, b: Statement)
    requires IsStatement(toks, i, j, a) && IsStatement(toks, i, k, b) && StatementEnd(toks[j]) && StatementEnd(toks[k])
    ensures a == b && j == k
  {
    if a.SelectStmt? { SelectFirst(toks, i, j, a.select); }
    if b.SelectStmt? { SelectFirst(toks, i, k, b.select); }
    hide IsSelect, IsList, Once, IsColumn, IsLiteral;
    if a.SelectStmt? {
      SelectOnce(toks, i, j, k, a.select, b.select);
    } else {
      OtherOnce(toks, i, j, k, a, b);
    }
  }

  lemma OtherOnce(toks: seq<Token>, i: nat, j: nat, k: nat, a: Statement, b: Statement)
    requires IsStatement(toks, i, j, a) && IsStatement(toks, i, k, b) && !a.SelectStmt? && !b.SelectStmt?
    requires StatementEnd(toks[j]) && StatementEnd(toks[k])
    ensures a == b && j == k
  {
    ElementsOnce(toks);
    hide IsSelect, IsList, Once, IsColumn, IsLiteral;
    match a
    case CreateTable(_, cs) => ListOnce(toks, i + 4, j - 1, k - 1, IsColumn, cs, b.columns);
    case Insert(_, vs) => ListOnce(toks, i + 5, j - 1, k - 1, IsLiteral, vs, b.values);
    case _ =>
  }

  /** A list of tokens spells one statement at most. */
  lemma SingleOnce(toks: seq<Token>, a: Statement, b: Statement)
    requires IsSingle(toks, a) && IsSingle(toks, b)
    ensures a == b
  {
    var j := SingleCut(toks, a);
    var k := SingleCut(toks, b);
    hide IsStatement, IsSingle;
    StatementOnce(toks, 0, j, k, a, b);
  }

  lemma {:induction false} ScriptStarts(toks: seq<Token>, i: nat, ss: seq<Statement>)
    requires IsScript(toks, i, ss)
    ensures i < |toks|
  {
    hide IsSelect, IsList;
  }

  /** And one script. */
  lemma {:induction false} ScriptOnce(toks: seq<Token>, i: nat, a: seq<Statement>, b: seq<Statement>)
    requires IsScript(toks, i, a) && IsScript(toks, i, b) && i < |toks|
    ensures a == b
    decreases |a|
  {
    hide IsStatement, IsScript;
    if toks[i] == End {
      ScriptDone(toks, i, a);
      ScriptDone(toks, i, b);
    } else {
      var j := ScriptCut(toks, i, a);
    var k := ScriptCut(toks, i, b);
      StatementOnce(toks, i, j, k, a[0], b[0]);
      ScriptStarts(toks, if toks[j] == Sym(Semicolon) then j + 1 else j, a[1..]);
      ScriptOnce(toks, if toks[j] == Sym(Semicolon) then j + 1 else j, a[1..], b[1..]);
      assert a == [a[0]] + a[1..] && b == [b[0]] + b[1..];
    }
  }
}
