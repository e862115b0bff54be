/** What the grammar accepts can be printed, and what is printed it accepts. */
module SqlSpelling {
  import opened Wrappers
  import opened SqlSyntax
  import opened SqlGrammar

  // ---- what tokens spell is well formed ----

  lemma ValueGood(dec: Decimals, toks: seq<Token>, i: nat, j: nat, v: Value)
    requires TokensOk(dec, toks) && IsValue(toks, i, j, v)
    ensures ValueOk(v)
  {
    hide IsIdent, NamesAgg;
    if !v.star { if v.func == Plain { RefGood(dec, toks, i, j, v.ref); } else { RefGood(dec, toks, i + 2, j - 1, v.ref); } }
  }

  lemma RefGood(dec: Decimals, toks: seq<Token>, i: nat, j: nat, r: ColumnRef)
    requires TokensOk(dec, toks) && IsRef(toks, i, j, r)
    ensures RefOk(r)
  {
    hide IsIdent;
    assert TokenOk(dec, toks[i]);
    if r.table != "" { assert TokenOk(dec, toks[i + 2]); }
  }

  lemma LiteralGood(dec: Decimals, toks: seq<Token>, i: nat, j: nat, l: Literal)
    requires TokensOk(dec, toks) && IsLiteral(toks, i, j, l)
    ensures LiteralOk(dec, l)
  {
    assert TokenOk(dec, toks[i]);
  }

  lemma ComparisonGood(dec: Decimals, toks: seq<Token>, i: nat, j: nat, c: Comparison)
    requires TokensOk(dec, toks) && IsComparison(toks, i, j, c)
    ensures ComparisonOk(dec, c)
  {
    hide TokensOk, IsValue, IsOperand, ValueOk, OperandOk;
    var m: nat :| IsValue(toks, i, m, c.left) && m < j && IsOperand(toks, m + 1, j, c.right);
    ValueGood(dec, toks, i, m, c.left);
    OperandGood(dec, toks, m + 1, j, c.right);
  }

  lemma OperandGood(dec: Decimals, toks: seq<Token>, i: nat, j: nat, o: Operand)
    requires TokensOk(dec, toks) && IsOperand(toks, i, j, o)
    ensures OperandOk(dec, o)
  {
    hide TokensOk, RefOk, LiteralOk;
    match o
    case ColumnOperand(r) => RefGood(dec, toks, i, j, r);
    case LiteralOperand(l) => LiteralGood(dec, toks, i, j, l);
  }

  lemma {:induction false} ConditionGood(dec: Decimals, toks: seq<Token>, i: nat, j: nat, ts: seq<Comparison>)
    requires TokensOk(dec, toks) && IsCondition(toks, i, j, ts)
    ensures ts != [] && TermsOk(dec, ts)
    decreases |ts|
  {
    hide TokensOk, IsComparison, ComparisonOk;
    var m: nat :| IsComparison(toks, i, m, ts[0]) && MoreTerms(toks, m, j, ts[1..]);
    ComparisonGood(dec, toks, i, m, ts[0]);
    if ts[1..] != [] { ConditionGood(dec, toks, m + 1, j, ts[1..]); }
    forall k | 0 <= k < |ts| ensures ComparisonOk(dec, ts[k]) { if k > 0 { assert ts[k] == ts[1..][k - 1]; } }
  }

  lemma TableGood(dec: Decimals, toks: seq<Token>, i: nat, j: nat, t: TableRef)
    requires TokensOk(dec, toks) && IsTable(toks, i, j, t)
    ensures TableRefOk(t)
  {
    hide IsIdent;
    assert TokenOk(dec, toks[i]);
    if t.alias != "" { assert TokenOk(dec, toks[j - 1]); }
  }

  lemma JoinGood(dec: Decimals, toks: seq<Token>, i: nat, j: nat, c: JoinClause)
    requires TokensOk(dec, toks) && IsJoin(toks, i, j, c)
    ensures JoinOk(dec, c)
  {
    hide TokensOk, IsTable, IsCondition, TableRefOk, TermsOk;
    var a := if toks[i] == Kw(INNER) then i + 1 else i;
    var m: nat :| IsTable(toks, a + 1, m, c.table) && IsCondition(toks, m + 1, j, c.on);
    TableGood(dec, toks, a + 1, m, c.table);
    ConditionGood(dec, toks, m + 1, j, c.on);
  }

  lemma {:induction false} JoinsGood(dec: Decimals, toks: seq<Token>, i: nat, j: nat, js: seq<JoinClause>)
    requires TokensOk(dec, toks) && IsJoins(toks, i, j, js)
    ensures forall k | 0 <= k < |js| :: JoinOk(dec, js[k])
    decreases |js|
  {
    hide TokensOk, IsJoin, JoinOk;
    if js != [] {
      var m: nat :| IsJoin(toks, i, m, js[0]) && IsJoins(toks, m, j, js[1..]);
      JoinGood(dec, toks, i, m, js[0]);
      JoinsGood(dec, toks, m, j, js[1..]);
      forall k | 0 <= k < |js| ensures JoinOk(dec, js[k]) { if k > 0 { assert js[k] == js[1..][k - 1]; } }
    }
  }

  lemma ItemGood(dec: Decimals, toks: seq<Token>, i: nat, j: nat, item: Item)
    requires TokensOk(dec, toks) && IsItem(toks, i, j, item)
    ensures ItemOk(item)
  {
    hide IsIdent, IsValue, ValueOk;
    if item.alias == "" {
      ValueGood(dec, toks, i, j, item.value);
    } else {
      ValueGood(dec, toks, i, j - 2, item.value);
      assert TokenOk(dec, toks[j - 1]);
    }
  }

  lemma OrderGood(dec: Decimals, toks: seq<Token>, i: nat, j: nat, o: OrderItem)
    requires TokensOk(dec, toks) && IsOrder(toks, i, j, o)
    ensures ValueOk(o.value)
  {
    hide TokensOk, IsValue, ValueOk;
    if IsValue(toks, i, j, o.value) { ValueGood(dec, toks, i, j, o.value); } else { ValueGood(dec, toks, i, j - 1, o.value); }
  }

  lemma ColumnGood(dec: Decimals, toks: seq<Token>, i: nat, j: nat, c: Column)
    requires TokensOk(dec, toks) && IsColumn(toks, i, j, c)
    ensures ColumnOk(c)
  {
    hide IsIdent;
    assert TokenOk(dec, toks[i]);
  }

  /** Where an element of a list stands. */
  lemma {:induction false} ElementAt<T>(toks: seq<Token>, i: nat, j: nat, is_: (seq<Token>, nat, nat, T) -> bool, es: seq<T>, k: nat)
      returns (a: nat, b: nat)
    requires IsList(toks, i, j, is_, es) && k < |es|
    ensures is_(toks, a, b, es[k])
    decreases |es|
  {
    var m: nat :| is_(toks, i, m, es[0]) && MoreListed(toks, m, j, is_, es[1..]);
    if k == 0 { a, b := i, m; } else { a, b := ElementAt(toks, m + 1, j, is_, es[1..], k - 1); }
  }

  lemma WhereGood(dec: Decimals, toks: seq<Token>, i: nat, j: nat, k: Key, ts: seq<Comparison>)
    requires TokensOk(dec, toks) && IsWhere(toks, i, j, k, ts)
    ensures TermsOk(dec, ts)
  {
    hide TokensOk, IsCondition, ComparisonOk;
    if ts != [] { ConditionGood(dec, toks, i + 1, j, ts); }
  }

  lemma GroupGood(dec: Decimals, toks: seq<Token>, i: nat, j: nat, rs: seq<ColumnRef>)
    requires TokensOk(dec, toks) && IsBy(toks, i, j, GROUP, IsRef, rs)
    ensures forall k | 0 <= k < |rs| :: RefOk(rs[k])
  {
    hide TokensOk, IsList, RefOk;
    forall k | 0 <= k < |rs| ensures RefOk(rs[k]) {
      var a, b := ElementAt(toks, i + 2, j, IsRef, rs, k);
      RefGood(dec, toks, a, b, rs[k]);
    }
  }

  lemma OrderByGood(dec: Decimals, toks: seq<Token>, i: nat, j: nat, os: seq<OrderItem>)
    requires TokensOk(dec, toks) && IsBy(toks, i, j, ORDER, IsOrder, os)
    ensures forall k | 0 <= k < |os| :: ValueOk(os[k].value)
  {
    hide TokensOk, IsList, ValueOk;
    forall k | 0 <= k < |os| ensures ValueOk(os[k].value) {
      var a, b := ElementAt(toks, i + 2, j, IsOrder, os, k);
      OrderGood(dec, toks, a, b, os[k]);
    }
  }

  lemma LimitGood(dec: Decimals, toks: seq<Token>, i: nat, j: nat, limit: Option<int>)
    requires TokensOk(dec, toks) && IsLimit(toks, i, j, limit)
    ensures limit.Some? ==> 0 <= limit.value <= INT64_MAX
  {
    if limit.Some? { assert TokenOk(dec, toks[i + 1]); }
  }

  lemma ColumnsGood(dec: Decimals, toks: seq<Token>, i: nat, j: nat, s: Select)
    requires TokensOk(dec, toks) && IsColumns(toks, i, j, s)
    ensures if s.star then s.columns == [] else s.columns != [] && forall k | 0 <= k < |s.columns| :: ItemOk(s.columns[k])
  {
    hide TokensOk, ItemOk;
    if !s.star {
      forall k | 0 <= k < |s.columns| ensures ItemOk(s.columns[k]) {
        var a, b := ElementAt(toks, i, j, IsItem, s.columns, k);
        ItemGood(dec, toks, a, b, s.columns[k]);
      }
    }
  }

  lemma SelectGood(dec: Decimals, toks: seq<Token>, i: nat, j: nat, s: Select)
    requires TokensOk(dec, toks) && IsSelect(toks, i, j, s)
    ensures SelectOk(dec, s)
  {
    hide TokensOk, IsColumns, IsTable, IsJoins, IsWhere, IsBy, IsLimit, TableRefOk, JoinOk, TermsOk, ItemOk, RefOk, ValueOk;
    var f: nat, a: nat, b: nat :|
      && IsColumns(toks, i + 1, f, s) && f < |toks| && toks[f] == Kw(FROM) && IsTable(toks, f + 1, a, s.from)
      && IsJoins(toks, a, b, s.joins) && IsClauses(toks, b, j, s);
    var c: nat, d: nat, e: nat, g: nat :|
      && IsWhere(toks, b, c, WHERE, s.where_) && IsBy(toks, c, d, GROUP, IsRef, s.groupBy)
      && IsWhere(toks, d, e, HAVING, s.having) && IsBy(toks, e, g, ORDER, IsOrder, s.orderBy) && IsLimit(toks, g, j, s.limit);
    ColumnsGood(dec, toks, i + 1, f, s);
    TableGood(dec, toks, f + 1, a, s.from);
    JoinsGood(dec, toks, a, b, s.joins);
    WhereGood(dec, toks, b, c, WHERE, s.where_);
    GroupGood(dec, toks, c, d, s.groupBy);
    WhereGood(dec, toks, d, e, HAVING, s.having);
    OrderByGood(dec, toks, e, g, s.orderBy);
    LimitGood(dec, toks, g, j, s.limit);
  }

  lemma StatementGood(dec: Decimals, toks: seq<Token>, i: nat, j: nat, s: Statement)
    requires TokensOk(dec, toks) && IsStatement(toks, i, j, s)
    ensures StatementOk(dec, s)
  {
    hide IsIdent, IsSelect, SelectOk, IsList, LiteralOk, ColumnOk, IsColumn, IsLiteral;
    match s
    case CreateTable(t, cs) =>
      assert TokenOk(dec, toks[i + 2]);
      ListSome(toks, i + 4, j - 1, IsColumn, cs);
      forall k | 0 <= k < |cs| ensures ColumnOk(cs[k]) {
        var a, b := ElementAt(toks, i + 4, j - 1, IsColumn, cs, k);
        ColumnGood(dec, toks, a, b, cs[k]);
      }
    case CreateIndex(t, c) => assert TokenOk(dec, toks[i + 3]) && TokenOk(dec, toks[i + 5]);
    case Insert(t, vs) =>
      assert TokenOk(dec, toks[i + 2]);
      ListSome(toks, i + 5, j - 1, IsLiteral, vs);
      forall k | 0 <= k < |vs| ensures LiteralOk(dec, vs[k]) {
        var a, b := ElementAt(toks, i + 5, j - 1, IsLiteral, vs, k);
        LiteralGood(dec, toks, a, b, vs[k]);
      }
    case SelectStmt(q) => SelectGood(dec, toks, i, j, q);
    case _ =>
  }

  lemma {:induction false} ListSome<T>(toks: seq<Token>, i: nat, j: nat, is_: (seq<Token>, nat, nat, T) -> bool, es: seq<T>)
    requires IsList(toks, i, j, is_, es)
    ensures es != []
  {
  }

  lemma SingleGood(dec: Decimals, toks: seq<Token>, s: Statement)
    requires TokensOk(dec, toks) && IsSingle(toks, s)
    ensures StatementOk(dec, s)
  {
    hide TokensOk, IsStatement, StatementOk;
    var j: nat :| IsStatement(toks, 0, j, s);
    StatementGood(dec, toks, 0, j, s);
  }

  lemma {:induction false} ScriptGood(dec: Decimals, toks: seq<Token>, i: nat, ss: seq<Statement>)
    requires TokensOk(dec, toks) && IsScript(toks, i, ss)
    ensures forall k | 0 <= k < |ss| :: StatementOk(dec, ss[k])
    decreases |ss|
  {
    hide TokensOk, IsStatement, StatementOk;
    if ss != [] {
      var j: nat :| IsStatement(toks, i, j, ss[0]) && j < |toks| && if toks[j] == Sym(Semicolon) then IsScript(toks, j + 1, ss[1..]) else toks[j] == End && |ss| == 1;
      StatementGood(dec, toks, i, j, ss[0]);
      if toks[j] == Sym(Semicolon) { ScriptGood(dec, toks, j + 1, ss[1..]); }
      forall k | 0 <= k < |ss| ensures StatementOk(dec, ss[k]) { if k > 0 { assert ss[k] == ss[1..][k - 1]; } }
    }
  }

  // ---- what is printed ----

  /** The tokens from `i` on are `ts`, and others follow. */
  predicate At(toks: seq<Token>, i: nat, ts: seq<Token>) { i + |ts| < |toks| && toks[i..i + |ts|] == ts }

  lemma AtSplit(toks: seq<Token>, i: nat, a: seq<Token>, b: seq<Token>)
    ensures At(toks, i, a + b) <==> At(toks, i, a) && At(toks, i + |a|, b)
    ensures At(toks, i, a + b) && b != [] ==> toks[i + |a|] == b[0]
  {
    if At(toks, i, a + b) {
      assert (a + b)[..|a|] == a && (a + b)[|a|..] == b;
      assert toks[i..i + |a|] == toks[i..i + |a + b|][..|a|];
      assert toks[i + |a|..i + |a| + |b|] == toks[i..i + |a + b|][|a|..];
    }
    if At(toks, i, a) && At(toks, i + |a|, b) {
      assert toks[i..i + |a + b|] == toks[i..i + |a|] + toks[i + |a|..i + |a| + |b|];
    }
  }

  lemma AtOne(toks: seq<Token>, i: nat, t: Token)
    ensures At(toks, i, [t]) <==> i + 1 < |toks| && toks[i] == t
  {
    if i + 1 < |toks| { assert toks[i..i + 1] == [toks[i]]; }
  }

  lemma AtFirst(toks: seq<Token>, i: nat, ts: seq<Token>)
    requires At(toks, i, ts) && ts != []
    ensures toks[i] == ts[0]
  {
    assert toks[i..i + |ts|][0] == toks[i];
  }

  lemma AtEach(toks: seq<Token>, i: nat, ts: seq<Token>)
    requires At(toks, i, ts)
    ensures forall k | 0 <= k < |ts| :: toks[i + k] == ts[k]
  {
    forall k | 0 <= k < |ts| ensures toks[i + k] == ts[k] { assert toks[i..i + |ts|][k] == toks[i + k]; }
  }

  lemma RefPrinted(toks: seq<Token>, i: nat, r: ColumnRef)
    requires At(toks, i, RefTokens(r))
    ensures IsRef(toks, i, i + |RefTokens(r)|, r)
  {
    AtEach(toks, i, RefTokens(r));
  }

  lemma ValuePrinted(toks: seq<Token>, i: nat, v: Value)
    requires At(toks, i, ValueTokens(v)) && ValueOk(v)
    ensures IsValue(toks, i, i + |ValueTokens(v)|, v)
  {
    if v.func == Plain {
      RefPrinted(toks, i, v.ref);
    } else {
      assert NamesAgg(AggName(v.func), v.func);
      hide NamesAgg, RefOk, AggName;
      var head, arg := [Ident(AggName(v.func)), Sym(LParen)], if v.star then [Sym(Star)] else RefTokens(v.ref);
      Argument(toks, i, head, arg);
      if !v.star { RefPrinted(toks, i + 2, v.ref); }
    }
  }

  lemma Argument(toks: seq<Token>, i: nat, head: seq<Token>, arg: seq<Token>)
    requires |head| == 2 && arg != [] && At(toks, i, head + arg + [Sym(RParen)])
    ensures toks[i] == head[0] && toks[i + 1] == head[1] && At(toks, i + 2, arg) && toks[i + 2] == arg[0]
    ensures i + 3 + |arg| < |toks| && toks[i + 2 + |arg|] == Sym(RParen)
  {
    AtSplit(toks, i, head + arg, [Sym(RParen)]);
    AtSplit(toks, i, head, arg);
    AtEach(toks, i, head);
    AtFirst(toks, i + 2, arg);
  }

  lemma ComparisonPrinted(dec: Decimals, toks: seq<Token>, i: nat, c: Comparison)
    requires At(toks, i, ComparisonTokens(c)) && ComparisonOk(dec, c)
    ensures IsComparison(toks, i, i + |ComparisonTokens(c)|, c)
  {
    hide IsValue, ValueOk, RefOk, LiteralOk, At, ValueTokens;
    var v, o := ValueTokens(c.left), OperandTokens(c.right);
    var n := i + |v|;
    AtSplit(toks, i, v + [Sym(Cmp(c.op))], o);
    AtSplit(toks, i, v, [Sym(Cmp(c.op))]);
    ValuePrinted(toks, i, c.left);
    OperandPrinted(toks, n + 1, c.right);
    assert IsValue(toks, i, n, c.left) && toks[n] == Sym(Cmp(c.op));
  }

  lemma OperandPrinted(toks: seq<Token>, i: nat, o: Operand)
    requires At(toks, i, OperandTokens(o))
    ensures IsOperand(toks, i, i + |OperandTokens(o)|, o)
  {
    match o
    case ColumnOperand(r) => RefPrinted(toks, i, r);
    case LiteralOperand(l) => AtEach(toks, i, LiteralTokens(l));
  }

  lemma {:induction false} ConditionPrinted(dec: Decimals, toks: seq<Token>, i: nat, ts: seq<Comparison>)
    requires ts != [] && At(toks, i, ConditionTokens(ts)) && TermsOk(dec, ts)
    ensures IsCondition(toks, i, i + |ConditionTokens(ts)|, ts)
    decreases |ts|
  {
    hide IsComparison, ComparisonOk, ComparisonTokens;
    var first := ComparisonTokens(ts[0]);
    var n, j := i + |first|, i + |ConditionTokens(ts)|;
    if |ts| == 1 {
      assert ts[1..] == [] && MoreTerms(toks, n, j, ts[1..]);
    } else {
      AtSplit(toks, i, first + [Kw(AND)], ConditionTokens(ts[1..]));
      AtSplit(toks, i, first, [Kw(AND)]);
      ConditionPrinted(dec, toks, n + 1, ts[1..]);
      assert MoreTerms(toks, n, j, ts[1..]);
    }
    ComparisonPrinted(dec, toks, i, ts[0]);
  }

  lemma TablePrinted(toks: seq<Token>, i: nat, t: TableRef)
    requires At(toks, i, TableRefTokens(t))
    ensures IsTable(toks, i, i + |TableRefTokens(t)|, t)
  {
    AtEach(toks, i, TableRefTokens(t));
  }

  lemma JoinPrinted(dec: Decimals, toks: seq<Token>, i: nat, c: JoinClause)
    requires At(toks, i, JoinTokens(c)) && JoinOk(dec, c)
    ensures IsJoin(toks, i, i + |JoinTokens(c)|, c)
  {
    hide IsTable, IsCondition, TermsOk, TableRefOk, At, TableRefTokens, ConditionTokens;
    var t, on := TableRefTokens(c.table), ConditionTokens(c.on);
    assert [] + [Kw(JOIN)] == [Kw(JOIN)];
    AtSplit(toks, i, [Kw(JOIN)] + t + [Kw(ON)], on);
    AtSplit(toks, i, [Kw(JOIN)] + t, [Kw(ON)]);
    AtSplit(toks, i, [Kw(JOIN)], t);
    AtOne(toks, i, Kw(JOIN));
    AtOne(toks, i + 1 + |t|, Kw(ON));
    TablePrinted(toks, i + 1, c.table);
    ConditionPrinted(dec, toks, i + 2 + |t|, c.on);
  }

  lemma {:induction false} JoinsPrinted(dec: Decimals, toks: seq<Token>, i: nat, js: seq<JoinClause>)
    requires At(toks, i, JoinsTokens(js)) && forall k | 0 <= k < |js| :: JoinOk(dec, js[k])
    ensures IsJoins(toks, i, i + |JoinsTokens(js)|, js)
    decreases |js|
  {
    hide IsJoin, JoinOk, JoinTokens;
    if js != [] {
      AtSplit(toks, i, JoinTokens(js[0]), JoinsTokens(js[1..]));
      JoinPrinted(dec, toks, i, js[0]);
      JoinsPrinted(dec, toks, i + |JoinTokens(js[0])|, js[1..]);
    }
  }

  lemma ItemPrinted(toks: seq<Token>, i: nat, item: Item)
    requires At(toks, i, ItemTokens(item)) && ItemOk(item)
    ensures IsItem(toks, i, i + |ItemTokens(item)|, item)
  {
    hide IsValue, ValueOk, ValueTokens, IsIdent;
    if item.alias != "" {
      AtSplit(toks, i, ValueTokens(item.value), [Kw(AS), Ident(item.alias)]);
      AtEach(toks, i + |ValueTokens(item.value)|, [Kw(AS), Ident(item.alias)]);
    }
    ValuePrinted(toks, i, item.value);
  }

  lemma OrderPrinted(toks: seq<Token>, i: nat, o: OrderItem)
    requires At(toks, i, OrderItemTokens(o)) && ValueOk(o.value)
    ensures IsOrder(toks, i, i + |OrderItemTokens(o)|, o)
  {
    hide IsValue, ValueOk, ValueTokens;
    var v := ValueTokens(o.value);
    if o.desc {
      AtSplit(toks, i, v, [Kw(DESC)]);
      AtOne(toks, i + |v|, Kw(DESC));
    } else {
      assert v + [] == v;
    }
    ValuePrinted(toks, i, o.value);
  }

  lemma ColumnPrinted(toks: seq<Token>, i: nat, c: Column)
    requires At(toks, i, ColumnTokens(c)) && ColumnOk(c)
    ensures IsColumn(toks, i, i + |ColumnTokens(c)|, c)
  {
    hide IsIdent;
    AtEach(toks, i, ColumnTokens(c));
  }

  lemma LiteralPrinted(toks: seq<Token>, i: nat, l: Literal)
    requires At(toks, i, LiteralTokens(l))
    ensures IsLiteral(toks, i, i + |LiteralTokens(l)|, l)
  {
    AtEach(toks, i, LiteralTokens(l));
  }

  /** Each element is accepted where it is printed. */
  ghost predicate Printed<T>(toks: seq<Token>, spell: T -> seq<Token>, is_: (seq<Token>, nat, nat, T) -> bool, e: T) {
    forall i: nat | At(toks, i, spell(e)) :: is_(toks, i, i + |spell(e)|, e)
  }

  lemma {:induction false} ListPrinted<T>(toks: seq<Token>, i: nat, spell: T -> seq<Token>, is_: (seq<Token>, nat, nat, T) -> bool, es: seq<T>)
    requires es != [] && At(toks, i, CommaTokens(spell, es)) && forall k | 0 <= k < |es| :: Printed(toks, spell, is_, es[k])
    ensures IsList(toks, i, i + |CommaTokens(spell, es)|, is_, es)
    decreases |es|
  {
    var first := spell(es[0]);
    var n, j := i + |first|, i + |CommaTokens(spell, es)|;
    assert Printed(toks, spell, is_, es[0]);
    if |es| == 1 {
      assert es[1..] == [] && MoreListed(toks, n, j, is_, es[1..]);
    } else {
      AtSplit(toks, i, first + [Sym(Comma)], CommaTokens(spell, es[1..]));
      AtSplit(toks, i, first, [Sym(Comma)]);
      assert forall k | 0 <= k < |es[1..]| :: es[1..][k] == es[k + 1];
      ListPrinted(toks, n + 1, spell, is_, es[1..]);
      assert MoreListed(toks, n, j, is_, es[1..]);
    }
    assert is_(toks, i, n, es[0]);
  }

  lemma {:induction false} WherePrinted(dec: Decimals, toks: seq<Token>, i: nat, k: Key, ts: seq<Comparison>)
    requires i < |toks| && (ts != [] ==> At(toks, i, [Kw(k)] + ConditionTokens(ts))) && TermsOk(dec, ts)
    ensures IsWhere(toks, i, if ts == [] then i else i + 1 + |ConditionTokens(ts)|, k, ts)
  {
    hide TermsOk, IsCondition, ConditionTokens, At;
    if ts != [] {
      AtSplit(toks, i, [Kw(k)], ConditionTokens(ts));
      AtOne(toks, i, Kw(k));
      ConditionPrinted(dec, toks, i + 1, ts);
    }
  }

  lemma {:induction false} ByPrinted<T>(toks: seq<Token>, i: nat, k: Key, spell: T -> seq<Token>, is_: (seq<Token>, nat, nat, T) -> bool, es: seq<T>)
    requires i < |toks| && (es != [] ==> At(toks, i, [Kw(k), Kw(BY)] + CommaTokens(spell, es)))
    requires forall n | 0 <= n < |es| :: Printed(toks, spell, is_, es[n])
    ensures IsBy(toks, i, if es == [] then i else i + 2 + |CommaTokens(spell, es)|, k, is_, es)
  {
    hide IsList, CommaTokens, Printed, At;
    if es != [] {
      AtSplit(toks, i, [Kw(k), Kw(BY)], CommaTokens(spell, es));
      TwoWords(toks, i, k);
      ListPrinted(toks, i + 2, spell, is_, es);
    }
  }

  lemma TwoWords(toks: seq<Token>, i: nat, k: Key)
    requires At(toks, i, [Kw(k), Kw(BY)])
    ensures i + 2 < |toks| && toks[i] == Kw(k) && toks[i + 1] == Kw(BY)
  {
    AtEach(toks, i, [Kw(k), Kw(BY)]);
  }

  lemma RefsPrinted(toks: seq<Token>, rs: seq<ColumnRef>) ensures forall n | 0 <= n < |rs| :: Printed(toks, RefTokens, IsRef, rs[n]) {
    forall n, i: nat | 0 <= n < |rs| && At(toks, i, RefTokens(rs[n])) ensures IsRef(toks, i, i + |RefTokens(rs[n])|, rs[n]) { RefPrinted(toks, i, rs[n]); }
  }

  lemma OrdersPrinted(toks: seq<Token>, os: seq<OrderItem>)
    requires forall n | 0 <= n < |os| :: ValueOk(os[n].value)
    ensures forall n | 0 <= n < |os| :: Printed(toks, OrderItemTokens, IsOrder, os[n])
  {
    forall n, i: nat | 0 <= n < |os| && At(toks, i, OrderItemTokens(os[n])) ensures IsOrder(toks, i, i + |OrderItemTokens(os[n])|, os[n]) { OrderPrinted(toks, i, os[n]); }
  }

  lemma ItemsPrinted(toks: seq<Token>, items: seq<Item>)
    requires forall n | 0 <= n < |items| :: ItemOk(items[n])
    ensures forall n | 0 <= n < |items| :: Printed(toks, ItemTokens, IsItem, items[n])
  {
    forall n, i: nat | 0 <= n < |items| && At(toks, i, ItemTokens(items[n])) ensures IsItem(toks, i, i + |ItemTokens(items[n])|, items[n]) { ItemPrinted(toks, i, items[n]); }
  }

  lemma ColumnsPrinted(toks: seq<Token>, cs: seq<Column>)
    requires forall n | 0 <= n < |cs| :: ColumnOk(cs[n])
    ensures forall n | 0 <= n < |cs| :: Printed(toks, ColumnTokens, IsColumn, cs[n])
  {
    forall n, i: nat | 0 <= n < |cs| && At(toks, i, ColumnTokens(cs[n])) ensures IsColumn(toks, i, i + |ColumnTokens(cs[n])|, cs[n]) { ColumnPrinted(toks, i, cs[n]); }
  }

  lemma LiteralsPrinted(toks: seq<Token>, ls: seq<Literal>) ensures forall n | 0 <= n < |ls| :: Printed(toks, LiteralTokens, IsLiteral, ls[n]) {
    forall n, i: nat | 0 <= n < |ls| && At(toks, i, LiteralTokens(ls[n])) ensures IsLiteral(toks, i, i + |LiteralTokens(ls[n])|, ls[n]) { LiteralPrinted(toks, i, ls[n]); }
  }

  function ClausesTokens(s: Select): seq<Token> {
    WhereTokens(s.where_) + (GroupTokens(s.groupBy) + (HavingTokens(s.having) + (OrderByTokens(s.orderBy) + LimitTokens(s.limit))))
  }

  function ColumnsTokens(s: Select): seq<Token> { if s.star then [Sym(Star)] else CommaTokens(ItemTokens, s.columns) }

  lemma FiveParts(toks: seq<Token>, i: nat, v: seq<Token>, w: seq<Token>, x: seq<Token>, y: seq<Token>, z: seq<Token>)
    requires At(toks, i, v + (w + (x + (y + z))))
    ensures i + |v| + |w| + |x| + |y| + |z| < |toks| && At(toks, i, v) && At(toks, i + |v|, w) && At(toks, i + |v| + |w|, x) && At(toks, i + |v| + |w| + |x|, y)
    ensures At(toks, i + |v| + |w| + |x| + |y|, z) && |v + (w + (x + (y + z)))| == |v| + |w| + |x| + |y| + |z|
  {
    hide At;
    AtSplit(toks, i, v, w + (x + (y + z)));
    AtSplit(toks, i + |v|, w, x + (y + z));
    AtSplit(toks, i + |v| + |w|, x, y + z);
    AtSplit(toks, i + |v| + |w| + |x|, y, z);
    AtEnd(toks, i + |v| + |w| + |x| + |y|, z);
  }

  lemma AtEnd(toks: seq<Token>, i: nat, ts: seq<Token>) requires At(toks, i, ts) ensures i + |ts| < |toks| {}

  lemma ClausesPrinted(dec: Decimals, toks: seq<Token>, i: nat, s: Select)
    requires At(toks, i, ClausesTokens(s)) && SelectOk(dec, s)
    ensures IsClauses(toks, i, i + |ClausesTokens(s)|, s)
  {
    hide At, TermsOk, RefOk, ValueOk, JoinOk, ItemOk, TableRefOk, ConditionTokens, CommaTokens, OrderItemTokens, RefTokens,
         IsWhere, IsBy, IsLimit, IsRef, IsOrder, Printed;
    var w, g, h, o, l := WhereTokens(s.where_), GroupTokens(s.groupBy), HavingTokens(s.having), OrderByTokens(s.orderBy), LimitTokens(s.limit);
    var b, c, d, e := i + |w|, i + |w| + |g|, i + |w| + |g| + |h|, i + |w| + |g| + |h| + |o|;
    FiveParts(toks, i, w, g, h, o, l);
    WherePrinted(dec, toks, i, WHERE, s.where_);
    RefsPrinted(toks, s.groupBy);
    ByPrinted(toks, b, GROUP, RefTokens, IsRef, s.groupBy);
    WherePrinted(dec, toks, c, HAVING, s.having);
    OrdersPrinted(toks, s.orderBy);
    ByPrinted(toks, d, ORDER, OrderItemTokens, IsOrder, s.orderBy);
    LimitPrinted(toks, e, s.limit);
  }

  lemma LimitPrinted(toks: seq<Token>, i: nat, limit: Option<int>)
    requires At(toks, i, LimitTokens(limit)) && (limit.Some? ==> limit.value >= 0)
    ensures IsLimit(toks, i, i + |LimitTokens(limit)|, limit)
  {
    AtEach(toks, i, LimitTokens(limit));
  }

  lemma SelectPrinted(dec: Decimals, toks: seq<Token>, i: nat, s: Select)
    requires At(toks, i, SelectTokens(s)) && SelectOk(dec, s)
    ensures IsSelect(toks, i, i + |SelectTokens(s)|, s)
  {
    SelectParts(s);
    var c, t, j, rest := ColumnsTokens(s), TableRefTokens(s.from), JoinsTokens(s.joins), ClausesTokens(s);
    var f := i + 1 + |c|;
    var a := f + 1 + |t|;
    hide At, SelectTokens, ColumnsTokens, TableRefTokens, JoinsTokens, ClausesTokens, IsColumns, IsTable, IsJoins, IsClauses, TermsOk, JoinOk, RefOk, ValueOk, ItemOk, TableRefOk;
    AtSplit(toks, i, [Kw(SELECT)], c + ([Kw(FROM)] + (t + (j + rest))));
    AtSplit(toks, i + 1, c, [Kw(FROM)] + (t + (j + rest)));
    AtSplit(toks, f, [Kw(FROM)], t + (j + rest));
    AtSplit(toks, f + 1, t, j + rest);
    AtSplit(toks, a, j, rest);
    AtOne(toks, i, Kw(SELECT));
    AtOne(toks, f, Kw(FROM));
    SelectColumns(dec, toks, i + 1, s);
    TablePrinted(toks, f + 1, s.from);
    JoinsPrinted(dec, toks, a, s.joins);
    ClausesPrinted(dec, toks, a + |j|, s);
  }

  lemma SelectColumns(dec: Decimals, toks: seq<Token>, i: nat, s: Select)
    requires At(toks, i, ColumnsTokens(s)) && SelectOk(dec, s)
    ensures IsColumns(toks, i, i + |ColumnsTokens(s)|, s)
  {
    hide TermsOk, JoinOk, RefOk, ValueOk, ItemOk, TableRefOk, IsList, CommaTokens, Printed;
    if s.star {
      AtOne(toks, i, Sym(Star));
    } else {
      ItemsPrinted(toks, s.columns);
      ListPrinted(toks, i, ItemTokens, IsItem, s.columns);
    }
  }

  lemma SelectParts(s: Select)
    ensures SelectTokens(s) == [Kw(SELECT)] + (ColumnsTokens(s) + ([Kw(FROM)] + (TableRefTokens(s.from)
                               + (JoinsTokens(s.joins) + ClausesTokens(s)))))
    ensures |SelectTokens(s)| == 2 + |ColumnsTokens(s)| + |TableRefTokens(s.from)| + |JoinsTokens(s.joins)| + |ClausesTokens(s)|
  {
    hide CommaTokens, TableRefTokens, JoinsTokens, WhereTokens, GroupTokens, HavingTokens, OrderByTokens, LimitTokens;
    var c, t, j, w, g, h, o, l := ColumnsTokens(s), TableRefTokens(s.from), JoinsTokens(s.joins), WhereTokens(s.where_),
      GroupTokens(s.groupBy), HavingTokens(s.having), OrderByTokens(s.orderBy), LimitTokens(s.limit);
    Regroup(w + g + h, o, l);
    Regroup(w + g, h, o + l);
    Regroup(w, g, h + (o + l));
    FrontParts([Kw(SELECT)], c, [Kw(FROM)], t, j, w, g, h, o, l);
  }

  lemma FrontParts(k: seq<Token>, c: seq<Token>, f: seq<Token>, t: seq<Token>, j: seq<Token>, w: seq<Token>, g: seq<Token>, h: seq<Token>,
                   o: seq<Token>, l: seq<Token>)
    ensures k + c + f + t + j + w + g + h + o + l == k + (c + (f + (t + (j + (w + (g + (h + (o + l))))))))
  {
    var p := k + c + f + t + j;
    Regroup(p + w + g + h, o, l);
    Regroup(p + w + g, h, o + l);
    Regroup(p + w, g, h + (o + l));
    Regroup(p, w, g + (h + (o + l)));
    var r := w + (g + (h + (o + l)));
    Regroup(k + c + f + t, j, r);
    Regroup(k + c + f, t, j + r);
    Regroup(k + c, f, t + (j + r));
    Regroup(k, c, f + (t + (j + r)));
  }

  lemma Regroup(a: seq<Token>, b: seq<Token>, c: seq<Token>) ensures a + b + c == a + (b + c) {}

  lemma StatementPrinted(dec: Decimals, toks: seq<Token>, i: nat, s: Statement)
    requires At(toks, i, StatementTokens(s)) && StatementOk(dec, s)
    ensures IsStatement(toks, i, i + |StatementTokens(s)|, s)
  {
    hide SelectTokens, SelectOk, IsSelect, IsIdent, CommaTokens, IsList, ColumnOk, LiteralOk, Printed;
    match s
    case CreateTable(t, cs) => CreatePrinted(toks, i, t, cs);
    case Insert(t, vs) => InsertPrinted(toks, i, t, vs);
    case SelectStmt(q) =>
      SelectParts(q);
      SelectPrinted(dec, toks, i, q);
    case _ => WordsPrinted(toks, i, s);
  }

  lemma CreatePrinted(toks: seq<Token>, i: nat, t: string, cs: seq<Column>)
    requires At(toks, i, StatementTokens(CreateTable(t, cs))) && cs != [] && forall n | 0 <= n < |cs| :: ColumnOk(cs[n])
    ensures IsStatement(toks, i, i + |StatementTokens(CreateTable(t, cs))|, CreateTable(t, cs))
  {
    hide CommaTokens, IsList, ColumnOk, Printed, At;
    var head := [Kw(CREATE), Kw(TABLE), Ident(t), Sym(LParen)];
    ColumnsPrinted(toks, cs);
    InParentheses(toks, i, head, ColumnTokens, IsColumn, cs);
    assert toks[i + 0] == head[0] && toks[i + 1] == head[1] && toks[i + 2] == head[2] && toks[i + 3] == head[3];
  }

  lemma InsertPrinted(toks: seq<Token>, i: nat, t: string, vs: seq<Literal>)
    requires At(toks, i, StatementTokens(Insert(t, vs))) && vs != []
    ensures IsStatement(toks, i, i + |StatementTokens(Insert(t, vs))|, Insert(t, vs))
  {
    hide CommaTokens, IsList, Printed, At;
    var head := [Kw(INSERT), Kw(INTO), Ident(t), Kw(VALUES), Sym(LParen)];
    LiteralsPrinted(toks, vs);
    InParentheses(toks, i, head, LiteralTokens, IsLiteral, vs);
    assert toks[i + 0] == head[0] && toks[i + 1] == head[1] && toks[i + 2] == head[2] && toks[i + 3] == head[3] && toks[i + 4] == head[4];
  }

  lemma WordsPrinted(toks: seq<Token>, i: nat, s: Statement)
    requires At(toks, i, StatementTokens(s)) && !s.CreateTable? && !s.Insert? && !s.SelectStmt?
    ensures IsStatement(toks, i, i + |StatementTokens(s)|, s)
  {
    AtEach(toks, i, StatementTokens(s));
  }

  lemma {:induction false} InParentheses<T>(toks: seq<Token>, i: nat, head: seq<Token>, spell: T -> seq<Token>, is_: (seq<Token>, nat, nat, T) -> bool, es: seq<T>)
    requires es != [] && At(toks, i, head + CommaTokens(spell, es) + [Sym(RParen)]) && forall n | 0 <= n < |es| :: Printed(toks, spell, is_, es[n])
    ensures (forall k | 0 <= k < |head| :: toks[i + k] == head[k]) && i + |head| + |CommaTokens(spell, es)| + 1 < |toks|
    ensures IsList(toks, i + |head|, i + |head| + |CommaTokens(spell, es)|, is_, es) && toks[i + |head| + |CommaTokens(spell, es)|] == Sym(RParen)
  {
    hide CommaTokens, Printed, IsList;
    AtSplit(toks, i, head + CommaTokens(spell, es), [Sym(RParen)]);
    AtSplit(toks, i, head, CommaTokens(spell, es));
    AtEach(toks, i, head);
    ListPrinted(toks, i + |head|, spell, is_, es);
  }

  lemma PrintedSingle(dec: Decimals, s: Statement)
    requires StatementOk(dec, s)
    ensures IsSingle(StatementTokens(s) + [End], s)
  {
    hide StatementOk, StatementTokens, IsStatement;
    var ts := StatementTokens(s);
    var toks := ts + [End];
    assert toks[0..|ts|] == ts;
    StatementPrinted(dec, toks, 0, s);
  }

  lemma {:induction false} PrintedScript(dec: Decimals, toks: seq<Token>, i: nat, ss: seq<Statement>)
    requires forall k | 0 <= k < |ss| :: StatementOk(dec, ss[k])
    requires i <= |toks| && toks[i..] == ScriptTokens(ss) + [End]
    ensures IsScript(toks, i, ss)
    decreases |ss|
  {
    hide StatementOk, StatementTokens, IsStatement;
    if ss == [] { assert toks[i] == toks[i..][0]; return; }
    var ts, rest := StatementTokens(ss[0]), ScriptTokens(ss[1..]) + [End];
    assert toks[i..] == ts + ([Sym(Semicolon)] + rest);
    Spelled(toks, i, ts, Sym(Semicolon), rest);
    StatementPrinted(dec, toks, i, ss[0]);
    PrintedScript(dec, toks, i + |ts| + 1, ss[1..]);
  }

  lemma Spelled(toks: seq<Token>, i: nat, ts: seq<Token>, t: Token, rest: seq<Token>)
    requires i <= |toks| && toks[i..] == ts + ([t] + rest)
    ensures At(toks, i, ts) && toks[i + |ts|] == t && toks[i + |ts| + 1..] == rest
  {
    var n := i + |ts|;
    assert toks[i..n] == toks[i..][..|ts|] == ts;
    assert toks[n] == toks[i..][|ts|];
    assert toks[n + 1..] == toks[i..][|ts| + 1..] == rest;
  }
}
