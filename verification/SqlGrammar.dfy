/** The language of the parser, rule by rule (src/parser.hpp:11-32, src/parser.cpp): which
    stretch of tokens spells which tree, with the optional words where they may stand, and an
    aggregate's name in any case. Another token always follows. */
module SqlGrammar {
  import opened Wrappers
  import opened SqlTypes
  import opened SqlSyntax

  /** What the lexer can make. */
  ghost predicate TokenOk(dec: Decimals, t: Token) {
    match t
    case Ident(name) => IsIdent(name)
    case IntTok(v) => INT64_MIN <= v <= INT64_MAX
    case FloatTok(d) => exists s :: IsDecimal(s) && dec.read(s) == d
    case _ => true
  }

  ghost predicate TokensOk(dec: Decimals, toks: seq<Token>) {
    toks != [] && toks[|toks| - 1] == End && forall k | 0 <= k < |toks| :: TokenOk(dec, toks[k])
  }

  predicate IsRef(toks: seq<Token>, i: nat, j: nat, r: ColumnRef) {
    && j < |toks|
    && if r.table == "" then j == i + 1 && toks[i] == Ident(r.column)
       else j == i + 3 && toks[i] == Ident(r.table) && toks[i + 1] == Sym(Dot) && toks[i + 2] == Ident(r.column)
  }

  /** A column, or a function of one, or COUNT(*). */
  predicate IsValue(toks: seq<Token>, i: nat, j: nat, v: Value) {
    if v.func == Plain then !v.star && IsRef(toks, i, j, v.ref)
    else
      && i + 3 < j < |toks| && toks[i].Ident? && NamesAgg(toks[i].name, v.func)
      && toks[i + 1] == Sym(LParen) && toks[j - 1] == Sym(RParen)
      && if v.star then v.func == Count && v.ref == ColumnRef("", "") && j == i + 4 && toks[i + 2] == Sym(Star) else IsRef(toks, i + 2, j - 1, v.ref)
  }

  predicate IsLiteral(toks: seq<Token>, i: nat, j: nat, l: Literal) { j == i + 1 < |toks| && [toks[i]] == LiteralTokens(l) }

  predicate IsOperand(toks: seq<Token>, i: nat, j: nat, o: Operand) {
    match o case ColumnOperand(r) => IsRef(toks, i, j, r) case LiteralOperand(l) => IsLiteral(toks, i, j, l)
  }

  ghost predicate IsComparison(toks: seq<Token>, i: nat, j: nat, c: Comparison) {
    exists m: nat :: IsValue(toks, i, m, c.left) && m < j && toks[m] == Sym(Cmp(c.op)) && IsOperand(toks, m + 1, j, c.right)
  }

  /** Comparisons with AND between them. */
  ghost predicate IsCondition(toks: seq<Token>, i: nat, j: nat, terms: seq<Comparison>)
    decreases |terms|, 0
  {
    terms != [] && exists m: nat :: IsComparison(toks, i, m, terms[0]) && MoreTerms(toks, m, j, terms[1..])
  }

  ghost predicate MoreTerms(toks: seq<Token>, i: nat, j: nat, terms: seq<Comparison>)
    decreases |terms|, 1
  {
    i < |toks| && if terms == [] then i == j else toks[i] == Kw(AND) && IsCondition(toks, i + 1, j, terms)
  }

  /** With or without AS before the alias. */
  predicate IsTable(toks: seq<Token>, i: nat, j: nat, t: TableRef) {
    && i < j < |toks| && toks[i] == Ident(t.name)
    && if t.alias == "" then j == i + 1
       else (j == i + 2 && toks[i + 1] == Ident(t.alias)) || (j == i + 3 && toks[i + 1] == Kw(AS) && toks[i + 2] == Ident(t.alias))
  }

  /** With or without INNER before JOIN. */
  ghost predicate IsJoin(toks: seq<Token>, i: nat, j: nat, c: JoinClause) {
    && i + 1 < |toks|
    && var a := if toks[i] == Kw(INNER) then i + 1 else i;
       && toks[a] == Kw(JOIN)
       && exists m: nat :: IsTable(toks, a + 1, m, c.table) && toks[m] == Kw(ON) && IsCondition(toks, m + 1, j, c.on)
  }

  ghost predicate IsJoins(toks: seq<Token>, i: nat, j: nat, js: seq<JoinClause>)
    decreases |js|
  {
    if js == [] then i == j < |toks| else exists m: nat :: IsJoin(toks, i, m, js[0]) && IsJoins(toks, m, j, js[1..])
  }

  predicate IsItem(toks: seq<Token>, i: nat, j: nat, item: Item) {
    if item.alias == "" then IsValue(toks, i, j, item.value)
    else
      && j < |toks| && j >= i + 2 && IsValue(toks, i, j - 2, item.value)
      && toks[j - 2] == Kw(AS) && toks[j - 1] == Ident(item.alias)
  }

  /** With or without ASC after an ascending term. */
  predicate IsOrder(toks: seq<Token>, i: nat, j: nat, o: OrderItem) {
    || (!o.desc && IsValue(toks, i, j, o.value))
    || (i < j < |toks| && toks[j - 1] == Kw(if o.desc then DESC else ASC) && IsValue(toks, i, j - 1, o.value))
  }

  /** With or without NULL after a nullable column. */
  predicate IsColumn(toks: seq<Token>, i: nat, j: nat, c: Column) {
    && i + 2 <= j < |toks| && toks[i] == Ident(c.name) && c.ctype != Double && [toks[i + 1]] == TypeTokens(c.ctype)
    && if !c.nullable then j == i + 4 && toks[i + 2] == Kw(NOT) && toks[i + 3] == Kw(NULL)
       else j == i + 2 || (j == i + 3 && toks[i + 2] == Kw(NULL))
  }

  /** Elements with commas between them. */
  ghost predicate IsList<T>(toks: seq<Token>, i: nat, j: nat, is_: (seq<Token>, nat, nat, T) -> bool, es: seq<T>)
    decreases |es|, 0
  {
    es != [] && exists m: nat :: is_(toks, i, m, es[0]) && MoreListed(toks, m, j, is_, es[1..])
  }

  ghost predicate MoreListed<T>(toks: seq<Token>, i: nat, j: nat, is_: (seq<Token>, nat, nat, T) -> bool, es: seq<T>)
    decreases |es|, 1
  {
    i < |toks| && if es == [] then i == j else toks[i] == Sym(Comma) && IsList(toks, i + 1, j, is_, es)
  }

  /** A clause left out, or its word and a condition. */
  ghost predicate IsWhere(toks: seq<Token>, i: nat, j: nat, k: Key, terms: seq<Comparison>) {
    i < |toks| && if terms == [] then i == j else toks[i] == Kw(k) && IsCondition(toks, i + 1, j, terms)
  }

  ghost predicate IsBy<T>(toks: seq<Token>, i: nat, j: nat, k: Key, is_: (seq<Token>, nat, nat, T) -> bool, es: seq<T>) {
    && i < |toks|
    && if es == [] then i == j else i + 1 < |toks| && toks[i] == Kw(k) && toks[i + 1] == Kw(BY) && IsList(toks, i + 2, j, is_, es)
  }

  predicate IsLimit(toks: seq<Token>, i: nat, j: nat, limit: Option<int>) {
    && j < |toks|
    && match limit case None => i == j case Some(n) => n >= 0 && j == i + 2 && toks[i] == Kw(LIMIT) && toks[i + 1] == IntTok(n)
  }

  ghost predicate IsClauses(toks: seq<Token>, i: nat, j: nat, s: Select) {
    exists b: nat, c: nat, d: nat, e: nat ::
      && IsWhere(toks, i, b, WHERE, s.where_) && IsBy(toks, b, c, GROUP, IsRef, s.groupBy)
      && IsWhere(toks, c, d, HAVING, s.having) && IsBy(toks, d, e, ORDER, IsOrder, s.orderBy) && IsLimit(toks, e, j, s.limit)
  }

  ghost predicate IsColumns(toks: seq<Token>, i: nat, j: nat, s: Select) {
    if s.star then s.columns == [] && j == i + 1 < |toks| && toks[i] == Sym(Star) else IsList(toks, i, j, IsItem, s.columns)
  }

  ghost predicate IsSelect(toks: seq<Token>, i: nat, j: nat, s: Select) {
    && i < |toks| && toks[i] == Kw(SELECT)
    && exists f: nat, a: nat, b: nat ::
         && IsColumns(toks, i + 1, f, s) && f < |toks| && toks[f] == Kw(FROM) && IsTable(toks, f + 1, a, s.from)
         && IsJoins(toks, a, b, s.joins) && IsClauses(toks, b, j, s)
  }

  ghost predicate IsStatement(toks: seq<Token>, i: nat, j: nat, s: Statement) {
    && i < j < |toks|
    && match s
       case CreateTable(t, cs) =>
         && j > i + 4 && toks[i] == Kw(CREATE) && toks[i + 1] == Kw(TABLE) && toks[i + 2] == Ident(t) && toks[i + 3] == Sym(LParen)
         && IsList(toks, i + 4, j - 1, IsColumn, cs) && toks[j - 1] == Sym(RParen)
       case CreateIndex(t, c) =>
         && j == i + 7 && toks[i] == Kw(CREATE) && toks[i + 1] == Kw(INDEX) && toks[i + 2] == Kw(ON) && toks[i + 3] == Ident(t)
         && toks[i + 4] == Sym(LParen) && toks[i + 5] == Ident(c) && toks[i + 6] == Sym(RParen)
       case Insert(t, vs) =>
         && j > i + 5 && toks[i] == Kw(INSERT) && toks[i + 1] == Kw(INTO) && toks[i + 2] == Ident(t) && toks[i + 3] == Kw(VALUES)
         && toks[i + 4] == Sym(LParen) && IsList(toks, i + 5, j - 1, IsLiteral, vs) && toks[j - 1] == Sym(RParen)
       case SelectStmt(q) => IsSelect(toks, i, j, q)
       case Begin => j == i + 1 && toks[i] == Kw(BEGIN)
       case Commit => j == i + 1 && toks[i] == Kw(COMMIT)
       case Rollback => j == i + 1 && toks[i] == Kw(ROLLBACK)
  }

  /** One statement, perhaps with a semicolon, up to the end. */
  ghost predicate IsSingle(toks: seq<Token>, s: Statement) {
    exists j: nat ::
      && IsStatement(toks, 0, j, s) && j < |toks|
      && (toks[j] == End || (j + 1 < |toks| && toks[j] == Sym(Semicolon) && toks[j + 1] == End))
  }

  /** Statements with a semicolon after each, except perhaps the last, up to the end. */
  ghost predicate IsScript(toks: seq<Token>, i: nat, ss: seq<Statement>)
    decreases |ss|
  {
    if ss == [] then i < |toks| && toks[i] == End
    else
      exists j: nat ::
        && IsStatement(toks, i, j, ss[0]) && j < |toks|
        && if toks[j] == Sym(Semicolon) then IsScript(toks, j + 1, ss[1..]) else toks[j] == End && |ss| == 1
  }
}
