/** SQL statements, their tokens, and their text (src/ast.hpp, src/token.hpp,
    src/unparse.hpp). */
module SqlSyntax {
  import opened Wrappers
  import opened SqlTypes

  datatype Literal = NullLit | IntLit(v: int) | BoolLit(b: bool) | TextLit(s: string) | DecimalLit(d: real)

  datatype ColumnRef = ColumnRef(table: string, column: string)

  datatype AggFunc = Plain | Count | Sum | Avg | Min | Max

  /** A column; an aggregate over one; or COUNT(*). */
  datatype Value = Value(func: AggFunc, star: bool, ref: ColumnRef)

  datatype Item = Item(value: Value, alias: string)

  datatype Operand = ColumnOperand(ref: ColumnRef) | LiteralOperand(literal: Literal)

  datatype Comparison = Comparison(left: Value, op: Op, right: Operand)

  datatype TableRef = TableRef(name: string, alias: string)

  datatype JoinClause = JoinClause(table: TableRef, on: seq<Comparison>)

  datatype OrderItem = OrderItem(value: Value, desc: bool)

  datatype Column = Column(name: string, ctype: ColType, nullable: bool)

  datatype Select = Select(star: bool, columns: seq<Item>, from: TableRef, joins: seq<JoinClause>,
                           where_: seq<Comparison>, groupBy: seq<ColumnRef>, having: seq<Comparison>,
                           orderBy: seq<OrderItem>, limit: Option<int>)

  datatype Statement =
    | CreateTable(table: string, columns: seq<Column>)
    | CreateIndex(table: string, column: string)
    | Insert(table: string, values: seq<Literal>)
    | SelectStmt(select: Select)
    | Begin
    | Commit
    | Rollback

  // ---- tokens ----

  datatype Key =
    | CREATE | TABLE | INSERT | INTO | VALUES | SELECT | FROM | WHERE | INT64 | INT32 | BOOL | TEXT | NULL | NOT | TRUE
    | FALSE | JOIN | INNER | ON | AND | AS | GROUP | BY | HAVING | ORDER | ASC | DESC | LIMIT | INDEX | BEGIN | COMMIT
    | ROLLBACK

  datatype Symbol = LParen | RParen | Comma | Star | Semicolon | Dot | Cmp(op: Op)

  datatype Token = Ident(name: string) | Kw(key: Key) | IntTok(v: int) | FloatTok(d: real) | StrTok(s: string)
                 | Sym(sym: Symbol) | End

  function Spelling(k: Key): string {
    match k
    case CREATE => "CREATE" case TABLE => "TABLE" case INSERT => "INSERT" case INTO => "INTO" case VALUES => "VALUES"
    case SELECT => "SELECT" case FROM => "FROM" case WHERE => "WHERE" case INT64 => "INT64" case INT32 => "INT32"
    case BOOL => "BOOL" case TEXT => "TEXT" case NULL => "NULL" case NOT => "NOT" case TRUE => "TRUE"
    case FALSE => "FALSE" case JOIN => "JOIN" case INNER => "INNER" case ON => "ON" case AND => "AND" case AS => "AS"
    case GROUP => "GROUP" case BY => "BY" case HAVING => "HAVING" case ORDER => "ORDER" case ASC => "ASC"
    case DESC => "DESC" case LIMIT => "LIMIT" case INDEX => "INDEX" case BEGIN => "BEGIN" case COMMIT => "COMMIT"
    case ROLLBACK => "ROLLBACK"
  }

  function OpSymbol(op: Op): string {
    match op case Eq => "=" case Ne => "<>" case Lt => "<" case Le => "<=" case Gt => ">" case Ge => ">="
  }

  function AggName(f: AggFunc): string {
    match f case Plain => "" case Count => "COUNT" case Sum => "SUM" case Avg => "AVG" case Min => "MIN" case Max => "MAX"
  }

  // ---- characters ----

  predicate Space(c: char) { c == ' ' || c == '\t' || c == '\r' || c == '\n' }
  predicate Digit(c: char) { '0' <= c <= '9' }
  predicate Lower(c: char) { 'a' <= c <= 'z' }
  predicate IdentStart(c: char) { Lower(c) || 'A' <= c <= 'Z' || c == '_' }
  predicate IdentCont(c: char) { IdentStart(c) || Digit(c) }

  function UpperChar(c: char): char { if Lower(c) then c - 'a' + 'A' else c }

  function Upper(s: string): string { if s == "" then "" else [UpperChar(s[0])] + Upper(s[1..]) }

  /** The same letter in either case, or the same character. */
  predicate SameLetter(c: char, d: char) {
    c == d || ('a' <= c <= 'z' && d == c - 'a' + 'A') || ('A' <= c <= 'Z' && d == c - 'A' + 'a')
  }

  /** The same word in any case, letter by letter. */
  predicate AnyCase(w: string, u: string) { |w| == |u| && forall i | 0 <= i < |w| :: SameLetter(w[i], u[i]) }

  lemma {:induction false} UpperIs(w: string)
    ensures |Upper(w)| == |w| && forall i | 0 <= i < |w| :: Upper(w)[i] == UpperChar(w[i])
  {
    if w != "" { UpperIs(w[1..]); }
  }

  /** Folding a word into a spelling without small letters is being it in some case. */
  lemma {:induction false} UpperMeans(w: string, u: string)
    requires forall i | 0 <= i < |u| :: !Lower(u[i])
    ensures Upper(w) == u <==> AnyCase(w, u)
  {
    UpperIs(w);
    hide Upper;
    if AnyCase(w, u) {
      forall i | 0 <= i < |w| ensures Upper(w)[i] == u[i] { assert SameLetter(w[i], u[i]); }
    }
  }

  /** A name an aggregate may be called by. */
  predicate NamesAgg(w: string, f: AggFunc) { f != Plain && AnyCase(w, AggName(f)) }

  /** An identifier is a word that is no keyword in any case. */
  predicate IsWord(s: string) { s != "" && IdentStart(s[0]) && forall i | 0 <= i < |s| :: IdentCont(s[i]) }

  predicate IsIdent(s: string) { IsWord(s) && KeyOf(Upper(s)) == None }

  /** The keyword a word in upper case is, looked up by its length first. */
  function KeyOf(u: string): Option<Key> {
    match |u|
    case 2 => if u == "ON" then Some(ON) else if u == "AS" then Some(AS) else if u == "BY" then Some(BY)
      else None
    case 3 => if u == "NOT" then Some(NOT) else if u == "AND" then Some(AND) else if u == "ASC" then Some(ASC)
      else None
    case 4 => if u == "INTO" then Some(INTO) else if u == "FROM" then Some(FROM)
      else if u == "BOOL" then Some(BOOL) else if u == "TEXT" then Some(TEXT)
      else if u == "NULL" then Some(NULL) else if u == "TRUE" then Some(TRUE)
      else if u == "JOIN" then Some(JOIN) else if u == "DESC" then Some(DESC) else None
    case 5 => if u[0] == 'I' then KeyOfI(u)
      else if u == "TABLE" then Some(TABLE) else if u == "WHERE" then Some(WHERE)
      else if u == "FALSE" then Some(FALSE) else if u == "GROUP" then Some(GROUP)
      else if u == "ORDER" then Some(ORDER) else if u == "LIMIT" then Some(LIMIT)
      else if u == "BEGIN" then Some(BEGIN) else None
    case 6 => if u == "CREATE" then Some(CREATE) else if u == "INSERT" then Some(INSERT)
      else if u == "VALUES" then Some(VALUES) else if u == "SELECT" then Some(SELECT)
      else if u == "HAVING" then Some(HAVING) else if u == "COMMIT" then Some(COMMIT) else None
    case 8 => if u == "ROLLBACK" then Some(ROLLBACK) else None
    case _ => None
  }

  function KeyOfI(u: string): Option<Key> {
    if u == "INT64" then Some(INT64) else if u == "INT32" then Some(INT32)
    else if u == "INNER" then Some(INNER) else if u == "INDEX" then Some(INDEX) else None
  }

  // ---- numbers ----

  const INT64_MIN: int := -0x8000_0000_0000_0000
  const INT64_MAX: int := 0x7fff_ffff_ffff_ffff

  function DigitChar(d: nat): char requires d < 10 { '0' + d as char }

  function NatText(n: nat): string { if n < 10 then [DigitChar(n)] else NatText(n / 10) + [DigitChar(n % 10)] }

  function IntText(v: int): string { if v < 0 then "-" + NatText(-v) else NatText(v) }

  /** How a decimal is printed, without an exponent, and read back. */
  datatype Decimals = Decimals(show: real -> string, read: string -> real)

  /** Digits, a point, digits, with perhaps a sign. */
  ghost predicate IsDecimal(t: string) { exists p :: DecimalPoint(t, p) }

  ghost predicate DecimalPoint(t: string, p: nat) {
    var lo := if t != "" && t[0] == '-' then 1 else 0;
    && lo < p < |t| - 1 && t[p] == '.'
    && (forall i | lo <= i < |t| && i != p :: Digit(t[i]))
  }

  /** Printing a number that was read prints a decimal that reads back as it. */
  ghost predicate Faithful(dec: Decimals) {
    forall t | IsDecimal(t) :: IsDecimal(dec.show(dec.read(t))) && dec.read(dec.show(dec.read(t))) == dec.read(t)
  }

  // ---- text ----

  function Quoted(s: string): string { if s == "" then "" else (if s[0] == '\'' then "''" else [s[0]]) + Quoted(s[1..]) }

  function LiteralSql(dec: Decimals, l: Literal): string {
    match l
    case NullLit => "NULL"
    case BoolLit(b) => if b then "TRUE" else "FALSE"
    case TextLit(s) => "'" + Quoted(s) + "'"
    case DecimalLit(d) => dec.show(d)
    case IntLit(v) => IntText(v)
  }

  function ColumnRefSql(r: ColumnRef): string { if r.table == "" then r.column else r.table + "." + r.column }

  function ValueSql(v: Value): string {
    if v.func == Plain then ColumnRefSql(v.ref)
    else AggName(v.func) + "(" + (if v.star then "*" else ColumnRefSql(v.ref)) + ")"
  }

  function OperandSql(dec: Decimals, o: Operand): string {
    match o case ColumnOperand(r) => ColumnRefSql(r) case LiteralOperand(l) => LiteralSql(dec, l)
  }

  function ComparisonSql(dec: Decimals, c: Comparison): string {
    ValueSql(c.left) + " " + OpSymbol(c.op) + " " + OperandSql(dec, c.right)
  }

  /** Terms from the `i`th on, each after the first preceded by AND. */
  function ConditionSql(dec: Decimals, terms: seq<Comparison>): string {
    if terms == [] then ""
    else if |terms| == 1 then ComparisonSql(dec, terms[0])
    else ComparisonSql(dec, terms[0]) + " AND " + ConditionSql(dec, terms[1..])
  }

  function TableRefSql(t: TableRef): string { if t.alias == "" then t.name else t.name + " " + t.alias }

  function TypeKey(t: ColType): string {
    match t case Int64 => "INT64" case Int32 => "INT32" case Bool => "BOOL" case Text => "TEXT" case Double => "DOUBLE"
  }

  function ColumnSql(c: Column): string { c.name + " " + TypeKey(c.ctype) + if c.nullable then "" else " NOT NULL" }

  /** A list, its elements set apart by commas. */
  function CommaSql<T>(sql: T -> string, es: seq<T>): string {
    if es == [] then "" else if |es| == 1 then sql(es[0]) else sql(es[0]) + ", " + CommaSql(sql, es[1..])
  }

  function LiteralText(dec: Decimals): Literal -> string { l => LiteralSql(dec, l) }

  function ItemSql(i: Item): string { if i.alias == "" then ValueSql(i.value) else ValueSql(i.value) + " AS " + i.alias }

  function OrderItemSql(o: OrderItem): string { if o.desc then ValueSql(o.value) + " DESC" else ValueSql(o.value) }

  function JoinSql(dec: Decimals, j: JoinClause): string {
    " JOIN " + TableRefSql(j.table) + " ON " + ConditionSql(dec, j.on)
  }

  function JoinsSql(dec: Decimals, js: seq<JoinClause>): string {
    if js == [] then "" else JoinSql(dec, js[0]) + JoinsSql(dec, js[1..])
  }

  function SelectSql(dec: Decimals, s: Select): string {
    "SELECT " + (if s.star then "*" else CommaSql(ItemSql, s.columns))
    + " FROM " + TableRefSql(s.from) + JoinsSql(dec, s.joins)
    + (if s.where_ == [] then "" else " WHERE " + ConditionSql(dec, s.where_))
    + (if s.groupBy == [] then "" else " GROUP BY " + CommaSql(ColumnRefSql, s.groupBy))
    + (if s.having == [] then "" else " HAVING " + ConditionSql(dec, s.having))
    + (if s.orderBy == [] then "" else " ORDER BY " + CommaSql(OrderItemSql, s.orderBy))
    + (match s.limit case None => "" case Some(n) => " LIMIT " + IntText(n))
  }

  /** A statement back into SQL. */
  function Unparse(dec: Decimals, s: Statement): string {
    match s
    case CreateTable(t, cs) => "CREATE TABLE " + t + " (" + CommaSql(ColumnSql, cs) + ")"
    case CreateIndex(t, c) => "CREATE INDEX ON " + t + " (" + c + ")"
    case Insert(t, vs) => "INSERT INTO " + t + " VALUES (" + CommaSql(LiteralText(dec), vs) + ")"
    case SelectStmt(q) => SelectSql(dec, q)
    case Begin => "BEGIN"
    case Commit => "COMMIT"
    case Rollback => "ROLLBACK"
  }

  /** Statements back into a script. */
  function ScriptSql(dec: Decimals, ss: seq<Statement>): string {
    if ss == [] then "" else Unparse(dec, ss[0]) + "; " + ScriptSql(dec, ss[1..])
  }

  // ---- the same as tokens ----

  function LiteralTokens(l: Literal): seq<Token> {
    match l
    case NullLit => [Kw(NULL)]
    case BoolLit(b) => [Kw(if b then TRUE else FALSE)]
    case TextLit(s) => [StrTok(s)]
    case DecimalLit(d) => [FloatTok(d)]
    case IntLit(v) => [IntTok(v)]
  }

  function RefTokens(r: ColumnRef): seq<Token> {
    if r.table == "" then [Ident(r.column)] else [Ident(r.table), Sym(Dot), Ident(r.column)]
  }

  function ValueTokens(v: Value): seq<Token> {
    if v.func == Plain then RefTokens(v.ref)
    else [Ident(AggName(v.func)), Sym(LParen)] + (if v.star then [Sym(Star)] else RefTokens(v.ref)) + [Sym(RParen)]
  }

  function OperandTokens(o: Operand): seq<Token> {
    match o case ColumnOperand(r) => RefTokens(r) case LiteralOperand(l) => LiteralTokens(l)
  }

  function ComparisonTokens(c: Comparison): seq<Token> { ValueTokens(c.left) + [Sym(Cmp(c.op))] + OperandTokens(c.right) }

  function ConditionTokens(terms: seq<Comparison>): seq<Token> {
    if terms == [] then []
    else if |terms| == 1 then ComparisonTokens(terms[0])
    else ComparisonTokens(terms[0]) + [Kw(AND)] + ConditionTokens(terms[1..])
  }

  function TableRefTokens(t: TableRef): seq<Token> { if t.alias == "" then [Ident(t.name)] else [Ident(t.name), Ident(t.alias)] }

  function TypeTokens(t: ColType): seq<Token> {
    match t case Int64 => [Kw(INT64)] case Int32 => [Kw(INT32)] case Bool => [Kw(BOOL)] case Text => [Kw(TEXT)]
            case Double => [Ident("DOUBLE")]
  }

  function ColumnTokens(c: Column): seq<Token> {
    [Ident(c.name)] + TypeTokens(c.ctype) + if c.nullable then [] else [Kw(NOT), Kw(NULL)]
  }

  function CommaTokens<T>(spell: T -> seq<Token>, es: seq<T>): seq<Token> {
    if es == [] then [] else if |es| == 1 then spell(es[0])
    else spell(es[0]) + [Sym(Comma)] + CommaTokens(spell, es[1..])
  }

  function ItemTokens(i: Item): seq<Token> {
    if i.alias == "" then ValueTokens(i.value) else ValueTokens(i.value) + [Kw(AS), Ident(i.alias)]
  }

  function OrderItemTokens(o: OrderItem): seq<Token> { ValueTokens(o.value) + if o.desc then [Kw(DESC)] else [] }

  function JoinTokens(j: JoinClause): seq<Token> { [Kw(JOIN)] + TableRefTokens(j.table) + [Kw(ON)] + ConditionTokens(j.on) }

  function JoinsTokens(js: seq<JoinClause>): seq<Token> {
    if js == [] then [] else JoinTokens(js[0]) + JoinsTokens(js[1..])
  }

  function WhereTokens(terms: seq<Comparison>): seq<Token> { if terms == [] then [] else [Kw(WHERE)] + ConditionTokens(terms) }
  function GroupTokens(refs: seq<ColumnRef>): seq<Token> { if refs == [] then [] else [Kw(GROUP), Kw(BY)] + CommaTokens(RefTokens, refs) }
  function HavingTokens(terms: seq<Comparison>): seq<Token> { if terms == [] then [] else [Kw(HAVING)] + ConditionTokens(terms) }
  function OrderByTokens(os: seq<OrderItem>): seq<Token> { if os == [] then [] else [Kw(ORDER), Kw(BY)] + CommaTokens(OrderItemTokens, os) }
  function LimitTokens(limit: Option<int>): seq<Token> { match limit case None => [] case Some(n) => [Kw(LIMIT), IntTok(n)] }

  function SelectTokens(s: Select): seq<Token> {
    [Kw(SELECT)] + (if s.star then [Sym(Star)] else CommaTokens(ItemTokens, s.columns)) + [Kw(FROM)] + TableRefTokens(s.from)
    + JoinsTokens(s.joins) + WhereTokens(s.where_) + GroupTokens(s.groupBy) + HavingTokens(s.having)
    + OrderByTokens(s.orderBy) + LimitTokens(s.limit)
  }

  function StatementTokens(s: Statement): seq<Token> {
    match s
    case CreateTable(t, cs) => [Kw(CREATE), Kw(TABLE), Ident(t), Sym(LParen)] + CommaTokens(ColumnTokens, cs) + [Sym(RParen)]
    case CreateIndex(t, c) => [Kw(CREATE), Kw(INDEX), Kw(ON), Ident(t), Sym(LParen), Ident(c), Sym(RParen)]
    case Insert(t, vs) => [Kw(INSERT), Kw(INTO), Ident(t), Kw(VALUES), Sym(LParen)] + CommaTokens(LiteralTokens, vs) + [Sym(RParen)]
    case SelectStmt(q) => SelectTokens(q)
    case Begin => [Kw(BEGIN)]
    case Commit => [Kw(COMMIT)]
    case Rollback => [Kw(ROLLBACK)]
  }

  function ScriptTokens(ss: seq<Statement>): seq<Token> {
    if ss == [] then [] else StatementTokens(ss[0]) + [Sym(Semicolon)] + ScriptTokens(ss[1..])
  }

  // ---- the statements the parser can return ----

  ghost predicate LiteralOk(dec: Decimals, l: Literal) {
    match l
    case IntLit(v) => INT64_MIN <= v <= INT64_MAX
    case DecimalLit(d) => exists t :: IsDecimal(t) && dec.read(t) == d
    case _ => true
  }

  predicate RefOk(r: ColumnRef) { IsIdent(r.column) && (r.table == "" || IsIdent(r.table)) }

  predicate ValueOk(v: Value) {
    if v.star then v.func == Count && v.ref == ColumnRef("", "") else RefOk(v.ref)
  }

  ghost predicate OperandOk(dec: Decimals, o: Operand) {
    match o case ColumnOperand(r) => RefOk(r) case LiteralOperand(l) => LiteralOk(dec, l)
  }

  ghost predicate ComparisonOk(dec: Decimals, c: Comparison) { ValueOk(c.left) && OperandOk(dec, c.right) }

  ghost predicate TermsOk(dec: Decimals, terms: seq<Comparison>) { forall i | 0 <= i < |terms| :: ComparisonOk(dec, terms[i]) }

  predicate TableRefOk(t: TableRef) { IsIdent(t.name) && (t.alias == "" || IsIdent(t.alias)) }

  predicate ColumnOk(c: Column) { IsIdent(c.name) && c.ctype != Double }

  predicate ItemOk(i: Item) { ValueOk(i.value) && (i.alias == "" || IsIdent(i.alias)) }

  ghost predicate JoinOk(dec: Decimals, j: JoinClause) { TableRefOk(j.table) && j.on != [] && TermsOk(dec, j.on) }

  ghost predicate SelectOk(dec: Decimals, s: Select) {
    && (if s.star then s.columns == [] else s.columns != [] && forall i | 0 <= i < |s.columns| :: ItemOk(s.columns[i]))
    && TableRefOk(s.from) && (forall i | 0 <= i < |s.joins| :: JoinOk(dec, s.joins[i]))
    && TermsOk(dec, s.where_) && (forall i | 0 <= i < |s.groupBy| :: RefOk(s.groupBy[i]))
    && TermsOk(dec, s.having) && (forall i | 0 <= i < |s.orderBy| :: ValueOk(s.orderBy[i].value))
    && (s.limit.Some? ==> 0 <= s.limit.value <= INT64_MAX)
  }

  ghost predicate StatementOk(dec: Decimals, s: Statement) {
    match s
    case CreateTable(t, cs) => IsIdent(t) && cs != [] && forall i | 0 <= i < |cs| :: ColumnOk(cs[i])
    case CreateIndex(t, c) => IsIdent(t) && IsIdent(c)
    case Insert(t, vs) => IsIdent(t) && vs != [] && forall i | 0 <= i < |vs| :: LiteralOk(dec, vs[i])
    case SelectStmt(q) => SelectOk(dec, q)
    case _ => true
  }
}
