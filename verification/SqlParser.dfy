/** Tokens into statements (src/parser.cpp). What a rule returns is spelled by the tokens it
    took; and each is given, as a ghost, a tree and where it might end: if the tokens up to
    there spell that tree, it is what the rule returns. */
module SqlParser {
  import opened Wrappers
  import opened SqlTypes
  import opened SqlSyntax
  import opened SqlLexer
  import opened SqlGrammar
  import opened SqlRules
  import opened SqlSpelling
  import opened SqlText
  import opened SqlLexemes

  // ---- the name of an aggregate ----

  function AggOf(u: string): Option<AggFunc> {
    if u == "COUNT" then Some(Count) else if u == "SUM" then Some(Sum) else if u == "AVG" then Some(Avg)
    else if u == "MIN" then Some(Min) else if u == "MAX" then Some(Max) else None
  }

  lemma {:induction false} AggMeans(w: string)
    ensures forall f :: AggOf(Upper(w)) == Some(f) <==> NamesAgg(w, f)
  {
    forall f | f != Plain ensures Upper(w) == AggName(f) <==> AnyCase(w, AggName(f)) { UpperMeans(w, AggName(f)); }
    hide Upper, AnyCase;
  }

  class Parser {
    const toks: seq<Token>
    const dec: Decimals
    var i: nat

    ghost predicate Valid() reads this { TokensOk(dec, toks) && i < |toks| }

    constructor (toks: seq<Token>, dec: Decimals)
      requires TokensOk(dec, toks)
      ensures this.toks == toks && this.dec == dec && i == 0 && Valid()
    {
      this.toks, this.dec, i := toks, dec, 0;
    }

    function Peek(): Token reads this requires i < |toks| { toks[i] }
    function PeekNext(): Token reads this requires i < |toks| { if i + 1 < |toks| then toks[i + 1] else toks[i] }

    method Advance()
      requires Valid() && Peek() != End
      modifies this
      ensures Valid() && i == old(i) + 1
    {
      i := i + 1;
    }

    method Expect(t: Token) returns (ok: bool)
      requires Valid() && t != End
      modifies this
      ensures Valid() && ok == (toks[old(i)] == t) && i == old(i) + if ok then 1 else 0
    {
      ok := Peek() == t;
      if ok { i := i + 1; }
    }

    method ExpectIdent() returns (name: Option<string>)
      requires Valid()
      modifies this
      ensures Valid() && i == old(i) + (if name.Some? then 1 else 0)
      ensures if toks[old(i)].Ident? then name == Some(toks[old(i)].name) && IsIdent(name.value) else name == None
    {
      if !Peek().Ident? { return None; }
      assert TokenOk(dec, toks[i]);
      name := Some(toks[i].name);
      i := i + 1;
    }

    method ParseType() returns (t: Option<ColType>)
      requires Valid()
      modifies this
      ensures Valid() && i == old(i) + (if t.Some? then 1 else 0)
      ensures t.Some? ==> t.value != Double && [toks[old(i)]] == TypeTokens(t.value)
      ensures forall g :: g != Double && [toks[old(i)]] == TypeTokens(g) ==> t == Some(g)
    {
      match Peek()
      case Kw(INT64) => i := i + 1; return Some(Int64);
      case Kw(INT32) => i := i + 1; return Some(Int32);
      case Kw(BOOL) => i := i + 1; return Some(Bool);
      case Kw(TEXT) => i := i + 1; return Some(Text);
      case _ => return None;
    }

    method ParseLiteral() returns (l: Option<Literal>)
      requires Valid()
      modifies this
      ensures Valid() && i == old(i) + (if l.Some? then 1 else 0)
      ensures l.Some? ==> IsLiteral(toks, old(i), i, l.value)
      ensures forall g :: [toks[old(i)]] == LiteralTokens(g) ==> l == Some(g)
    {
      assert TokenOk(dec, toks[i]);
      match Peek()
      case IntTok(v) => i := i + 1; return Some(IntLit(v));
      case StrTok(s) => i := i + 1; return Some(TextLit(s));
      case FloatTok(d) => i := i + 1; return Some(DecimalLit(d));
      case Kw(TRUE) => i := i + 1; return Some(BoolLit(true));
      case Kw(FALSE) => i := i + 1; return Some(BoolLit(false));
      case Kw(NULL) => i := i + 1; return Some(NullLit);
      case _ => return None;
    }

    /** column_ref = identifier [ "." identifier ] */
    method ParseColumnRef(ghost goal: ColumnRef, ghost end: nat) returns (r: Option<ColumnRef>)
      requires Valid()
      modifies this
      ensures Valid() && i >= old(i)
      ensures r.Some? ==> IsRef(toks, old(i), i, r.value)
      ensures IsRef(toks, old(i), end, goal) && toks[end] != Sym(Dot) ==> r == Some(goal) && i == end
    {
      var first := ExpectIdent();
      if first.None? { return None; }
      IdentNotEmpty(first.value);
      if Peek() == Sym(Dot) {
        i := i + 1;
        var column := ExpectIdent();
        if column.None? { return None; }
        r := Some(ColumnRef(first.value, column.value));
      } else {
        r := Some(ColumnRef("", first.value));
      }
    }

    /** value = column_ref | aggregate */
    method ParseValue(ghost goal: Value, ghost end: nat) returns (v: Option<Value>)
      requires Valid()
      modifies this
      ensures Valid() && i >= old(i)
      ensures v.Some? ==> IsValue(toks, old(i), i, v.value)
      ensures IsValue(toks, old(i), end, goal) && Ends(toks[end]) ==> v == Some(goal) && i == end
    {
      hide IsIdent, AggOf, Upper, NamesAgg;
      if Peek().Ident? && PeekNext() == Sym(LParen) {
        v := ParseAggregate(goal, end);
      } else {
        var r := ParseColumnRef(goal.ref, end);
        if r.None? { return None; }
        v := Some(Value(Plain, false, r.value));
      }
    }

    /** aggregate = name "(" ( "*" | column_ref ) ")" */
    method ParseAggregate(ghost goal: Value, ghost end: nat) returns (v: Option<Value>)
      requires Valid() && Peek().Ident? && PeekNext() == Sym(LParen)
      modifies this
      ensures Valid() && i >= old(i)
      ensures v.Some? ==> IsValue(toks, old(i), i, v.value)
      ensures goal.func != Plain && IsValue(toks, old(i), end, goal) ==> v == Some(goal) && i == end
    {
      hide IsIdent, AggOf, Upper, AnyCase;
      AggMeans(Peek().name);
      var f := AggOf(Upper(Peek().name));
      if f.None? { return None; }
      i := i + 2;
      if Peek() == Sym(Star) {
        if f.value != Count { return None; }
        i := i + 1;
        v := Some(Value(f.value, true, ColumnRef("", "")));
      } else {
        var r := ParseColumnRef(goal.ref, if end > 0 then end - 1 else 0);
        if r.None? { return None; }
        v := Some(Value(f.value, false, r.value));
      }
      var close := Expect(Sym(RParen));
      if !close { return None; }
    }

    /** comparison = value op ( literal | column_ref ) */
    method ParseComparison(ghost goal: Comparison, ghost end: nat) returns (c: Option<Comparison>)
      requires Valid()
      modifies this
      ensures Valid() && i >= old(i)
      ensures c.Some? ==> IsComparison(toks, old(i), i, c.value)
      ensures IsComparison(toks, old(i), end, goal) && end < |toks| && Closes(toks[end]) ==>
                c == Some(goal) && i == end
    {
      hide IsValue, IsComparison, IsRef, IsLiteral, TokenOk, IsIdent;
      ghost var spelled := IsComparison(toks, i, end, goal) && end < |toks| && Closes(toks[end]);
      ghost var m: nat := 0;
      if spelled { m := ComparisonCut(toks, i, end, goal); OperandFirst(toks, m + 1, end, goal.right); }
      var left := ParseValue(goal.left, m);
      if left.None? || !Peek().Sym? || !Peek().sym.Cmp? { return None; }
      var op := Peek().sym.op;
      ghost var mid := i;
      i := i + 1;
      if Peek().Ident? {
        var r := ParseColumnRef(if goal.right.ColumnOperand? then goal.right.ref else NoRef(), end);
        if r.None? { return None; }
        c := Some(Comparison(left.value, op, ColumnOperand(r.value)));
      } else {
        var l := ParseLiteral();
        if l.None? { return None; }
        c := Some(Comparison(left.value, op, LiteralOperand(l.value)));
      }
      ComparisonIs(toks, old(i), mid, i, c.value);
    }

    /** condition = comparison { "AND" comparison } */
    method ParseCondition(ghost goal: seq<Comparison>, ghost end: nat) returns (terms: Option<seq<Comparison>>)
      requires Valid()
      modifies this
      ensures Valid() && i >= old(i)
      ensures terms.Some? ==> IsCondition(toks, old(i), i, terms.value)
      ensures IsCondition(toks, old(i), end, goal) && end < |toks| && Closes(toks[end]) && toks[end] != Kw(AND) ==>
                terms == Some(goal) && i == end
    {
      hide NoComparison, IsComparison, IsCondition, MoreTerms;
      ghost var spelled := IsCondition(toks, i, end, goal) && end < |toks| && Closes(toks[end]) && toks[end] != Kw(AND);
      ghost var m: nat := 0;
      if spelled { m := ConditionCut(toks, i, end, goal); }
      var c := ParseComparison(if spelled then goal[0] else NoComparison(), m);
      if c.None? { return None; }
      var out := [c.value];
      OneTerm(toks, old(i), i, c.value);
      assert spelled ==> out == goal[..1];
      while Peek() == Kw(AND)
        invariant Valid() && i >= old(i) && out != [] && IsCondition(toks, old(i), i, out)
        invariant spelled ==> |out| <= |goal| && out == goal[..|out|] && MoreTerms(toks, i, end, goal[|out|..])
        decreases |toks| - i
      {
        ghost var n, mid := |out|, i;
        if spelled { m := MoreTermsCut(toks, i, end, goal[n..]); }
        i := i + 1;
        c := ParseComparison(if spelled then goal[n] else NoComparison(), m);
        if c.None? { return None; }
        TermAfter(toks, old(i), mid, i, out, c.value);
        out := out + [c.value];
        if spelled { NextOf(goal, n); }
      }
      if spelled { TermsDone(toks, i, end, goal[|out|..]); assert goal[..|goal|] == goal; }
      terms := Some(out);
    }

    /** table_ref = identifier [ [ "AS" ] identifier ] */
    method ParseTableRef(ghost goal: TableRef, ghost end: nat) returns (t: Option<TableRef>)
      requires Valid()
      modifies this
      ensures Valid() && i >= old(i)
      ensures t.Some? ==> IsTable(toks, old(i), i, t.value)
      ensures IsTable(toks, old(i), end, goal) && Closes(toks[end]) && toks[end] != Kw(AS) ==> t == Some(goal) && i == end
    {
      hide IsIdent;
      var name := ExpectIdent();
      if name.None? { return None; }
      if Peek() == Kw(AS) {
        i := i + 1;
        var alias := ExpectIdent();
        if alias.None? { return None; }
        t := Some(TableRef(name.value, alias.value));
        IdentNotEmpty(alias.value);
      } else if Peek().Ident? {
        var alias := ExpectIdent();
        t := Some(TableRef(name.value, alias.value));
        IdentNotEmpty(alias.value);
      } else {
        t := Some(TableRef(name.value, ""));
      }
    }

    /** join = [ "INNER" ] "JOIN" table_ref "ON" condition */
    method ParseJoin(ghost goal: JoinClause, ghost end: nat) returns (j: Option<JoinClause>)
      requires Valid() && (Peek() == Kw(JOIN) || Peek() == Kw(INNER))
      modifies this
      ensures Valid() && i > old(i)
      ensures j.Some? ==> IsJoin(toks, old(i), i, j.value)
      ensures IsJoin(toks, old(i), end, goal) && end < |toks| && Closes(toks[end]) && toks[end] != Kw(AND) ==>
                j == Some(goal) && i == end
    {
      hide IsTable, IsCondition;
      ghost var m: nat := 0;
      if IsJoin(toks, i, end, goal) { m := JoinCut(toks, i, end, goal); }
      if Peek() == Kw(INNER) { i := i + 1; }
      var join := Expect(Kw(JOIN));
      if !join { return None; }
      var table := ParseTableRef(goal.table, m);
      if table.None? { return None; }
      ghost var mid := i;
      var on_ := Expect(Kw(ON));
      if !on_ { return None; }
      var terms := ParseCondition(goal.on, end);
      if terms.None? { return None; }
      j := Some(JoinClause(table.value, terms.value));
      assert IsTable(toks, if toks[old(i)] == Kw(INNER) then old(i) + 2 else old(i) + 1, mid, j.value.table);
      ConditionSome(toks, mid + 1, i, terms.value);
    }

    method ParseJoins(ghost goal: seq<JoinClause>, ghost end: nat) returns (js: Option<seq<JoinClause>>)
      requires Valid()
      modifies this
      ensures Valid() && i >= old(i)
      ensures js.Some? ==> IsJoins(toks, old(i), i, js.value)
      ensures IsJoins(toks, old(i), end, goal) && end < |toks| && Closes(toks[end])
              && toks[end] != Kw(AND) && toks[end] != Kw(JOIN) && toks[end] != Kw(INNER) ==>
                js == Some(goal) && i == end
    {
      hide NoJoin, IsJoin, IsJoins;
      ghost var spelled := IsJoins(toks, i, end, goal) && end < |toks| && Closes(toks[end])
                           && toks[end] != Kw(AND) && toks[end] != Kw(JOIN) && toks[end] != Kw(INNER);
      ghost var m: nat := 0;
      var out := [];
      NoJoins(toks, i);
      assert goal[0..] == goal;
      while Peek() == Kw(JOIN) || Peek() == Kw(INNER)
        invariant Valid() && i >= old(i) && IsJoins(toks, old(i), i, out)
        invariant spelled ==> |out| <= |goal| && out == goal[..|out|] && IsJoins(toks, i, end, goal[|out|..])
        decreases |toks| - i
      {
        ghost var n, mid := |out|, i;
        if spelled { m := JoinsCut(toks, i, end, goal[n..]); }
        var j := ParseJoin(if spelled then goal[n] else NoJoin(), m);
        if j.None? { return None; }
        JoinAfter(toks, old(i), mid, i, out, j.value);
        out := out + [j.value];
        if spelled { NextOf(goal, n); }
      }
      if spelled { JoinsDone(toks, i, end, goal[|out|..]); assert goal[..|goal|] == goal; }
      js := Some(out);
    }

    /** item = value [ "AS" identifier ] */
    method ParseItem(ghost goal: Item, ghost end: nat) returns (item: Option<Item>)
      requires Valid()
      modifies this
      ensures Valid() && i >= old(i)
      ensures item.Some? ==> IsItem(toks, old(i), i, item.value)
      ensures IsItem(toks, old(i), end, goal) && end < |toks| && Between(toks[end]) ==> item == Some(goal) && i == end
    {
      hide IsIdent, IsValue;
      ValueEnds(toks, i, end, goal.value);
      if end >= 2 { ValueEnds(toks, i, end - 2, goal.value); }
      var v := ParseValue(goal.value, if goal.alias == "" then end else if end >= 2 then end - 2 else 0);
      if v.None? { return None; }
      var alias := "";
      if Peek() == Kw(AS) {
        i := i + 1;
        var name := ExpectIdent();
        if name.None? { return None; }
        alias := name.value;
        IdentNotEmpty(alias);
      }
      item := Some(Item(v.value, alias));
    }

    /** order_item = value [ "ASC" | "DESC" ] */
    method ParseOrderItem(ghost goal: OrderItem, ghost end: nat) returns (o: Option<OrderItem>)
      requires Valid()
      modifies this
      ensures Valid() && i >= old(i)
      ensures o.Some? ==> IsOrder(toks, old(i), i, o.value)
      ensures IsOrder(toks, old(i), end, goal) && end < |toks| && Between(toks[end]) ==> o == Some(goal) && i == end
    {
      hide IsValue;
      ghost var m := end;
      if IsOrder(toks, i, end, goal) { m := OrderCut(toks, i, end, goal); }
      var v := ParseValue(goal.value, m);
      if v.None? { return None; }
      var desc := false;
      if Peek() == Kw(ASC) {
        i := i + 1;
      } else if Peek() == Kw(DESC) {
        i := i + 1;
        desc := true;
      }
      o := Some(OrderItem(v.value, desc));
    }

    /** A column, nullable unless NOT NULL is stated. */
    method ParseColumnDef(ghost goal: Column, ghost end: nat) returns (c: Option<Column>)
      requires Valid()
      modifies this
      ensures Valid() && i >= old(i)
      ensures c.Some? ==> IsColumn(toks, old(i), i, c.value)
      ensures IsColumn(toks, old(i), end, goal) && Between(toks[end]) ==> c == Some(goal) && i == end
    {
      hide IsIdent, TypeTokens;
      var name := ExpectIdent();
      if name.None? { return None; }
      var t := ParseType();
      if t.None? { return None; }
      var nullable := true;
      if Peek() == Kw(NOT) {
        i := i + 1;
        var null_word := Expect(Kw(NULL));
        if !null_word { return None; }
        nullable := false;
      } else if Peek() == Kw(NULL) {
        i := i + 1;
      }
      c := Some(Column(name.value, t.value, nullable));
    }

    /** The column definitions of a table. */
    method ParseColumnDefs(ghost goal: seq<Column>, ghost end: nat) returns (es: Option<seq<Column>>)
      requires Valid()
      modifies this
      ensures Valid() && i >= old(i)
      ensures es.Some? ==> IsList(toks, old(i), i, IsColumn, es.value)
      ensures Listed(toks, old(i), end, IsColumn, goal) ==> es == Some(goal) && i == end
    {
      hide NoColumn, IsColumn, Element, IsList, MoreListed, Listed, OnTrack, Stopper, Between, TokensOk, IsIdent;
      ghost var spelled := Listed(toks, i, end, IsColumn, goal);
      ghost var next, m := ListCut(toks, i, end, IsColumn, goal, NoColumn());
      var e := ParseListedColumn(next, m);
      if e.None? { return None; }
      var out := [e.value];
      OneListed(toks, old(i), i, IsColumn, e.value);
      while Peek() == Sym(Comma)
        invariant Valid() && i >= old(i) && out != [] && IsList(toks, old(i), i, IsColumn, out)
        invariant spelled ==> OnTrack(toks, i, end, IsColumn, goal, out)
        decreases |toks| - i
      {
        ghost var mid := i;
        next, m := TrackNext(toks, i, end, IsColumn, goal, out, NoColumn());
        Advance();
        e := ParseListedColumn(next, m);
        if e.None? { return None; }
        ListedAfter(toks, old(i), mid, i, IsColumn, out, e.value);
        out := out + [e.value];
      }
      TrackDone(toks, i, end, IsColumn, goal, out);
      es := Some(out);
    }

    /** The values of an INSERT. */
    method ParseLiterals(ghost goal: seq<Literal>, ghost end: nat) returns (es: Option<seq<Literal>>)
      requires Valid()
      modifies this
      ensures Valid() && i >= old(i)
      ensures es.Some? ==> IsList(toks, old(i), i, IsLiteral, es.value)
      ensures Listed(toks, old(i), end, IsLiteral, goal) ==> es == Some(goal) && i == end
    {
      hide IsLiteral, Element, IsList, MoreListed, Listed, OnTrack, Stopper, Between, TokensOk, IsIdent;
      ghost var spelled := Listed(toks, i, end, IsLiteral, goal);
      ghost var next, m := ListCut(toks, i, end, IsLiteral, goal, NullLit);
      var e := ParseListedLiteral(next, m);
      if e.None? { return None; }
      var out := [e.value];
      OneListed(toks, old(i), i, IsLiteral, e.value);
      while Peek() == Sym(Comma)
        invariant Valid() && i >= old(i) && out != [] && IsList(toks, old(i), i, IsLiteral, out)
        invariant spelled ==> OnTrack(toks, i, end, IsLiteral, goal, out)
        decreases |toks| - i
      {
        ghost var mid := i;
        next, m := TrackNext(toks, i, end, IsLiteral, goal, out, NullLit);
        Advance();
        e := ParseListedLiteral(next, m);
        if e.None? { return None; }
        ListedAfter(toks, old(i), mid, i, IsLiteral, out, e.value);
        out := out + [e.value];
      }
      TrackDone(toks, i, end, IsLiteral, goal, out);
      es := Some(out);
    }

    /** The select list. */
    method ParseItems(ghost goal: seq<Item>, ghost end: nat) returns (es: Option<seq<Item>>)
      requires Valid()
      modifies this
      ensures Valid() && i >= old(i)
      ensures es.Some? ==> IsList(toks, old(i), i, IsItem, es.value)
      ensures Listed(toks, old(i), end, IsItem, goal) ==> es == Some(goal) && i == end
    {
      hide NoItem, IsItem, Element, IsList, MoreListed, Listed, OnTrack, Stopper, Between, TokensOk, IsIdent;
      ghost var spelled := Listed(toks, i, end, IsItem, goal);
      ghost var next, m := ListCut(toks, i, end, IsItem, goal, NoItem());
      var e := ParseListedItem(next, m);
      if e.None? { return None; }
      var out := [e.value];
      OneListed(toks, old(i), i, IsItem, e.value);
      while Peek() == Sym(Comma)
        invariant Valid() && i >= old(i) && out != [] && IsList(toks, old(i), i, IsItem, out)
        invariant spelled ==> OnTrack(toks, i, end, IsItem, goal, out)
        decreases |toks| - i
      {
        ghost var mid := i;
        next, m := TrackNext(toks, i, end, IsItem, goal, out, NoItem());
        Advance();
        e := ParseListedItem(next, m);
        if e.None? { return None; }
        ListedAfter(toks, old(i), mid, i, IsItem, out, e.value);
        out := out + [e.value];
      }
      TrackDone(toks, i, end, IsItem, goal, out);
      es := Some(out);
    }

    /** The columns of a GROUP BY. */
    method ParseRefs(ghost goal: seq<ColumnRef>, ghost end: nat) returns (es: Option<seq<ColumnRef>>)
      requires Valid()
      modifies this
      ensures Valid() && i >= old(i)
      ensures es.Some? ==> IsList(toks, old(i), i, IsRef, es.value)
      ensures Listed(toks, old(i), end, IsRef, goal) ==> es == Some(goal) && i == end
    {
      hide NoRef, IsRef, Element, IsList, MoreListed, Listed, OnTrack, Stopper, Between, TokensOk, IsIdent;
      ghost var spelled := Listed(toks, i, end, IsRef, goal);
      ghost var next, m := ListCut(toks, i, end, IsRef, goal, NoRef());
      var e := ParseListedRef(next, m);
      if e.None? { return None; }
      var out := [e.value];
      OneListed(toks, old(i), i, IsRef, e.value);
      while Peek() == Sym(Comma)
        invariant Valid() && i >= old(i) && out != [] && IsList(toks, old(i), i, IsRef, out)
        invariant spelled ==> OnTrack(toks, i, end, IsRef, goal, out)
        decreases |toks| - i
      {
        ghost var mid := i;
        next, m := TrackNext(toks, i, end, IsRef, goal, out, NoRef());
        Advance();
        e := ParseListedRef(next, m);
        if e.None? { return None; }
        ListedAfter(toks, old(i), mid, i, IsRef, out, e.value);
        out := out + [e.value];
      }
      TrackDone(toks, i, end, IsRef, goal, out);
      es := Some(out);
    }

    /** The terms of an ORDER BY. */
    method ParseOrder(ghost goal: seq<OrderItem>, ghost end: nat) returns (es: Option<seq<OrderItem>>)
      requires Valid()
      modifies this
      ensures Valid() && i >= old(i)
      ensures es.Some? ==> IsList(toks, old(i), i, IsOrder, es.value)
      ensures Listed(toks, old(i), end, IsOrder, goal) ==> es == Some(goal) && i == end
    {
      hide NoOrder, IsOrder, Element, IsList, MoreListed, Listed, OnTrack, Stopper, Between, TokensOk, IsIdent;
      ghost var spelled := Listed(toks, i, end, IsOrder, goal);
      ghost var next, m := ListCut(toks, i, end, IsOrder, goal, NoOrder());
      var e := ParseListedOrder(next, m);
      if e.None? { return None; }
      var out := [e.value];
      OneListed(toks, old(i), i, IsOrder, e.value);
      while Peek() == Sym(Comma)
        invariant Valid() && i >= old(i) && out != [] && IsList(toks, old(i), i, IsOrder, out)
        invariant spelled ==> OnTrack(toks, i, end, IsOrder, goal, out)
        decreases |toks| - i
      {
        ghost var mid := i;
        next, m := TrackNext(toks, i, end, IsOrder, goal, out, NoOrder());
        Advance();
        e := ParseListedOrder(next, m);
        if e.None? { return None; }
        ListedAfter(toks, old(i), mid, i, IsOrder, out, e.value);
        out := out + [e.value];
      }
      TrackDone(toks, i, end, IsOrder, goal, out);
      es := Some(out);
    }

    // An element of each kind of list, as the lists speak of it.

    method ParseListedColumn(ghost goal: Column, ghost end: nat) returns (e: Option<Column>)
      requires Valid()
      modifies this
      ensures Valid() && i >= old(i)
      ensures e.Some? ==> Element(toks, old(i), i, IsColumn, e.value)
      ensures Element(toks, old(i), end, IsColumn, goal) && end < |toks| && Between(toks[end]) ==> e == Some(goal) && i == end
    {
      e := ParseColumnDef(goal, end);
    }

    method ParseListedLiteral(ghost goal: Literal, ghost end: nat) returns (e: Option<Literal>)
      requires Valid()
      modifies this
      ensures Valid() && i >= old(i)
      ensures e.Some? ==> Element(toks, old(i), i, IsLiteral, e.value)
      ensures Element(toks, old(i), end, IsLiteral, goal) && end < |toks| && Between(toks[end]) ==> e == Some(goal) && i == end
    {
      e := ParseLiteral();
    }

    method ParseListedItem(ghost goal: Item, ghost end: nat) returns (e: Option<Item>)
      requires Valid()
      modifies this
      ensures Valid() && i >= old(i)
      ensures e.Some? ==> Element(toks, old(i), i, IsItem, e.value)
      ensures Element(toks, old(i), end, IsItem, goal) && end < |toks| && Between(toks[end]) ==> e == Some(goal) && i == end
    {
      e := ParseItem(goal, end);
    }

    method ParseListedRef(ghost goal: ColumnRef, ghost end: nat) returns (e: Option<ColumnRef>)
      requires Valid()
      modifies this
      ensures Valid() && i >= old(i)
      ensures e.Some? ==> Element(toks, old(i), i, IsRef, e.value)
      ensures Element(toks, old(i), end, IsRef, goal) && end < |toks| && Between(toks[end]) ==> e == Some(goal) && i == end
    {
      e := ParseColumnRef(goal, end);
    }

    method ParseListedOrder(ghost goal: OrderItem, ghost end: nat) returns (e: Option<OrderItem>)
      requires Valid()
      modifies this
      ensures Valid() && i >= old(i)
      ensures e.Some? ==> Element(toks, old(i), i, IsOrder, e.value)
      ensures Element(toks, old(i), end, IsOrder, goal) && end < |toks| && Between(toks[end]) ==> e == Some(goal) && i == end
    {
      e := ParseOrderItem(goal, end);
    }

    method ParseWhere(k: Key, ghost goal: seq<Comparison>, ghost end: nat) returns (r: Option<seq<Comparison>>)
      requires Valid() && k != AND
      modifies this
      ensures Valid() && i >= old(i)
      ensures r.Some? ==> IsWhere(toks, old(i), i, k, r.value)
      ensures IsWhere(toks, old(i), end, k, goal) && end < |toks| && Stopper(toks[end]) && toks[end] != Kw(k) ==>
                r == Some(goal) && i == end
    {
      hide IsCondition;
      if Peek() != Kw(k) { return Some([]); }
      i := i + 1;
      r := ParseCondition(goal, end);
      if r.Some? { ConditionSome(toks, old(i) + 1, i, r.value); }
    }

    method ParseGroupBy(ghost goal: seq<ColumnRef>, ghost end: nat) returns (r: Option<seq<ColumnRef>>)
      requires Valid()
      modifies this
      ensures Valid() && i >= old(i)
      ensures r.Some? ==> IsBy(toks, old(i), i, GROUP, IsRef, r.value)
      ensures IsBy(toks, old(i), end, GROUP, IsRef, goal) && end < |toks| && Stopper(toks[end]) && toks[end] != Kw(GROUP) ==>
                r == Some(goal) && i == end
    {
      hide IsList;
      if Peek() != Kw(GROUP) { return Some([]); }
      i := i + 1;
      var byWord := Expect(Kw(BY));
      if !byWord { return None; }
      r := ParseRefs(goal, end);
      if r.Some? { ListSome(toks, old(i) + 2, i, IsRef, r.value); }
    }

    method ParseOrderBy(ghost goal: seq<OrderItem>, ghost end: nat) returns (r: Option<seq<OrderItem>>)
      requires Valid()
      modifies this
      ensures Valid() && i >= old(i)
      ensures r.Some? ==> IsBy(toks, old(i), i, ORDER, IsOrder, r.value)
      ensures IsBy(toks, old(i), end, ORDER, IsOrder, goal) && end < |toks| && Stopper(toks[end]) && toks[end] != Kw(ORDER) ==>
                r == Some(goal) && i == end
    {
      hide IsList;
      if Peek() != Kw(ORDER) { return Some([]); }
      i := i + 1;
      var byWord := Expect(Kw(BY));
      if !byWord { return None; }
      r := ParseOrder(goal, end);
      if r.Some? { ListSome(toks, old(i) + 2, i, IsOrder, r.value); }
    }

    method ParseLimit(ghost goal: Option<int>, ghost end: nat) returns (r: Option<Option<int>>)
      requires Valid()
      modifies this
      ensures Valid() && i >= old(i)
      ensures r.Some? ==> IsLimit(toks, old(i), i, r.value)
      ensures IsLimit(toks, old(i), end, goal) && toks[end] != Kw(LIMIT) ==> r == Some(goal) && i == end
    {
      if Peek() != Kw(LIMIT) { return Some(None); }
      i := i + 1;
      assert TokenOk(dec, toks[i]);
      if !Peek().IntTok? || Peek().v < 0 { return None; }
      r := Some(Some(Peek().v));
      i := i + 1;
    }

    /** select = "SELECT" ( "*" | item { "," item } ) "FROM" table_ref { join } and the clauses. */
    method ParseSelect(ghost goal: Select, ghost end: nat) returns (s: Option<Select>)
      requires Valid() && Peek() == Kw(SELECT)
      modifies this
      ensures Valid() && i > old(i)
      ensures s.Some? ==> IsSelect(toks, old(i), i, s.value)
      ensures IsSelect(toks, old(i), end, goal) && end < |toks| && StatementEnd(toks[end]) ==> s == Some(goal) && i == end
    {
      hide IsTable, IsJoins, IsClauses, IsList, IsSelect, Stopper, Closes, TokenOk;
      ghost var f: nat, a: nat, b: nat := 0, 0, 0;
      if IsSelect(toks, i, end, goal) && end < |toks| && StatementEnd(toks[end]) { f, a, b := SelectCut(toks, i, end, goal); }
      ghost var start := i;
      i := i + 1;
      var star, columns := false, [];
      if Peek() == Sym(Star) {
        i := i + 1;
        star := true;
      } else {
        var items := ParseItems(goal.columns, f);
        if items.None? { return None; }
        columns := items.value;
      }
      ghost var f' := i;
      var from_ := Expect(Kw(FROM));
      if !from_ { return None; }
      var from := ParseTableRef(goal.from, a);
      if from.None? { return None; }
      ghost var a' := i;
      var joins := ParseJoins(goal.joins, b);
      if joins.None? { return None; }
      ghost var b' := i;
      s := ParseClauses(Select(star, columns, from.value, joins.value, [], [], [], [], None), goal, end);
      if s.Some? { Assembled(toks, start, f', a', b', i, s.value); }
    }

    /** WHERE, GROUP BY, HAVING, ORDER BY and LIMIT, each optional, in this order. */
    method ParseClauses(head: Select, ghost goal: Select, ghost end: nat) returns (s: Option<Select>)
      requires Valid()
      modifies this
      ensures Valid() && i >= old(i)
      ensures s.Some? ==> SameHead(s.value, head) && IsClauses(toks, old(i), i, s.value)
      ensures IsClauses(toks, old(i), end, goal) && end < |toks| && StatementEnd(toks[end]) ==>
                && s.Some? && s.value == goal.(star := head.star, columns := head.columns, from := head.from, joins := head.joins)
                && i == end
    {
      hide IsClauses, IsWhere, IsBy, IsLimit, From, Stopper, Closes, TokensOk;
      ghost var b: nat, c: nat, d: nat, e: nat := 0, 0, 0, 0;
      if IsClauses(toks, i, end, goal) && end < |toks| && StatementEnd(toks[end]) {
        b, c, d, e := ClausesStop(toks, i, end, goal);
      }
      var where_ := ParseWhere(WHERE, goal.where_, b);
      if where_.None? { return None; }
      ghost var b' := i;
      var groupBy := ParseGroupBy(goal.groupBy, c);
      if groupBy.None? { return None; }
      ghost var c' := i;
      var having := ParseWhere(HAVING, goal.having, d);
      if having.None? { return None; }
      ghost var d' := i;
      var orderBy := ParseOrderBy(goal.orderBy, e);
      if orderBy.None? { return None; }
      ghost var e' := i;
      var limit := ParseLimit(goal.limit, end);
      if limit.None? { return None; }
      s := Some(Select(head.star, head.columns, head.from, head.joins, where_.value, groupBy.value, having.value, orderBy.value, limit.value));
      ClausesAre(toks, old(i), b', c', d', e', i, s.value);
    }

    /** create = "CREATE" "TABLE" identifier "(" column { "," column } ")" */
    method ParseCreate(ghost goal: Statement, ghost end: nat) returns (s: Option<Statement>)
      requires Valid() && Peek() == Kw(CREATE)
      modifies this
      ensures Valid() && i >= old(i)
      ensures s.Some? ==> IsStatement(toks, old(i), i, s.value)
      ensures !goal.SelectStmt? && IsStatement(toks, old(i), end, goal) ==> s == Some(goal) && i == end
    {
      hide IsList, IsIdent, IsSelect;
      i := i + 1;
      if Peek() == Kw(INDEX) {
        s := ParseCreateIndex(goal, end);
        return;
      }
      var table_ := Expect(Kw(TABLE));
      if !table_ { return None; }
      var name := ExpectIdent();
      if name.None? { return None; }
      var open := Expect(Sym(LParen));
      if !open { return None; }
      var columns := ParseColumnDefs(if goal.CreateTable? then goal.columns else [], if end > 0 then end - 1 else 0);
      if columns.None? { return None; }
      ListSome(toks, old(i) + 4, i, IsColumn, columns.value);
      var close := Expect(Sym(RParen));
      if !close { return None; }
      s := Some(CreateTable(name.value, columns.value));
    }

    /** create_index = "CREATE" "INDEX" "ON" identifier "(" identifier ")" */
    method ParseCreateIndex(ghost goal: Statement, ghost end: nat) returns (s: Option<Statement>)
      requires Valid() && i > 0 && toks[i - 1] == Kw(CREATE) && Peek() == Kw(INDEX)
      modifies this
      ensures Valid() && i >= old(i)
      ensures s.Some? ==> IsStatement(toks, old(i) - 1, i, s.value)
      ensures !goal.SelectStmt? && IsStatement(toks, old(i) - 1, end, goal) ==> s == Some(goal) && i == end
    {
      hide IsList, IsIdent, IsSelect;
      i := i + 1;
      var on_ := Expect(Kw(ON));
      if !on_ { return None; }
      var name := ExpectIdent();
      if name.None? { return None; }
      var open := Expect(Sym(LParen));
      if !open { return None; }
      var column := ExpectIdent();
      if column.None? { return None; }
      var close := Expect(Sym(RParen));
      if !close { return None; }
      s := Some(CreateIndex(name.value, column.value));
    }

    /** insert = "INSERT" "INTO" identifier "VALUES" "(" literal { "," literal } ")" */
    method ParseInsert(ghost goal: Statement, ghost end: nat) returns (s: Option<Statement>)
      requires Valid() && Peek() == Kw(INSERT)
      modifies this
      ensures Valid() && i >= old(i)
      ensures s.Some? ==> IsStatement(toks, old(i), i, s.value)
      ensures !goal.SelectStmt? && IsStatement(toks, old(i), end, goal) ==> s == Some(goal) && i == end
    {
      hide IsList, IsIdent, IsSelect;
      i := i + 1;
      var into_ := Expect(Kw(INTO));
      if !into_ { return None; }
      var name := ExpectIdent();
      if name.None? { return None; }
      var values_ := Expect(Kw(VALUES));
      if !values_ { return None; }
      var open := Expect(Sym(LParen));
      if !open { return None; }
      var values := ParseLiterals(if goal.Insert? then goal.values else [], if end > 0 then end - 1 else 0);
      if values.None? { return None; }
      ListSome(toks, old(i) + 5, i, IsLiteral, values.value);
      var close := Expect(Sym(RParen));
      if !close { return None; }
      s := Some(Insert(name.value, values.value));
    }

    method ParseStatement(ghost goal: Statement, ghost end: nat) returns (s: Option<Statement>)
      requires Valid()
      modifies this
      ensures Valid() && i >= old(i)
      ensures s.Some? ==> IsStatement(toks, old(i), i, s.value)
      ensures IsStatement(toks, old(i), end, goal) && StatementEnd(toks[end]) ==> s == Some(goal) && i == end
    {
      hide IsSelect, IsList, IsIdent;
      if goal.SelectStmt? && IsSelect(toks, i, end, goal.select) { SelectFirst(toks, i, end, goal.select); }
      match Peek()
      case Kw(CREATE) => s := ParseCreate(goal, end);
      case Kw(INSERT) => s := ParseInsert(goal, end);
      case Kw(SELECT) =>
        var q := ParseSelect(if goal.SelectStmt? then goal.select else NoSelect(), end);
        s := if q.Some? then Some(SelectStmt(q.value)) else None;
      case Kw(BEGIN) => i := i + 1; s := Some(Begin);
      case Kw(COMMIT) => i := i + 1; s := Some(Commit);
      case Kw(ROLLBACK) => i := i + 1; s := Some(Rollback);
      case _ => s := None;
    }

    /** One statement, perhaps with a semicolon after it, and no more. */
    method ParseSingle(ghost goal: Statement) returns (s: Option<Statement>)
      requires Valid() && i == 0
      modifies this
      ensures Valid()
      ensures s.Some? ==> IsSingle(toks, s.value)
      ensures IsSingle(toks, goal) ==> s == Some(goal)
    {
      hide IsStatement;
      ghost var end: nat := 0;
      if IsSingle(toks, goal) { end := SingleCut(toks, goal); }
      s := ParseStatement(goal, end);
      if s.None? { return None; }
      ghost var mid := i;
      if Peek() == Sym(Semicolon) { i := i + 1; }
      if Peek() != End { return None; }
      assert IsStatement(toks, 0, mid, s.value);
    }

    /** Statement after statement, with semicolons between them and perhaps one at the end. */
    method ParseScript(ghost goals: seq<Statement>) returns (r: Option<seq<Statement>>)
      requires Valid() && i == 0
      modifies this
      ensures Valid()
      ensures r.Some? ==> IsScript(toks, 0, r.value)
      ensures IsScript(toks, 0, goals) ==> r == Some(goals)
    {
      hide IsStatement, IsScript, Closed;
      ghost var spelled := IsScript(toks, 0, goals);
      ghost var end: nat := 0;
      var out := [];
      NoneClosed(toks);
      assert goals[0..] == goals;
      while Peek() != End
        invariant Valid()
        invariant Closed(toks, 0, i, out) || (toks[i] == End && IsScript(toks, 0, out))
        invariant spelled ==> |out| <= |goals| && out == goals[..|out|] && IsScript(toks, i, goals[|out|..])
        decreases |toks| - i, if Peek() == End then 0 else 1
      {
        ghost var at, n := i, |out|;
        if spelled { end := ScriptCut(toks, i, goals[n..]); }
        var s := ParseStatement(if spelled then goals[n] else Begin, end);
        if s.None? { return None; }
        ghost var mid := i;
        StatementTakes(toks, at, mid, s.value);
        if Peek() == Sym(Semicolon) {
          i := i + 1;
          ClosedAfter(toks, 0, at, mid, out, s.value);
        } else if Peek() == End {
          LastOpen(toks, at, mid, s.value);
          ClosedThen(toks, 0, at, out, [s.value]);
        } else {
          return None;
        }
        out := out + [s.value];
        if spelled { NextOf(goals, n); }
      }
      if spelled { ScriptDone(toks, i, goals[|out|..]); assert goals[..|goals|] == goals; }
      if Closed(toks, 0, i, out) {
        NothingLeft(toks, i);
        ClosedThen(toks, 0, i, out, []);
        assert out + [] == out;
      }
      r := Some(out);
    }
  }

  // Where no tree is spelled, any will do.
  function NoRef(): ColumnRef { ColumnRef("", "") }
  function NoValue(): Value { Value(Plain, false, NoRef()) }
  function NoItem(): Item { Item(NoValue(), "") }
  function NoOrder(): OrderItem { OrderItem(NoValue(), false) }
  function NoColumn(): Column { Column("", Int64, true) }
  function NoComparison(): Comparison { Comparison(NoValue(), Eq, LiteralOperand(NullLit)) }
  function NoJoin(): JoinClause { JoinClause(TableRef("", ""), []) }
  function NoSelect(): Select { Select(true, [], TableRef("", ""), [], [], [], [], [], None) }

  predicate SameHead(s: Select, t: Select) { s.star == t.star && s.columns == t.columns && s.from == t.from && s.joins == t.joins }

  lemma IdentNotEmpty(name: string) ensures IsIdent(name) ==> name != "" {}

  // ---- from text ----

  lemma NumberOk(dec: Decimals, s: string)
    requires s != "" && (Digit(s[0]) || (s[0] == '-' && |s| > 1 && Digit(s[1])))
    ensures NumberToken(dec, s).Some? ==> TokenOk(dec, NumberToken(dec, s).value)
  {
    if Pointed(s, IntEnd(s)) { PointedOk(s); }
    hide IntEnd, NumberEnd, DecimalPoint;
  }

  lemma PointedOk(s: string)
    requires s != "" && (Digit(s[0]) || (s[0] == '-' && |s| > 1 && Digit(s[1]))) && Pointed(s, IntEnd(s))
    ensures NumberEnd(s) <= |s| && IsDecimal(s[..NumberEnd(s)])
  {
    var n, m, lo := IntEnd(s), NumberEnd(s), if s[0] == '-' then 1 else 0;
    assert lo < n && n + 1 < m && forall i | lo <= i < m && i != n :: Digit(s[i]) by { DigitsRun(s, lo, n); DigitsRun(s, n + 1, m); }
    assert s[n] == '.';
    hide IntEnd, NumberEnd, Digit, Pointed;
    var t := s[..m];
    assert t[0] == s[0] && t[n] == s[n];
    assert forall i | lo <= i < m && i != n :: t[i] == s[i];
    assert DecimalPoint(t, n);
  }

  lemma DigitsRun(s: string, lo: nat, hi: nat)
    requires lo <= hi <= |s|
    ensures hi == lo + DigitRun(s[lo..]) ==> forall i | lo <= i < hi :: Digit(s[i])
    ensures lo < |s| && Digit(s[lo]) ==> DigitRun(s[lo..]) > 0
  {
    hide Digit;
    if hi == lo + DigitRun(s[lo..]) {
      forall i | lo <= i < hi ensures Digit(s[i]) { assert s[i] == s[lo..][i - lo]; }
    }
  }

  lemma FrontOk(dec: Decimals, s: string)
    requires s != "" && !Space(s[0])
    ensures Front(dec, s).Some? ==> TokenOk(dec, Front(dec, s).value.0)
  {
    hide KeyOf, Upper, NumberToken, StringEnd;
    if IdentStart(s[0]) {
      assert WordRun(s) > 0;
      assert IsWord(s[..WordRun(s)]);
    } else if Digit(s[0]) || (s[0] == '-' && |s| > 1 && Digit(s[1])) {
      NumberOk(dec, s);
    }
  }

  lemma EndOk(dec: Decimals) ensures TokenOk(dec, End) {}

  /** The lexer's tokens end with the end of the text, and carry names, integers and
      decimals that can be written. */
  lemma {:induction false} LexOk(dec: Decimals, s: string)
    ensures Lex(dec, s).Some? ==> TokensOk(dec, Lex(dec, s).value)
    decreases |s|
  {
    hide Front, TokenOk;
    if s == "" {
      EndOk(dec);
    } else if Space(s[0]) {
      LexOk(dec, s[1..]);
    } else {
      FrontOk(dec, s);
      if Front(dec, s).Some? { LexOk(dec, s[Front(dec, s).value.1..]); }
    }
  }

  /** The end is the last token, and no other. */
  lemma {:induction false} EndLast(dec: Decimals, s: string)
    ensures Lex(dec, s).Some? ==>
              var toks := Lex(dec, s).value; toks != [] && forall k | 0 <= k < |toks| :: toks[k] == End <==> k == |toks| - 1
    decreases |s|
  {
    hide Front;
    if s == "" {
    } else if Space(s[0]) {
      EndLast(dec, s[1..]);
    } else if Front(dec, s).Some? {
      FrontNotEnd(dec, s);
      var (t, n) := Front(dec, s).value;
      EndLast(dec, s[n..]);
      if Lex(dec, s[n..]).Some? { assert forall k | 0 <= k < |Lex(dec, s[n..]).value| :: ([t] + Lex(dec, s[n..]).value)[k + 1] == Lex(dec, s[n..]).value[k]; }
    }
  }

  lemma FrontNotEnd(dec: Decimals, s: string)
    requires s != "" && !Space(s[0])
    ensures Front(dec, s).Some? ==> Front(dec, s).value.0 != End
  {
    hide KeyOf, Upper, StringEnd, NumberEnd, IntEnd;
  }

  /** The text spells the statement: it is tokens that do, to the end. */
  ghost predicate Spells(dec: Decimals, src: string, s: Statement) { exists toks :: Reads(dec, src, toks) && IsSingle(toks, s) }

  ghost predicate SpellsScript(dec: Decimals, src: string, ss: seq<Statement>) { exists toks :: Reads(dec, src, toks) && IsScript(toks, 0, ss) }

  lemma {:induction false} SpelledBy(dec: Decimals, src: string, toks: Option<seq<Token>>)
    requires Lex(dec, src) == toks
    ensures forall s :: Spells(dec, src, s) <==> toks.Some? && IsSingle(toks.value, s)
    ensures forall ss :: SpellsScript(dec, src, ss) <==> toks.Some? && IsScript(toks.value, 0, ss)
  {
    LexMeans(dec, src);
    hide IsSingle, IsScript, Lex, Reads;
    if toks.Some? { assert Reads(dec, src, toks.value); }
  }

  /** No text spells two statements. */
  lemma SpellsOnce(dec: Decimals, src: string, s: Statement, t: Statement)
    requires Spells(dec, src, s) && Spells(dec, src, t)
    ensures s == t
  {
    SpelledBy(dec, src, Lex(dec, src));
    hide IsSingle, Lex, Spells;
    SingleOnce(Lex(dec, src).value, s, t);
  }

  /** Nor two scripts. */
  lemma SpellsScriptOnce(dec: Decimals, src: string, ss: seq<Statement>, ts: seq<Statement>)
    requires SpellsScript(dec, src, ss) && SpellsScript(dec, src, ts)
    ensures ss == ts
  {
    SpelledBy(dec, src, Lex(dec, src));
    hide IsScript, Lex, SpellsScript;
    ScriptStarts(Lex(dec, src).value, 0, ss);
    ScriptOnce(Lex(dec, src).value, 0, ss, ts);
  }

  /** Keywords in another case spell the same. */
  lemma CaseSpells(dec: Decimals, a: string, b: string)
    requires Recased(dec, a, b)
    ensures forall s :: Spells(dec, a, s) <==> Spells(dec, b, s)
    ensures forall ss :: SpellsScript(dec, a, ss) <==> SpellsScript(dec, b, ss)
  {
    hide *;
    RecasedLexes(dec, a, b);
    SpelledBy(dec, a, Lex(dec, a));
    SpelledBy(dec, b, Lex(dec, b));
  }

  /** One statement from its text. A text is accepted if and only if it spells a statement,
      whatever optional words are in it; and that statement, the only one, is returned. */
  method ParseText(src: string, dec: Decimals) returns (s: Option<Statement>)
    ensures s.Some? <==> exists g :: Spells(dec, src, g)
    ensures forall g :: Spells(dec, src, g) ==> s == Some(g)
    ensures s.Some? ==> StatementOk(dec, s.value)
  {
    hide Spells, IsSingle, StatementOk, Lex, TokensOk;
    var lexer := new Lexer(src, dec);
    var toks := lexer.Tokenize();
    SpelledBy(dec, src, toks);
    if toks.None? { return None; }
    LexOk(dec, src);
    ghost var spelled := Begin;
    if exists g :: Spells(dec, src, g) { spelled :| Spells(dec, src, spelled); }
    var parser := new Parser(toks.value, dec);
    s := parser.ParseSingle(spelled);
    if s.Some? {
      SingleGood(dec, toks.value, s.value);
      forall g | Spells(dec, src, g) ensures s == Some(g) { SpellsOnce(dec, src, g, s.value); }
    }
  }

  /** The text a statement is printed as spells it. */
  lemma PrintedSpells(dec: Decimals, s: Statement)
    requires StatementOk(dec, s) && Faithful(dec)
    ensures Spells(dec, Unparse(dec, s), s)
  {
    hide StatementOk, Faithful, Unparse, StatementTokens, Lex, Spells;
    UnparseLexes(dec, s);
    PrintedSingle(dec, s);
    SpelledBy(dec, Unparse(dec, s), Lex(dec, Unparse(dec, s)));
  }

  /** Whatever parses can be printed, and what is printed parses to the same. */
  method Reparse(src: string, dec: Decimals) returns (s: Option<Statement>, again: Option<Statement>)
    ensures s.Some? <==> exists g :: Spells(dec, src, g)
    ensures Faithful(dec) ==> again == s
  {
    hide Spells, StatementOk, Faithful, Unparse;
    s := ParseText(src, dec);
    if s.None? { return s, None; }
    if Faithful(dec) { PrintedSpells(dec, s.value); }
    again := ParseText(Unparse(dec, s.value), dec);
  }

  /** A script's statements from its text: the same of scripts. */
  method ParseScriptText(src: string, dec: Decimals) returns (r: Option<seq<Statement>>)
    ensures r.Some? <==> exists g :: SpellsScript(dec, src, g)
    ensures forall g :: SpellsScript(dec, src, g) ==> r == Some(g)
    ensures r.Some? ==> forall k | 0 <= k < |r.value| :: StatementOk(dec, r.value[k])
  {
    hide SpellsScript, IsScript, StatementOk, Lex, TokensOk;
    var lexer := new Lexer(src, dec);
    var toks := lexer.Tokenize();
    SpelledBy(dec, src, toks);
    if toks.None? { return None; }
    LexOk(dec, src);
    ghost var spelled := [];
    if exists g :: SpellsScript(dec, src, g) { spelled :| SpellsScript(dec, src, spelled); }
    var parser := new Parser(toks.value, dec);
    r := parser.ParseScript(spelled);
    if r.Some? {
      ScriptGood(dec, toks.value, 0, r.value);
      forall g | SpellsScript(dec, src, g) ensures r == Some(g) { SpellsScriptOnce(dec, src, g, r.value); }
    }
  }

  lemma {:induction false} PrintedSpellsScript(dec: Decimals, ss: seq<Statement>)
    requires Faithful(dec) && forall k | 0 <= k < |ss| :: StatementOk(dec, ss[k])
    ensures SpellsScript(dec, ScriptSql(dec, ss), ss)
  {
    hide StatementOk, Faithful, ScriptSql, ScriptTokens, Lex, SpellsScript;
    ScriptLexes(dec, ss);
    PrintedScript(dec, ScriptTokens(ss) + [End], 0, ss);
    SpelledBy(dec, ScriptSql(dec, ss), Lex(dec, ScriptSql(dec, ss)));
  }

  /** A script that parses can be printed, and what is printed parses to the same. */
  method ReparseScript(src: string, dec: Decimals) returns (r: Option<seq<Statement>>, again: Option<seq<Statement>>)
    ensures r.Some? <==> exists g :: SpellsScript(dec, src, g)
    ensures Faithful(dec) ==> again == r
  {
    hide SpellsScript, StatementOk, Faithful, ScriptSql;
    r := ParseScriptText(src, dec);
    if r.None? { return r, None; }
    if Faithful(dec) { PrintedSpellsScript(dec, r.value); }
    again := ParseScriptText(ScriptSql(dec, r.value), dec);
  }
}
