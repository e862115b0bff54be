/** Every statement's text lexes to its tokens (src/unparse.hpp against src/lexer.hpp). */
module SqlText {
  import opened Wrappers
  import opened SqlSyntax
  import opened SqlLexer

  /** Where a token may stop: anywhere; before a character no word goes on with; before
      a space, a comma, or a parenthesis. */
  predicate Stops(level: nat, rest: string) {
    level == 0 || rest == "" ||
    if level == 1 then !IdentCont(rest[0]) else rest[0] == ' ' || rest[0] == ',' || rest[0] == '(' || rest[0] == ')' || rest[0] == ';'
  }

  /** Wherever it stands, as long as it can stop there, `text` lexes to `toks`. */
  ghost predicate Lexes(dec: Decimals, text: string, toks: seq<Token>, level: nat) {
    forall rest | Stops(level, rest) :: Lex(dec, text + rest) == Then(toks, Lex(dec, rest))
  }

  lemma Weaken(dec: Decimals, text: string, toks: seq<Token>, level: nat, more: nat)
    requires Lexes(dec, text, toks, level) && level <= more
    ensures Lexes(dec, text, toks, more)
  {
    forall rest | Stops(more, rest) ensures Lex(dec, text + rest) == Then(toks, Lex(dec, rest)) {
      assert Stops(level, rest);
    }
  }

  /** Text after text. */
  lemma Glue(dec: Decimals, a: string, ta: seq<Token>, la: nat, b: string, tb: seq<Token>, lb: nat)
    requires Lexes(dec, a, ta, la) && Lexes(dec, b, tb, lb)
    requires la == 0 || if b == "" then la <= lb else Stops(la, b)
    ensures Lexes(dec, a + b, ta + tb, lb)
  {
    hide Lex;
    forall rest | Stops(lb, rest) ensures Lex(dec, a + b + rest) == Then(ta + tb, Lex(dec, rest)) {
      assert a + b + rest == a + (b + rest);
      assert Stops(la, b + rest) by { if b != "" { assert (b + rest)[0] == b[0]; } else { assert b + rest == rest; } }
      ThenThen(ta, tb, Lex(dec, rest));
    }
  }

  lemma ThenThen(a: seq<Token>, b: seq<Token>, rest: Option<seq<Token>>)
    ensures Then(a, Then(b, rest)) == Then(a + b, rest)
  {
    if rest.Some? { assert a + (b + rest.value) == a + b + rest.value; }
  }

  // ---- the tokens ----

  lemma FrontLexes(dec: Decimals, text: string, t: Token, level: nat)
    requires text != "" && !Space(text[0])
    requires forall rest | Stops(level, rest) :: Front(dec, text + rest) == Some((t, |text|))
    ensures Lexes(dec, text, [t], level)
  {
    forall rest | Stops(level, rest) ensures Lex(dec, text + rest) == Then([t], Lex(dec, rest)) {
      hide Front;
      assert (text + rest)[0] == text[0] && (text + rest)[|text|..] == rest;
      assert Front(dec, text + rest) == Some((t, |text|));
    }
  }

  lemma {:induction false} WordRunIs(w: string, rest: string)
    requires (forall i | 0 <= i < |w| :: IdentCont(w[i])) && Stops(1, rest)
    ensures WordRun(w + rest) == |w|
  {
    if w == "" {
      assert w + rest == rest;
    } else {
      assert (w + rest)[1..] == w[1..] + rest;
      WordRunIs(w[1..], rest);
    }
  }

  lemma LexWordOf(dec: Decimals, w: string)
    requires IsWord(w)
    ensures Lexes(dec, w, [WordToken(w)], 1)
  {
    hide WordToken, NumberToken, StringEnd, OperatorToken;
    forall rest | Stops(1, rest) ensures Front(dec, w + rest) == Some((WordToken(w), |w|)) {
      WordRunIs(w, rest);
      assert (w + rest)[..|w|] == w && (w + rest)[0] == w[0];
    }
    FrontLexes(dec, w, WordToken(w), 1);
  }

  lemma LexIdent(dec: Decimals, w: string)
    requires IsIdent(w)
    ensures Lexes(dec, w, [Ident(w)], 1)
  {
    LexWordOf(dec, w);
  }

  lemma {:induction false} UpperSame(s: string)
    requires forall i | 0 <= i < |s| :: !Lower(s[i])
    ensures Upper(s) == s
  {
    if s != "" { UpperSame(s[1..]); }
  }

  /** A word in capitals, perhaps with digits. */
  predicate Capitals(w: string) {
    w != "" && 'A' <= w[0] <= 'Z' && forall i | 0 <= i < |w| :: 'A' <= w[i] <= 'Z' || Digit(w[i])
  }

  lemma KeyLetters(k: Key)
    ensures Capitals(Spelling(k))
  {
    hide Spelling, Capitals;
    if |Spelling(k)| <= 4 { ShortLetters(k); } else if |Spelling(k)| == 5 { FiveLetters(k); } else { LongLetters(k); }
  }

  lemma ShortLetters(k: Key) requires |Spelling(k)| <= 4 ensures Capitals(Spelling(k)) {}
  lemma FiveLetters(k: Key) requires |Spelling(k)| == 5 ensures Capitals(Spelling(k)) {}
  lemma LongLetters(k: Key) requires |Spelling(k)| > 5 ensures Capitals(Spelling(k)) {}

  lemma KeyWord(k: Key)
    ensures KeyOf(Spelling(k)) == Some(k)
  {
    hide KeyOf, Spelling;
    if |Spelling(k)| <= 4 { ShortKey(k); } else if |Spelling(k)| == 5 { FiveKey(k); } else { LongKey(k); }
  }

  lemma ShortKey(k: Key) requires |Spelling(k)| <= 4 ensures KeyOf(Spelling(k)) == Some(k) {}
  lemma FiveKey(k: Key) requires |Spelling(k)| == 5 ensures KeyOf(Spelling(k)) == Some(k) {}
  lemma LongKey(k: Key) requires |Spelling(k)| > 5 ensures KeyOf(Spelling(k)) == Some(k) {}

  lemma LexKey(dec: Decimals, k: Key)
    ensures Lexes(dec, Spelling(k), [Kw(k)], 1)
  {
    hide KeyOf, Spelling, Lexes;
    KeyLetters(k);
    KeyWord(k);
    UpperSame(Spelling(k));
    LexWordOf(dec, Spelling(k));
  }

  lemma LexAgg(dec: Decimals, f: AggFunc)
    requires f != Plain
    ensures IsIdent(AggName(f)) && Lexes(dec, AggName(f), [Ident(AggName(f))], 1)
  {
    hide KeyOf, AggName, Upper, Lexes;
    AggLetters(f);
    AggNoKey(f);
    UpperSame(AggName(f));
    LexIdent(dec, AggName(f));
  }

  lemma AggLetters(f: AggFunc) requires f != Plain ensures Capitals(AggName(f)) {}
  lemma AggNoKey(f: AggFunc) requires f != Plain ensures KeyOf(AggName(f)) == None {}

  lemma LexBlank(dec: Decimals)
    ensures Lexes(dec, " ", [], 0)
  {
    hide Front;
    forall rest | Stops(0, rest) ensures Lex(dec, " " + rest) == Then([], Lex(dec, rest)) {
      assert (" " + rest)[1..] == rest;
      ThenNone(Lex(dec, rest));
    }
  }

  /** The text of a symbol. */
  function Mark(s: Symbol): string {
    match s
    case LParen => "(" case RParen => ")" case Comma => "," case Star => "*" case Semicolon => ";" case Dot => "."
    case Cmp(op) => OpSymbol(op)
  }

  lemma LexMark(dec: Decimals, s: Symbol)
    ensures Lexes(dec, Mark(s), [Sym(s)], if s.Cmp? then 2 else 0)
  {
    var level := if s.Cmp? then 2 else 0;
    forall rest | Stops(level, rest) ensures Front(dec, Mark(s) + rest) == Some((Sym(s), |Mark(s)|)) {
      assert (Mark(s) + rest)[0] == Mark(s)[0];
      assert |Mark(s) + rest| > 1 ==> (Mark(s) + rest)[1] == if |Mark(s)| > 1 then Mark(s)[1] else rest[0];
    }
    FrontLexes(dec, Mark(s), Sym(s), level);
  }

  // ---- numbers ----

  lemma {:induction false} NatTextIs(n: nat)
    ensures NatText(n) != "" && (forall i | 0 <= i < |NatText(n)| :: Digit(NatText(n)[i])) && NatValue(NatText(n)) == n
  {
    if n < 10 {
      assert [DigitChar(n)][..0] == "";
    } else {
      NatTextIs(n / 10);
      var t := NatText(n / 10);
      assert (t + [DigitChar(n % 10)])[..|t|] == t;
    }
  }

  lemma {:induction false} DigitRunIs(t: string, rest: string)
    requires (forall i | 0 <= i < |t| :: Digit(t[i])) && (rest == "" || !Digit(rest[0]))
    ensures DigitRun(t + rest) == |t|
  {
    if t == "" {
      assert t + rest == rest;
    } else {
      assert (t + rest)[1..] == t[1..] + rest;
      DigitRunIs(t[1..], rest);
    }
  }

  /** A sign, or none. */
  predicate Signed(sign: string, t: string) { (sign == "" && (t == "" || t[0] != '-')) || sign == "-" }

  lemma IntEndIs(sign: string, digits: string, rest: string)
    requires Signed(sign, digits + rest) && (forall i | 0 <= i < |digits| :: Digit(digits[i])) && (rest == "" || !Digit(rest[0]))
    ensures IntEnd(sign + (digits + rest)) == |sign + digits|
  {
    hide DigitRun;
    var s := sign + (digits + rest);
    DigitRunIs(digits, rest);
    if sign == "-" { assert s[0] == '-' && s[1..] == digits + rest; } else { assert s == digits + rest; }
  }

  /** A number at the front of a text. */
  lemma NumberFront(dec: Decimals, t: string, rest: string, tok: Token)
    requires t != "" && (Digit(t[0]) || (t[0] == '-' && |t| > 1 && Digit(t[1])))
    requires NumberEnd(t + rest) == |t| && NumberToken(dec, t + rest) == Some(tok)
    ensures Front(dec, t + rest) == Some((tok, |t|))
  {
    hide NumberToken, NumberEnd, StringEnd, OperatorToken, WordRun;
    assert (t + rest)[0] == t[0];
    if |t| > 1 { assert (t + rest)[1] == t[1]; }
  }

  /** Where an integer stops, nothing makes it a decimal. */
  lemma IntFront(dec: Decimals, sign: string, digits: string, rest: string, v: int)
    requires (sign == "" || sign == "-") && digits != "" && (forall i | 0 <= i < |digits| :: Digit(digits[i]))
    requires Stops(2, rest) && v == IntValue(sign + digits) && INT64_MIN <= v <= INT64_MAX
    ensures var s := sign + digits + rest; s != "" && !Space(s[0]) && Front(dec, s) == Some((IntTok(v), |sign + digits|))
  {
    hide DigitRun, Front, IntEnd, IntValue;
    var t := sign + digits;
    var s := t + rest;
    assert s == sign + (digits + rest) && s[..|t|] == t && s[0] == t[0];
    IntEndIs(sign, digits, rest);
    if rest != "" { assert s[|t|] == rest[0]; }
    assert digits[0] == t[|sign|];
    NumberFront(dec, t, rest, IntTok(v));
  }

  lemma LexInt(dec: Decimals, v: int)
    requires INT64_MIN <= v <= INT64_MAX
    ensures Lexes(dec, IntText(v), [IntTok(v)], 2)
  {
    var n: nat, t, sign := if v < 0 then -v else v, IntText(v), if v < 0 then "-" else "";
    NatTextIs(n);
    var digits := NatText(n);
    assert t == sign + digits && t[|sign|] == digits[0];
    assert v < 0 ==> t[1..] == digits;
    hide NatText, NatValue, Front;
    forall rest | Stops(2, rest) ensures Front(dec, t + rest) == Some((IntTok(v), |t|)) {
      IntFront(dec, sign, digits, rest, v);
    }
    FrontLexes(dec, t, IntTok(v), 2);
  }

  /** The parts of a decimal. */
  lemma DecimalParts(t: string) returns (sign: string, whole: string, frac: string)
    requires IsDecimal(t)
    ensures t == sign + whole + ("." + frac) && whole != "" && frac != "" && (sign == "" || sign == "-")
    ensures (forall i | 0 <= i < |whole| :: Digit(whole[i])) && (forall i | 0 <= i < |frac| :: Digit(frac[i]))
  {
    var p: nat :| DecimalPoint(t, p);
    var lo := if t[0] == '-' then 1 else 0;
    assert lo < p < |t| - 1;
    sign, whole, frac := t[..lo], t[lo..p], t[p + 1..];
    hide IsDecimal;
    Cut(t, lo, p);
    if lo == 1 { assert t[..1] == [t[0]]; }
  }

  lemma Cut(t: string, lo: nat, p: nat)
    requires lo <= p < |t| && t[p] == '.'
    ensures t == t[..lo] + t[lo..p] + ("." + t[p + 1..])
  {
  }

  lemma DecimalFront(dec: Decimals, sign: string, whole: string, frac: string, rest: string)
    requires whole != "" && frac != "" && (sign == "" || sign == "-") && (rest == "" || !Digit(rest[0]))
    requires (forall i | 0 <= i < |whole| :: Digit(whole[i])) && (forall i | 0 <= i < |frac| :: Digit(frac[i]))
    ensures var t := sign + whole + ("." + frac); var s := t + rest;
            s != "" && !Space(s[0]) && Front(dec, s) == Some((FloatTok(dec.read(t)), |t|))
  {
    hide DigitRun, Front, IntEnd;
    var t := sign + whole + ("." + frac);
    var s, n, more := t + rest, |sign + whole|, "." + frac + rest;
    assert s == sign + (whole + more) && s[..|t|] == t && s[0] == t[0];
    IntEndIs(sign, whole, more);
    DigitRunIs(frac, rest);
    assert s[n + 1..] == frac + rest;
    assert s[n] == '.' && s[n + 1] == frac[0];
    assert t[|sign|] == whole[0];
    NumberFront(dec, t, rest, FloatTok(dec.read(t)));
  }

  lemma LexDecimal(dec: Decimals, t: string)
    requires IsDecimal(t)
    ensures Lexes(dec, t, [FloatTok(dec.read(t))], 2)
  {
    hide IsDecimal, Front;
    var sign, whole, frac := DecimalParts(t);
    assert t[|sign|] == whole[0];
    forall rest | Stops(2, rest) ensures Front(dec, t + rest) == Some((FloatTok(dec.read(t)), |t|)) {
      DecimalFront(dec, sign, whole, frac, rest);
    }
    FrontLexes(dec, t, FloatTok(dec.read(t)), 2);
  }

  // ---- strings ----

  lemma {:induction false} QuotedEnds(s: string, rest: string)
    requires rest == "" || rest[0] != '\''
    ensures StringEnd(Quoted(s) + "'" + rest) == Some((s, |Quoted(s)| + 1))
  {
    var t := Quoted(s) + "'" + rest;
    if s == "" {
      assert t == "'" + rest;
    } else {
      var more := Quoted(s[1..]) + "'" + rest;
      QuotedEnds(s[1..], rest);
      assert s == [s[0]] + s[1..];
      if s[0] == '\'' {
        assert t == "''" + more;
        assert t[2..] == more;
      } else {
        assert t == [s[0]] + more;
        assert t[1..] == more;
      }
    }
  }

  lemma {:induction false} LexQuoted(dec: Decimals, s: string)
    ensures Lexes(dec, "'" + Quoted(s) + "'", [StrTok(s)], 2)
  {
    var t := "'" + Quoted(s) + "'";
    forall rest | Stops(2, rest) ensures Front(dec, t + rest) == Some((StrTok(s), |t|)) {
      QuotedEnds(s, rest);
      assert (t + rest)[1..] == Quoted(s) + "'" + rest && (t + rest)[0] == '\'';
    }
    FrontLexes(dec, t, StrTok(s), 2);
  }

  lemma LexLiteral(dec: Decimals, l: Literal)
    requires LiteralOk(dec, l) && Faithful(dec)
    ensures Lexes(dec, LiteralSql(dec, l), LiteralTokens(l), 2)
  {
    hide Lexes;
    match l
    case NullLit => LexKey(dec, NULL); Weaken(dec, "NULL", [Kw(NULL)], 1, 2);
    case BoolLit(b) =>
      var k := if b then TRUE else FALSE;
      LexKey(dec, k);
      Weaken(dec, Spelling(k), [Kw(k)], 1, 2);
    case TextLit(s) => LexQuoted(dec, s);
    case DecimalLit(d) =>
      var t :| IsDecimal(t) && dec.read(t) == d;
      LexDecimal(dec, dec.show(d));
    case IntLit(v) => LexInt(dec, v);
  }

  // ---- what statements are made of ----

  lemma LexNothing(dec: Decimals, level: nat) ensures Lexes(dec, "", [], level) {
    forall rest | Stops(level, rest) ensures Lex(dec, "" + rest) == Then([], Lex(dec, rest)) {
      assert "" + rest == rest;
      ThenNone(Lex(dec, rest));
    }
  }

  /** A keyword between blanks. */
  lemma LexSpaced(dec: Decimals, k: Key)
    ensures Lexes(dec, " " + Spelling(k) + " ", [Kw(k)], 0)
    ensures Lexes(dec, " " + Spelling(k), [Kw(k)], 1)
    ensures Lexes(dec, Spelling(k) + " ", [Kw(k)], 0)
  {
    hide Lexes, Spelling;
    LexBlank(dec);
    LexKey(dec, k);
    Glue(dec, " ", [], 0, Spelling(k), [Kw(k)], 1);
    Glue(dec, " " + Spelling(k), [] + [Kw(k)], 1, " ", [], 0);
    Glue(dec, Spelling(k), [Kw(k)], 1, " ", [], 0);
    assert [] + [Kw(k)] == [Kw(k)] && [Kw(k)] + [] == [Kw(k)];
  }

  lemma LexComma(dec: Decimals)
    ensures Lexes(dec, ", ", [Sym(Comma)], 0)
  {
    hide Lexes;
    LexMark(dec, Comma);
    LexBlank(dec);
    Glue(dec, ",", [Sym(Comma)], 0, " ", [], 0);
    assert "," + " " == ", " && [Sym(Comma)] + [] == [Sym(Comma)];
  }

  lemma LexRef(dec: Decimals, r: ColumnRef)
    requires RefOk(r)
    ensures Lexes(dec, ColumnRefSql(r), RefTokens(r), 1)
  {
    hide Lexes, IsIdent;
    LexIdent(dec, r.column);
    if r.table != "" {
      LexIdent(dec, r.table);
      LexMark(dec, Dot);
      Glue(dec, r.table, [Ident(r.table)], 1, ".", [Sym(Dot)], 0);
      Glue(dec, r.table + ".", [Ident(r.table)] + [Sym(Dot)], 0, r.column, [Ident(r.column)], 1);
      assert [Ident(r.table)] + [Sym(Dot)] + [Ident(r.column)] == RefTokens(r);
    }
  }

  lemma LexValue(dec: Decimals, v: Value)
    requires ValueOk(v)
    ensures Lexes(dec, ValueSql(v), ValueTokens(v), 1)
  {
    hide Lexes, IsIdent;
    if v.func == Plain {
      LexRef(dec, v.ref);
    } else {
      var name, arg := AggName(v.func), if v.star then "*" else ColumnRefSql(v.ref);
      var args := if v.star then [Sym(Star)] else RefTokens(v.ref);
      LexAgg(dec, v.func);
      LexMark(dec, LParen);
      LexMark(dec, RParen);
      if v.star { LexMark(dec, Star); Weaken(dec, "*", [Sym(Star)], 0, 1); } else { LexRef(dec, v.ref); }
      Glue(dec, name, [Ident(name)], 1, "(", [Sym(LParen)], 0);
      Glue(dec, name + "(", [Ident(name)] + [Sym(LParen)], 0, arg, args, 1);
      Glue(dec, name + "(" + arg, [Ident(name)] + [Sym(LParen)] + args, 1, ")", [Sym(RParen)], 0);
      Weaken(dec, name + "(" + arg + ")", [Ident(name)] + [Sym(LParen)] + args + [Sym(RParen)], 0, 1);
      assert [Ident(name)] + [Sym(LParen)] == [Ident(name), Sym(LParen)];
    }
  }

  lemma LexOperand(dec: Decimals, o: Operand)
    requires OperandOk(dec, o) && Faithful(dec)
    ensures Lexes(dec, OperandSql(dec, o), OperandTokens(o), 2)
  {
    hide Lexes;
    match o
    case ColumnOperand(r) => LexRef(dec, r); Weaken(dec, ColumnRefSql(r), RefTokens(r), 1, 2);
    case LiteralOperand(l) => LexLiteral(dec, l);
  }

  lemma LexComparison(dec: Decimals, c: Comparison)
    requires ComparisonOk(dec, c) && Faithful(dec)
    ensures Lexes(dec, ComparisonSql(dec, c), ComparisonTokens(c), 2)
  {
    hide Lexes, ValueSql, OperandSql, ValueTokens, OperandTokens, OpSymbol;
    var v, vt, op, ot, o, rt := ValueSql(c.left), ValueTokens(c.left), OpSymbol(c.op), [Sym(Cmp(c.op))],
      OperandSql(dec, c.right), OperandTokens(c.right);
    LexValue(dec, c.left);
    LexBlank(dec);
    LexMark(dec, Cmp(c.op));
    LexOperand(dec, c.right);
    Glue(dec, v, vt, 1, " ", [], 0);
    Glue(dec, v + " ", vt + [], 0, op, ot, 2);
    Glue(dec, v + " " + op, vt + [] + ot, 2, " ", [], 0);
    Glue(dec, v + " " + op + " ", vt + [] + ot + [], 0, o, rt, 2);
    assert vt + [] + ot + [] + rt == vt + ot + rt;
  }

  lemma {:induction false} LexCondition(dec: Decimals, terms: seq<Comparison>)
    requires TermsOk(dec, terms) && Faithful(dec)
    ensures Lexes(dec, ConditionSql(dec, terms), ConditionTokens(terms), 2)
  {
    hide Lexes, ComparisonSql, ComparisonTokens, ComparisonOk;
    if terms == [] {
      LexNothing(dec, 2);
    } else {
      LexComparison(dec, terms[0]);
      if |terms| > 1 {
        var a, ta := ComparisonSql(dec, terms[0]), ComparisonTokens(terms[0]);
        var b, tb := ConditionSql(dec, terms[1..]), ConditionTokens(terms[1..]);
        LexCondition(dec, terms[1..]);
        LexSpaced(dec, AND);
        assert " AND " == " " + Spelling(AND) + " ";
        Glue(dec, a, ta, 2, " AND ", [Kw(AND)], 0);
        Glue(dec, a + " AND ", ta + [Kw(AND)], 0, b, tb, 2);
      }
    }
  }

  /** One more element of a list, after a comma. */
  lemma LexListed(dec: Decimals, a: string, ta: seq<Token>, b: string, tb: seq<Token>)
    requires Lexes(dec, a, ta, 2) && Lexes(dec, b, tb, 2)
    ensures Lexes(dec, a + ", " + b, ta + [Sym(Comma)] + tb, 2)
  {
    hide Lexes;
    LexComma(dec);
    Glue(dec, a, ta, 2, ", ", [Sym(Comma)], 0);
    Glue(dec, a + ", ", ta + [Sym(Comma)], 0, b, tb, 2);
  }

  lemma {:induction false} LexList<T>(dec: Decimals, sql: T -> string, spell: T -> seq<Token>, es: seq<T>)
    requires forall i | 0 <= i < |es| :: Lexes(dec, sql(es[i]), spell(es[i]), 2)
    ensures Lexes(dec, CommaSql(sql, es), CommaTokens(spell, es), 2)
  {
    hide Lexes;
    if es == [] {
      LexNothing(dec, 2);
    } else if |es| > 1 {
      LexList(dec, sql, spell, es[1..]);
      LexListed(dec, sql(es[0]), spell(es[0]), CommaSql(sql, es[1..]), CommaTokens(spell, es[1..]));
    }
  }

  lemma LexTableRef(dec: Decimals, t: TableRef)
    requires TableRefOk(t)
    ensures Lexes(dec, TableRefSql(t), TableRefTokens(t), 1)
  {
    hide Lexes, IsIdent;
    LexIdent(dec, t.name);
    if t.alias != "" {
      LexIdent(dec, t.alias);
      LexBlank(dec);
      Glue(dec, t.name, [Ident(t.name)], 1, " ", [], 0);
      Glue(dec, t.name + " ", [Ident(t.name)] + [], 0, t.alias, [Ident(t.alias)], 1);
      assert [Ident(t.name)] + [] + [Ident(t.alias)] == TableRefTokens(t);
    }
  }

  lemma LexColumn(dec: Decimals, c: Column)
    requires ColumnOk(c)
    ensures Lexes(dec, ColumnSql(c), ColumnTokens(c), 2)
  {
    hide Lexes, IsIdent;
    var k := match c.ctype case Int64 => INT64 case Int32 => INT32 case Bool => BOOL case _ => TEXT;
    LexIdent(dec, c.name);
    LexSpaced(dec, k);
    var a, ta := c.name + (" " + Spelling(k)), [Ident(c.name)] + [Kw(k)];
    Glue(dec, c.name, [Ident(c.name)], 1, " " + Spelling(k), [Kw(k)], 1);
    Weaken(dec, a, ta, 1, 2);
    assert a == c.name + " " + TypeKey(c.ctype) && ta == [Ident(c.name)] + TypeTokens(c.ctype);
    if c.nullable {
      assert a == ColumnSql(c) && ta == ColumnTokens(c);
    } else {
      LexSpaced(dec, NOT);
      LexSpaced(dec, NULL);
      assert " NOT" == " " + Spelling(NOT) && " NULL" == " " + Spelling(NULL);
      Glue(dec, " NOT", [Kw(NOT)], 1, " NULL", [Kw(NULL)], 1);
      Glue(dec, a, ta, 2, " NOT" + " NULL", [Kw(NOT)] + [Kw(NULL)], 1);
      Weaken(dec, a + (" NOT" + " NULL"), ta + ([Kw(NOT)] + [Kw(NULL)]), 1, 2);
      assert a + (" NOT" + " NULL") == ColumnSql(c) && ta + ([Kw(NOT)] + [Kw(NULL)]) == ColumnTokens(c);
    }
  }

  lemma LexItem(dec: Decimals, i: Item)
    requires ItemOk(i)
    ensures Lexes(dec, ItemSql(i), ItemTokens(i), 2)
  {
    hide Lexes, IsIdent, ValueSql, ValueTokens;
    var v, vt := ValueSql(i.value), ValueTokens(i.value);
    LexValue(dec, i.value);
    Weaken(dec, v, vt, 1, 2);
    if i.alias != "" {
      LexIdent(dec, i.alias);
      LexSpaced(dec, AS);
      assert " AS " == " " + Spelling(AS) + " ";
      Glue(dec, v, vt, 2, " AS ", [Kw(AS)], 0);
      Glue(dec, v + " AS ", vt + [Kw(AS)], 0, i.alias, [Ident(i.alias)], 1);
      Weaken(dec, v + " AS " + i.alias, vt + [Kw(AS)] + [Ident(i.alias)], 1, 2);
      assert vt + [Kw(AS)] + [Ident(i.alias)] == vt + [Kw(AS), Ident(i.alias)];
    }
  }

  lemma LexOrderItem(dec: Decimals, o: OrderItem)
    requires ValueOk(o.value)
    ensures Lexes(dec, OrderItemSql(o), OrderItemTokens(o), 2)
  {
    hide Lexes, ValueSql, ValueTokens, ValueOk;
    var v, vt := ValueSql(o.value), ValueTokens(o.value);
    LexValue(dec, o.value);
    Weaken(dec, v, vt, 1, 2);
    if o.desc {
      LexSpaced(dec, DESC);
      assert " DESC" == " " + Spelling(DESC);
      Glue(dec, v, vt, 2, " DESC", [Kw(DESC)], 1);
      Weaken(dec, v + " DESC", vt + [Kw(DESC)], 1, 2);
    } else {
      assert vt + [] == vt;
    }
  }

  lemma LexJoin(dec: Decimals, j: JoinClause)
    requires JoinOk(dec, j) && Faithful(dec)
    ensures Lexes(dec, JoinSql(dec, j), JoinTokens(j), 2)
  {
    hide Lexes, TableRefSql, TableRefTokens, ConditionSql, ConditionTokens, TermsOk, TableRefOk;
    var t, tt, c, ct := TableRefSql(j.table), TableRefTokens(j.table), ConditionSql(dec, j.on), ConditionTokens(j.on);
    LexSpaced(dec, JOIN);
    LexSpaced(dec, ON);
    LexTableRef(dec, j.table);
    LexCondition(dec, j.on);
    assert " JOIN " == " " + Spelling(JOIN) + " " && " ON " == " " + Spelling(ON) + " ";
    Glue(dec, " JOIN ", [Kw(JOIN)], 0, t, tt, 1);
    Glue(dec, " JOIN " + t, [Kw(JOIN)] + tt, 1, " ON ", [Kw(ON)], 0);
    Glue(dec, " JOIN " + t + " ON ", [Kw(JOIN)] + tt + [Kw(ON)], 0, c, ct, 2);
    assert [] + [Kw(JOIN)] + tt + [Kw(ON)] + ct == [Kw(JOIN)] + tt + [Kw(ON)] + ct;
  }

  lemma {:induction false} LexJoins(dec: Decimals, js: seq<JoinClause>)
    requires (forall i | 0 <= i < |js| :: JoinOk(dec, js[i])) && Faithful(dec)
    ensures Lexes(dec, JoinsSql(dec, js), JoinsTokens(js), 2)
    ensures JoinsSql(dec, js) == "" || JoinsSql(dec, js)[0] == ' '
  {
    hide Lexes, JoinTokens, JoinOk;
    if js == [] {
      LexNothing(dec, 2);
    } else {
      LexJoin(dec, js[0]);
      LexJoins(dec, js[1..]);
      JoinOpens(dec, js[0]);
      Glue(dec, JoinSql(dec, js[0]), JoinTokens(js[0]), 2, JoinsSql(dec, js[1..]), JoinsTokens(js[1..]), 2);
    }
  }

  lemma JoinOpens(dec: Decimals, j: JoinClause)
    ensures JoinSql(dec, j) != "" && JoinSql(dec, j)[0] == ' '
  {
    var rest := TableRefSql(j.table) + " ON " + ConditionSql(dec, j.on);
    assert JoinSql(dec, j) == " JOIN " + rest;
  }

  /** A clause, if there is one: its words, and what they introduce. */
  lemma LexClause(dec: Decimals, words: string, wt: seq<Token>, text: string, toks: seq<Token>)
    requires Lexes(dec, words, wt, 0) && Lexes(dec, text, toks, 2) && words != "" && words[0] == ' '
    ensures Lexes(dec, words + text, wt + toks, 2) && words + text != "" && (words + text)[0] == ' '
  {
    hide Lexes;
    Glue(dec, words, wt, 0, text, toks, 2);
  }

  /** Two words that introduce a clause. */
  lemma LexWords(dec: Decimals, a: Key, b: Key)
    ensures Lexes(dec, " " + Spelling(a) + (" " + Spelling(b) + " "), [Kw(a), Kw(b)], 0)
  {
    hide Lexes, Spelling;
    LexSpaced(dec, a);
    LexSpaced(dec, b);
    Glue(dec, " " + Spelling(a), [Kw(a)], 1, " " + Spelling(b) + " ", [Kw(b)], 0);
    assert [Kw(a)] + [Kw(b)] == [Kw(a), Kw(b)];
  }

  function WhereSql(dec: Decimals, terms: seq<Comparison>): string { if terms == [] then "" else " WHERE " + ConditionSql(dec, terms) }
  function GroupSql(refs: seq<ColumnRef>): string { if refs == [] then "" else " GROUP BY " + CommaSql(ColumnRefSql, refs) }
  function HavingSql(dec: Decimals, terms: seq<Comparison>): string { if terms == [] then "" else " HAVING " + ConditionSql(dec, terms) }
  function OrderBySql(os: seq<OrderItem>): string { if os == [] then "" else " ORDER BY " + CommaSql(OrderItemSql, os) }
  function LimitSql(limit: Option<int>): string { match limit case None => "" case Some(n) => " LIMIT " + IntText(n) }

  /** A clause that is there or is not. */
  ghost predicate Clause(dec: Decimals, text: string, toks: seq<Token>) {
    Lexes(dec, text, toks, 2) && (text == "" || text[0] == ' ')
  }

  lemma LexWhere(dec: Decimals, terms: seq<Comparison>)
    requires TermsOk(dec, terms) && Faithful(dec)
    ensures Clause(dec, WhereSql(dec, terms), WhereTokens(terms)) && Clause(dec, HavingSql(dec, terms), HavingTokens(terms))
  {
    hide Lexes, ConditionSql, ConditionTokens, TermsOk;
    LexNothing(dec, 2);
    LexCondition(dec, terms);
    LexSpaced(dec, WHERE);
    LexSpaced(dec, HAVING);
    assert " WHERE " == " " + Spelling(WHERE) + " " && " HAVING " == " " + Spelling(HAVING) + " ";
    LexClause(dec, " WHERE ", [Kw(WHERE)], ConditionSql(dec, terms), ConditionTokens(terms));
    LexClause(dec, " HAVING ", [Kw(HAVING)], ConditionSql(dec, terms), ConditionTokens(terms));
  }

  lemma LexGroup(dec: Decimals, refs: seq<ColumnRef>)
    requires forall i | 0 <= i < |refs| :: RefOk(refs[i])
    ensures Clause(dec, GroupSql(refs), GroupTokens(refs))
  {
    hide Lexes, CommaSql, CommaTokens, RefOk;
    LexNothing(dec, 2);
    forall i | 0 <= i < |refs| ensures Lexes(dec, ColumnRefSql(refs[i]), RefTokens(refs[i]), 2) {
      LexRef(dec, refs[i]);
      Weaken(dec, ColumnRefSql(refs[i]), RefTokens(refs[i]), 1, 2);
    }
    LexList(dec, ColumnRefSql, RefTokens, refs);
    LexWords(dec, GROUP, BY);
    assert " GROUP BY " == " " + Spelling(GROUP) + (" " + Spelling(BY) + " ");
    LexClause(dec, " GROUP BY ", [Kw(GROUP), Kw(BY)], CommaSql(ColumnRefSql, refs), CommaTokens(RefTokens, refs));
  }

  lemma LexOrderBy(dec: Decimals, os: seq<OrderItem>)
    requires forall i | 0 <= i < |os| :: ValueOk(os[i].value)
    ensures Clause(dec, OrderBySql(os), OrderByTokens(os))
  {
    hide Lexes, CommaSql, CommaTokens, ValueOk;
    LexNothing(dec, 2);
    forall i | 0 <= i < |os| ensures Lexes(dec, OrderItemSql(os[i]), OrderItemTokens(os[i]), 2) { LexOrderItem(dec, os[i]); }
    LexList(dec, OrderItemSql, OrderItemTokens, os);
    LexWords(dec, ORDER, BY);
    assert " ORDER BY " == " " + Spelling(ORDER) + (" " + Spelling(BY) + " ");
    LexClause(dec, " ORDER BY ", [Kw(ORDER), Kw(BY)], CommaSql(OrderItemSql, os), CommaTokens(OrderItemTokens, os));
  }

  lemma LexLimit(dec: Decimals, limit: Option<int>)
    requires limit.Some? ==> 0 <= limit.value <= INT64_MAX
    ensures Clause(dec, LimitSql(limit), LimitTokens(limit))
  {
    hide Lexes, IntText;
    LexNothing(dec, 2);
    LexSpaced(dec, LIMIT);
    assert " LIMIT " == " " + Spelling(LIMIT) + " ";
    if limit.Some? {
      LexInt(dec, limit.value);
      LexClause(dec, " LIMIT ", [Kw(LIMIT)], IntText(limit.value), [IntTok(limit.value)]);
      assert [Kw(LIMIT)] + [IntTok(limit.value)] == LimitTokens(limit);
    }
  }

  lemma AddClause(dec: Decimals, a: string, ta: seq<Token>, b: string, tb: seq<Token>)
    requires Lexes(dec, a, ta, 2) && Clause(dec, b, tb)
    ensures Lexes(dec, a + b, ta + tb, 2)
  {
    hide Lexes;
    Glue(dec, a, ta, 2, b, tb, 2);
  }

  lemma LexSelectHead(dec: Decimals, s: Select)
    requires SelectOk(dec, s)
    ensures Lexes(dec, "SELECT " + (if s.star then "*" else CommaSql(ItemSql, s.columns)) + " FROM " + TableRefSql(s.from),
                  [Kw(SELECT)] + (if s.star then [Sym(Star)] else CommaTokens(ItemTokens, s.columns)) + [Kw(FROM)] + TableRefTokens(s.from), 2)
  {
    hide Lexes, CommaSql, CommaTokens, TableRefSql, TableRefTokens, ItemOk, JoinOk, TermsOk, ValueOk, RefOk, TableRefOk;
    var a, ta := if s.star then "*" else CommaSql(ItemSql, s.columns), if s.star then [Sym(Star)] else CommaTokens(ItemTokens, s.columns);
    var t, tt := TableRefSql(s.from), TableRefTokens(s.from);
    if s.star { LexMark(dec, Star); Weaken(dec, "*", [Sym(Star)], 0, 2); } else {
      forall i | 0 <= i < |s.columns| ensures Lexes(dec, ItemSql(s.columns[i]), ItemTokens(s.columns[i]), 2) { LexItem(dec, s.columns[i]); }
      LexList(dec, ItemSql, ItemTokens, s.columns);
    }
    LexSpaced(dec, SELECT);
    LexSpaced(dec, FROM);
    LexTableRef(dec, s.from);
    assert "SELECT " == Spelling(SELECT) + " " && " FROM " == " " + Spelling(FROM) + " ";
    Glue(dec, "SELECT ", [Kw(SELECT)], 0, a, ta, 2);
    Glue(dec, "SELECT " + a, [Kw(SELECT)] + ta, 2, " FROM ", [Kw(FROM)], 0);
    Glue(dec, "SELECT " + a + " FROM ", [Kw(SELECT)] + ta + [Kw(FROM)], 0, t, tt, 1);
    Weaken(dec, "SELECT " + a + " FROM " + t, [Kw(SELECT)] + ta + [Kw(FROM)] + tt, 1, 2);
  }

  lemma LexSelect(dec: Decimals, s: Select)
    requires SelectOk(dec, s) && Faithful(dec)
    ensures Lexes(dec, SelectSql(dec, s), SelectTokens(s), 2)
  {
    hide Lexes, Clause, CommaSql, CommaTokens, TableRefSql, TableRefTokens, JoinsSql, JoinsTokens, ConditionSql,
         ConditionTokens, IntText, WhereTokens, GroupTokens, HavingTokens,
         OrderByTokens, LimitTokens, ItemOk, JoinOk, TermsOk, ValueOk, RefOk, TableRefOk;
    LexSelectHead(dec, s);
    LexJoinsClause(dec, s.joins);
    LexWhere(dec, s.where_);
    LexGroup(dec, s.groupBy);
    LexWhere(dec, s.having);
    LexOrderBy(dec, s.orderBy);
    LexLimit(dec, s.limit);
    var a := "SELECT " + (if s.star then "*" else CommaSql(ItemSql, s.columns)) + " FROM " + TableRefSql(s.from);
    var ta := [Kw(SELECT)] + (if s.star then [Sym(Star)] else CommaTokens(ItemTokens, s.columns)) + [Kw(FROM)] + TableRefTokens(s.from);
    AddClause(dec, a, ta, JoinsSql(dec, s.joins), JoinsTokens(s.joins));
    var b, tb := a + JoinsSql(dec, s.joins), ta + JoinsTokens(s.joins);
    AddClause(dec, b, tb, WhereSql(dec, s.where_), WhereTokens(s.where_));
    var c, tc := b + WhereSql(dec, s.where_), tb + WhereTokens(s.where_);
    AddClause(dec, c, tc, GroupSql(s.groupBy), GroupTokens(s.groupBy));
    var d, td := c + GroupSql(s.groupBy), tc + GroupTokens(s.groupBy);
    AddClause(dec, d, td, HavingSql(dec, s.having), HavingTokens(s.having));
    var e, te := d + HavingSql(dec, s.having), td + HavingTokens(s.having);
    AddClause(dec, e, te, OrderBySql(s.orderBy), OrderByTokens(s.orderBy));
    var f, tf := e + OrderBySql(s.orderBy), te + OrderByTokens(s.orderBy);
    AddClause(dec, f, tf, LimitSql(s.limit), LimitTokens(s.limit));
  }

  lemma {:induction false} LexJoinsClause(dec: Decimals, js: seq<JoinClause>)
    requires (forall i | 0 <= i < |js| :: JoinOk(dec, js[i])) && Faithful(dec)
    ensures Clause(dec, JoinsSql(dec, js), JoinsTokens(js))
  {
    LexJoins(dec, js);
  }

  /** A parenthesised list after a name. */
  lemma LexParens(dec: Decimals, a: string, ta: seq<Token>, list: string, tl: seq<Token>)
    requires Lexes(dec, a, ta, 0) && Lexes(dec, list, tl, 2)
    ensures Lexes(dec, a + "(" + list + ")", ta + [Sym(LParen)] + tl + [Sym(RParen)], 2)
  {
    hide Lexes;
    LexMark(dec, LParen);
    LexMark(dec, RParen);
    Glue(dec, a, ta, 0, "(", [Sym(LParen)], 0);
    Glue(dec, a + "(", ta + [Sym(LParen)], 0, list, tl, 2);
    Glue(dec, a + "(" + list, ta + [Sym(LParen)] + tl, 2, ")", [Sym(RParen)], 0);
    Weaken(dec, a + "(" + list + ")", ta + [Sym(LParen)] + tl + [Sym(RParen)], 0, 2);
  }

  /** Words, a name, and a blank. */
  lemma LexNamed(dec: Decimals, words: string, wt: seq<Token>, name: string)
    requires Lexes(dec, words, wt, 0) && IsIdent(name)
    ensures Lexes(dec, words + name + " ", wt + [Ident(name)], 0)
  {
    hide Lexes, IsIdent;
    LexIdent(dec, name);
    LexBlank(dec);
    Glue(dec, words, wt, 0, name, [Ident(name)], 1);
    Glue(dec, words + name, wt + [Ident(name)], 1, " ", [], 0);
    assert wt + [Ident(name)] + [] == wt + [Ident(name)];
  }

  /** Two words to open with. */
  lemma LexOpening(dec: Decimals, a: Key, b: Key)
    ensures Lexes(dec, Spelling(a) + " " + (Spelling(b) + " "), [Kw(a), Kw(b)], 0)
  {
    hide Lexes, Spelling;
    LexSpaced(dec, a);
    LexSpaced(dec, b);
    Glue(dec, Spelling(a) + " ", [Kw(a)], 0, Spelling(b) + " ", [Kw(b)], 0);
    assert [Kw(a)] + [Kw(b)] == [Kw(a), Kw(b)];
  }

  lemma {:induction false} LexCreate(dec: Decimals, t: string, cs: seq<Column>)
    requires IsIdent(t) && forall i | 0 <= i < |cs| :: ColumnOk(cs[i])
    ensures Lexes(dec, "CREATE TABLE " + t + " (" + CommaSql(ColumnSql, cs) + ")",
                  [Kw(CREATE), Kw(TABLE), Ident(t), Sym(LParen)] + CommaTokens(ColumnTokens, cs) + [Sym(RParen)], 2)
  {
    hide Lexes, IsIdent, CommaSql, CommaTokens, ColumnOk;
    LexOpening(dec, CREATE, TABLE);
    assert "CREATE TABLE " == Spelling(CREATE) + " " + (Spelling(TABLE) + " ");
    LexNamed(dec, "CREATE TABLE ", [Kw(CREATE), Kw(TABLE)], t);
    forall i | 0 <= i < |cs| ensures Lexes(dec, ColumnSql(cs[i]), ColumnTokens(cs[i]), 2) { LexColumn(dec, cs[i]); }
    LexList(dec, ColumnSql, ColumnTokens, cs);
    LexParens(dec, "CREATE TABLE " + t + " ", [Kw(CREATE), Kw(TABLE)] + [Ident(t)], CommaSql(ColumnSql, cs), CommaTokens(ColumnTokens, cs));
    assert "CREATE TABLE " + t + " " + "(" == "CREATE TABLE " + t + " (";
    assert [Kw(CREATE), Kw(TABLE)] + [Ident(t)] + [Sym(LParen)] == [Kw(CREATE), Kw(TABLE), Ident(t), Sym(LParen)];
  }

  lemma LexCreateIndex(dec: Decimals, t: string, c: string)
    requires IsIdent(t) && IsIdent(c)
    ensures Lexes(dec, "CREATE INDEX ON " + t + " (" + c + ")",
                  [Kw(CREATE), Kw(INDEX), Kw(ON), Ident(t), Sym(LParen), Ident(c), Sym(RParen)], 2)
  {
    hide Lexes, IsIdent;
    LexOpening(dec, CREATE, INDEX);
    LexSpaced(dec, ON);
    var words := "CREATE INDEX ";
    assert words == Spelling(CREATE) + " " + (Spelling(INDEX) + " ") && "ON " == Spelling(ON) + " ";
    Glue(dec, words, [Kw(CREATE), Kw(INDEX)], 0, "ON ", [Kw(ON)], 0);
    assert words + "ON " == "CREATE INDEX ON " && [Kw(CREATE), Kw(INDEX)] + [Kw(ON)] == [Kw(CREATE), Kw(INDEX), Kw(ON)];
    LexNamed(dec, "CREATE INDEX ON ", [Kw(CREATE), Kw(INDEX), Kw(ON)], t);
    LexIdent(dec, c);
    Weaken(dec, c, [Ident(c)], 1, 2);
    LexParens(dec, "CREATE INDEX ON " + t + " ", [Kw(CREATE), Kw(INDEX), Kw(ON)] + [Ident(t)], c, [Ident(c)]);
    assert "CREATE INDEX ON " + t + " " + "(" == "CREATE INDEX ON " + t + " (";
    assert [Kw(CREATE), Kw(INDEX), Kw(ON)] + [Ident(t)] + [Sym(LParen)] + [Ident(c)] + [Sym(RParen)] ==
           [Kw(CREATE), Kw(INDEX), Kw(ON), Ident(t), Sym(LParen), Ident(c), Sym(RParen)];
  }

  lemma {:induction false} LexInsert(dec: Decimals, t: string, vs: seq<Literal>)
    requires IsIdent(t) && (forall i | 0 <= i < |vs| :: LiteralOk(dec, vs[i])) && Faithful(dec)
    ensures Lexes(dec, "INSERT INTO " + t + " VALUES (" + CommaSql(LiteralText(dec), vs) + ")",
                  [Kw(INSERT), Kw(INTO), Ident(t), Kw(VALUES), Sym(LParen)] + CommaTokens(LiteralTokens, vs) + [Sym(RParen)], 2)
  {
    hide Lexes, IsIdent, CommaSql, CommaTokens, LiteralOk;
    LexOpening(dec, INSERT, INTO);
    assert "INSERT INTO " == Spelling(INSERT) + " " + (Spelling(INTO) + " ") && "VALUES " == Spelling(VALUES) + " ";
    LexNamed(dec, "INSERT INTO ", [Kw(INSERT), Kw(INTO)], t);
    LexSpaced(dec, VALUES);
    var a, ta := "INSERT INTO " + t + " ", [Kw(INSERT), Kw(INTO)] + [Ident(t)];
    Glue(dec, a, ta, 0, "VALUES ", [Kw(VALUES)], 0);
    forall i | 0 <= i < |vs| ensures Lexes(dec, LiteralText(dec)(vs[i]), LiteralTokens(vs[i]), 2) { LexLiteral(dec, vs[i]); }
    LexList(dec, LiteralText(dec), LiteralTokens, vs);
    LexParens(dec, a + "VALUES ", ta + [Kw(VALUES)], CommaSql(LiteralText(dec), vs), CommaTokens(LiteralTokens, vs));
    assert a + "VALUES " + "(" == "INSERT INTO " + t + " VALUES (";
    assert ta + [Kw(VALUES)] + [Sym(LParen)] == [Kw(INSERT), Kw(INTO), Ident(t), Kw(VALUES), Sym(LParen)];
  }

  lemma StatementLexes(dec: Decimals, s: Statement)
    requires StatementOk(dec, s) && Faithful(dec)
    ensures Lexes(dec, Unparse(dec, s), StatementTokens(s), 2)
  {
    hide Lexes, IsIdent, CommaSql, CommaTokens, ColumnOk, LiteralOk, SelectSql, SelectTokens, SelectOk;
    match s
    case CreateTable(t, cs) => LexCreate(dec, t, cs);
    case CreateIndex(t, c) => LexCreateIndex(dec, t, c);
    case Insert(t, vs) => LexInsert(dec, t, vs);
    case SelectStmt(q) => LexSelect(dec, q);
    case Begin => LexKey(dec, BEGIN); Weaken(dec, "BEGIN", [Kw(BEGIN)], 1, 2);
    case Commit => LexKey(dec, COMMIT); Weaken(dec, "COMMIT", [Kw(COMMIT)], 1, 2);
    case Rollback => LexKey(dec, ROLLBACK); Weaken(dec, "ROLLBACK", [Kw(ROLLBACK)], 1, 2);
  }

  /** A statement's text lexes to its tokens. */
  lemma {:induction false} UnparseLexes(dec: Decimals, s: Statement)
    requires StatementOk(dec, s) && Faithful(dec)
    ensures Lex(dec, Unparse(dec, s)) == Some(StatementTokens(s) + [End])
  {
    hide *;
    StatementLexes(dec, s);
    Whole(dec, Unparse(dec, s), StatementTokens(s));
  }

  /** A script's text lexes to its tokens. */
  lemma {:induction false} ScriptLexes(dec: Decimals, ss: seq<Statement>)
    requires Faithful(dec) && forall k | 0 <= k < |ss| :: StatementOk(dec, ss[k])
    ensures Lex(dec, ScriptSql(dec, ss)) == Some(ScriptTokens(ss) + [End])
  {
    hide *;
    StatementsLex(dec, ss);
    Weaken(dec, ScriptSql(dec, ss), ScriptTokens(ss), 0, 2);
    Whole(dec, ScriptSql(dec, ss), ScriptTokens(ss));
  }

  lemma {:induction false} StatementsLex(dec: Decimals, ss: seq<Statement>)
    requires Faithful(dec) && forall k | 0 <= k < |ss| :: StatementOk(dec, ss[k])
    ensures Lexes(dec, ScriptSql(dec, ss), ScriptTokens(ss), 0)
  {
    hide Lexes, Unparse, StatementTokens, StatementOk, Faithful;
    if ss == [] { LexNothing(dec, 0); return; }
    StatementsLex(dec, ss[1..]);
    StatementLexes(dec, ss[0]);
    LexMark(dec, Semicolon);
    LexBlank(dec);
    Glue(dec, ";", [Sym(Semicolon)], 0, " ", [], 0);
    assert ";" + " " == "; " && [Sym(Semicolon)] + [] == [Sym(Semicolon)];
    assert Stops(2, "; ") by { assert "; "[0] == ';'; }
    Glue(dec, Unparse(dec, ss[0]), StatementTokens(ss[0]), 2, "; ", [Sym(Semicolon)], 0);
    Glue(dec, Unparse(dec, ss[0]) + "; ", StatementTokens(ss[0]) + [Sym(Semicolon)], 0,
         ScriptSql(dec, ss[1..]), ScriptTokens(ss[1..]), 0);
  }

  lemma {:induction false} Whole(dec: Decimals, text: string, toks: seq<Token>)
    requires Lexes(dec, text, toks, 2)
    ensures Lex(dec, text) == Some(toks + [End])
  {
    assert Stops(2, "");
    assert text + "" == text;
    LexEnd(dec);
    hide Lex;
    assert Lex(dec, text + "") == Then(toks, Lex(dec, ""));
  }
}
