/** SQL text into tokens (src/lexer.hpp). */
module SqlLexer {
  import opened Wrappers
  import opened SqlTypes
  import opened SqlSyntax

  // ---- what the lexer computes ----

  /** How many characters from the front satisfy a test. */
  function WordRun(s: string): (n: nat)
    ensures n <= |s| && (forall i | 0 <= i < n :: IdentCont(s[i])) && (n < |s| ==> !IdentCont(s[n]))
  {
    if s == "" || !IdentCont(s[0]) then 0 else 1 + WordRun(s[1..])
  }

  function DigitRun(s: string): (n: nat)
    ensures n <= |s| && (forall i | 0 <= i < n :: Digit(s[i])) && (n < |s| ==> !Digit(s[n]))
  {
    if s == "" || !Digit(s[0]) then 0 else 1 + DigitRun(s[1..])
  }

  function DigitValue(c: char): nat { if Digit(c) then (c - '0') as nat else 0 }

  function NatValue(s: string): nat { if s == "" then 0 else 10 * NatValue(s[..|s| - 1]) + DigitValue(s[|s| - 1]) }

  function IntValue(s: string): int { if s != "" && s[0] == '-' then -(NatValue(s[1..]) as int) else NatValue(s) }

  function WordToken(w: string): Token { match KeyOf(Upper(w)) case Some(k) => Kw(k) case None => Ident(w) }

  /** The end of the integer part of a number, sign included. */
  function IntEnd(s: string): (n: nat)
    ensures n <= |s|
  {
    if s != "" && s[0] == '-' then 1 + DigitRun(s[1..]) else DigitRun(s)
  }

  /** A point followed by a digit makes it a decimal. */
  predicate Pointed(s: string, n: nat) { n + 1 < |s| && s[n] == '.' && Digit(s[n + 1]) }

  function NumberEnd(s: string): (n: nat)
    ensures n <= |s|
  {
    var n := IntEnd(s);
    if Pointed(s, n) then n + 1 + DigitRun(s[n + 1..]) else n
  }

  function NumberToken(dec: Decimals, s: string): Option<Token> {
    var t := s[..NumberEnd(s)];
    if Pointed(s, IntEnd(s)) then Some(FloatTok(dec.read(t)))
    else if INT64_MIN <= IntValue(t) <= INT64_MAX then Some(IntTok(IntValue(t))) else None
  }

  /** The value of a string whose opening quote has been read, and where it ends, past
      its closing quote: the first quote not doubled. */
  function StringEnd(s: string): (r: Option<(string, nat)>)
    ensures r.Some? ==> 0 < r.value.1 <= |s|
  {
    if s == "" then None
    else if s[0] == '\'' then
      if |s| > 1 && s[1] == '\'' then
        match StringEnd(s[2..])
        case None => None
        case Some((v, n)) => Some((['\''] + v, n + 2))
      else Some(("", 1))
    else
      match StringEnd(s[1..])
      case None => None
      case Some((v, n)) => Some(([s[0]] + v, n + 1))
  }

  function OperatorToken(s: string): Option<(Token, nat)>
    requires s != ""
  {
    var two := if |s| > 1 then s[1] else '\0';
    match s[0]
    case '(' => Some((Sym(LParen), 1))
    case ')' => Some((Sym(RParen), 1))
    case ',' => Some((Sym(Comma), 1))
    case '*' => Some((Sym(Star), 1))
    case ';' => Some((Sym(Semicolon), 1))
    case '.' => Some((Sym(Dot), 1))
    case '=' => Some((Sym(Cmp(Eq)), 1))
    case '<' => if two == '=' then Some((Sym(Cmp(Le)), 2)) else if two == '>' then Some((Sym(Cmp(Ne)), 2)) else Some((Sym(Cmp(Lt)), 1))
    case '>' => if two == '=' then Some((Sym(Cmp(Ge)), 2)) else Some((Sym(Cmp(Gt)), 1))
    case _ => None
  }

  /** The token at the front, and how long it is; None for an error. */
  function Front(dec: Decimals, s: string): (r: Option<(Token, nat)>)
    requires s != "" && !Space(s[0])
    ensures r.Some? ==> 0 < r.value.1 <= |s|
  {
    if IdentStart(s[0]) then var n := WordRun(s); Some((WordToken(s[..n]), n))
    else if Digit(s[0]) || (s[0] == '-' && |s| > 1 && Digit(s[1])) then
      match NumberToken(dec, s) case None => None case Some(t) => Some((t, NumberEnd(s)))
    else if s[0] == '\'' then
      match StringEnd(s[1..]) case None => None case Some((v, n)) => Some((StrTok(v), n + 1))
    else OperatorToken(s)
  }

  function Then(ts: seq<Token>, rest: Option<seq<Token>>): Option<seq<Token>> {
    match rest case None => None case Some(more) => Some(ts + more)
  }

  function Lex(dec: Decimals, s: string): Option<seq<Token>>
    decreases |s|
  {
    if s == "" then Some([End])
    else if Space(s[0]) then Lex(dec, s[1..])
    else
      match Front(dec, s)
      case None => None
      case Some((t, n)) => Then([t], Lex(dec, s[n..]))
  }

  // ---- the lexer ----

  class Lexer {
    const src: string
    const dec: Decimals
    var pos: nat

    ghost predicate Valid() reads this { pos <= |src| }

    ghost function Rest(): string reads this { if pos <= |src| then src[pos..] else "" }

    constructor (src: string, dec: Decimals)
      ensures this.src == src && this.dec == dec && Valid() && Rest() == src
    {
      this.src, this.dec, pos := src, dec, 0;
    }

    function Peek(): char reads this { if pos < |src| then src[pos] else '\0' }
    function Peek2(): char reads this { if pos + 1 < |src| then src[pos + 1] else '\0' }
    predicate Done() reads this { pos >= |src| }

    method SkipSpace()
      requires Valid()
      modifies this
      ensures Valid() && Lex(dec, Rest()) == Lex(dec, old(Rest())) && (Rest() == "" || !Space(Rest()[0]))
      ensures |Rest()| <= old(|Rest()|)
    {
      hide Front, Then;
      while !Done() && Space(Peek())
        invariant Valid() && Lex(dec, Rest()) == Lex(dec, old(Rest())) && |Rest()| <= old(|Rest()|)
        decreases |src| - pos
      {
        assert Rest()[1..] == src[pos + 1..];
        pos := pos + 1;
      }
    }

    /** Past the characters of a word. */
    method SkipWord()
      requires Valid()
      modifies this
      ensures Valid() && pos == old(pos) + WordRun(old(Rest()))
    {
      ghost var start := pos;
      while !Done() && IdentCont(Peek())
        invariant Valid() && old(pos) <= pos && pos + WordRun(Rest()) == old(pos) + WordRun(old(Rest()))
        decreases |src| - pos
      {
        assert Rest()[1..] == src[pos + 1..];
        pos := pos + 1;
      }
    }

    method SkipDigits()
      requires Valid()
      modifies this
      ensures Valid() && pos == old(pos) + DigitRun(old(Rest()))
    {
      while !Done() && Digit(Peek())
        invariant Valid() && old(pos) <= pos && pos + DigitRun(Rest()) == old(pos) + DigitRun(old(Rest()))
        decreases |src| - pos
      {
        assert Rest()[1..] == src[pos + 1..];
        pos := pos + 1;
      }
    }

    /** The next token; None is an error. */
    method Next() returns (t: Option<Token>)
      requires Valid()
      modifies this
      ensures Valid()
      ensures t.None? ==> Lex(dec, old(Rest())) == None
      ensures t == Some(End) ==> Lex(dec, old(Rest())) == Some([End])
      ensures t.Some? && t.value != End ==>
                Lex(dec, old(Rest())) == Then([t.value], Lex(dec, Rest())) && |Rest()| < old(|Rest()|)
    {
      hide Front, Lex;
      SkipSpace();
      if Done() { LexEnd(dec); return Some(End); }
      ghost var rest, start := Rest(), pos;
      var c := Peek();
      if IdentStart(c) {
        t := LexWord();
      } else if Digit(c) || (c == '-' && Digit(Peek2())) {
        t := LexNumber();
      } else if c == '\'' {
        t := LexString();
      } else {
        t := LexOperator();
      }
      assert t.Some? ==> Rest() == rest[pos - start..];
      LexTook(dec, rest, t, pos - start);
    }

    ghost predicate AtToken() reads this { Valid() && Rest() != "" && !Space(Rest()[0]) }

    method LexWord() returns (t: Option<Token>)
      requires AtToken() && IdentStart(Rest()[0])
      modifies this
      ensures Valid() && Took(dec, old(Rest()), t, pos - old(pos))
    {
      var start := pos;
      SkipWord();
      assert src[start..][..pos - start] == src[start..pos];
      t := Some(WordToken(src[start..pos]));
    }

    method LexNumber() returns (t: Option<Token>)
      requires AtToken() && (Digit(Rest()[0]) || (Rest()[0] == '-' && |Rest()| > 1 && Digit(Rest()[1])))
      modifies this
      ensures Valid() && Took(dec, old(Rest()), t, pos - old(pos))
    {
      hide NumberToken, Front, Took, DigitRun, NumberEnd, IntEnd, Pointed;
      var start := pos;
      ghost var rest := Rest();
      var pointed := SkipNumber();
      assert rest[..pos - start] == src[start..pos];
      NumberIs(dec, rest);
      NumberTook(dec, rest);
      if pointed { return Some(FloatTok(dec.read(src[start..pos]))); }
      var v := ReadInt(src[start..pos]);
      if v < INT64_MIN || v > INT64_MAX { return None; }
      t := Some(IntTok(v));
    }

    /** Past a number; whether it has a point. */
    method SkipNumber() returns (pointed: bool)
      requires Valid()
      modifies this
      ensures Valid() && pos == old(pos) + NumberEnd(old(Rest())) && pointed == Pointed(old(Rest()), IntEnd(old(Rest())))
    {
      hide DigitRun;
      ghost var start, rest := pos, Rest();
      SkipInt();
      ghost var n := IntEnd(rest);
      pointed := Peek() == '.' && Digit(Peek2());
      if pointed {
        pos := pos + 1;
        assert Rest() == rest[n + 1..];
        SkipDigits();
      }
    }

    /** Past a sign, if there is one, and digits. */
    method SkipInt()
      requires Valid()
      modifies this
      ensures Valid() && pos == old(pos) + IntEnd(old(Rest())) && Rest() == old(Rest())[IntEnd(old(Rest()))..]
    {
      hide DigitRun;
      ghost var start, rest := pos, Rest();
      if Peek() == '-' { pos := pos + 1; assert Rest() == rest[1..]; }
      SkipDigits();
    }

    /** A quote followed by a quote is one quote of the value; one that is not closes
        the string. */
    method LexString() returns (t: Option<Token>)
      requires AtToken() && Rest()[0] == '\''
      modifies this
      ensures Valid() && Took(dec, old(Rest()), t, pos - old(pos))
    {
      hide StringFrom, StringEnd, Front, Took;
      ghost var start, rest := pos, Rest();
      StringTook(dec, rest);
      pos := pos + 1;
      assert Rest() == rest[1..];
      var value := "";
      StringStart(StringEnd(Rest()));
      while true
        invariant Valid() && start < pos && StringFrom(value, pos - start - 1, StringEnd(Rest())) == StringEnd(rest[1..])
        decreases |src| - pos
      {
        ghost var here := Rest();
        if Done() { StringClose(value, pos - start - 1, here); return None; }
        var c := Peek();
        pos := pos + 1;
        assert Rest() == here[1..];
        if c == '\'' {
          if !Done() && Peek() == '\'' {
            pos := pos + 1;
            assert Rest() == here[2..];
            StringEscape(value, pos - start - 3, here);
            value := value + "'";
          } else {
            StringClose(value, pos - start - 2, here);
            break;
          }
        } else {
          StringPlain(value, pos - start - 2, here);
          value := value + [c];
        }
      }
      t := Some(StrTok(value));
    }

    method LexOperator() returns (t: Option<Token>)
      requires AtToken() && !IdentStart(Rest()[0]) && !Digit(Rest()[0]) && Rest()[0] != '\''
      requires !(Rest()[0] == '-' && |Rest()| > 1 && Digit(Rest()[1]))
      modifies this
      ensures Valid() && Took(dec, old(Rest()), t, pos - old(pos))
    {
      var c := Peek();
      pos := pos + 1;
      match c
      case '(' => return Some(Sym(LParen));
      case ')' => return Some(Sym(RParen));
      case ',' => return Some(Sym(Comma));
      case '*' => return Some(Sym(Star));
      case ';' => return Some(Sym(Semicolon));
      case '.' => return Some(Sym(Dot));
      case '=' => return Some(Sym(Cmp(Eq)));
      case '<' =>
        if Peek() == '=' { pos := pos + 1; return Some(Sym(Cmp(Le))); }
        if Peek() == '>' { pos := pos + 1; return Some(Sym(Cmp(Ne))); }
        return Some(Sym(Cmp(Lt)));
      case '>' =>
        if Peek() == '=' { pos := pos + 1; return Some(Sym(Cmp(Ge))); }
        return Some(Sym(Cmp(Gt)));
      case _ => return None;
    }

    /** Every token to the end of the text; None is an error. */
    method Tokenize() returns (out: Option<seq<Token>>)
      requires Valid()
      modifies this
      ensures out == Lex(dec, old(Rest()))
    {
      hide Lex;
      var toks := [];
      ThenNone(Lex(dec, Rest()));
      while true
        invariant Valid() && Lex(dec, old(Rest())) == Then(toks, Lex(dec, Rest()))
        decreases |Rest()|
      {
        var t := Next();
        if t.None? { return None; }
        if t.value == End { return Some(toks + [End]); }
        ThenMore(toks, t.value, Lex(dec, Rest()));
        toks := toks + [t.value];
      }
    }
  }

  lemma ThenNone(rest: Option<seq<Token>>) ensures Then([], rest) == rest {
    if rest.Some? { assert [] + rest.value == rest.value; }
  }

  lemma ThenMore(ts: seq<Token>, t: Token, rest: Option<seq<Token>>)
    ensures Then(ts, Then([t], rest)) == Then(ts + [t], rest)
  {
    if rest.Some? { assert ts + ([t] + rest.value) == ts + [t] + rest.value; }
  }

  /** What reading the token at the front comes to. */
  ghost predicate Took(dec: Decimals, before: string, t: Option<Token>, n: int) {
    before != "" && !Space(before[0]) &&
    match Front(dec, before)
    case None => t == None
    case Some((tok, len)) => t == Some(tok) && n == len && tok != End
  }

  lemma {:induction false} LexEnd(dec: Decimals) ensures Lex(dec, "") == Some([End]) {}

  lemma {:induction false} LexTook(dec: Decimals, before: string, t: Option<Token>, n: int)
    requires Took(dec, before, t, n)
    ensures t.None? ==> Lex(dec, before) == None
    ensures t.Some? ==> 0 < n <= |before| && t.value != End && Lex(dec, before) == Then([t.value], Lex(dec, before[n..]))
  {
  }

  lemma NumberTook(dec: Decimals, s: string)
    requires s != "" && (Digit(s[0]) || (s[0] == '-' && |s| > 1 && Digit(s[1])))
    ensures Took(dec, s, NumberToken(dec, s), NumberEnd(s))
    ensures NumberToken(dec, s).None? ==> forall n :: Took(dec, s, None, n)
  {
    hide NumberEnd;
  }

  lemma StringTook(dec: Decimals, s: string)
    requires s != "" && s[0] == '\''
    ensures match StringEnd(s[1..])
            case None => forall n :: Took(dec, s, None, n)
            case Some((v, n)) => Took(dec, s, Some(StrTok(v)), n + 1)
  {
    hide StringEnd;
  }

  lemma NumberIs(dec: Decimals, s: string)
    ensures var t := s[..NumberEnd(s)];
            NumberToken(dec, s) == if Pointed(s, IntEnd(s)) then Some(FloatTok(dec.read(t)))
                                   else if INT64_MIN <= IntValue(t) <= INT64_MAX then Some(IntTok(IntValue(t))) else None
  {
  }

  lemma StringStart(rest: Option<(string, nat)>) ensures StringFrom("", 0, rest) == rest {
    if rest.Some? { assert "" + rest.value.0 == rest.value.0; }
  }

  /** One character of a string. */
  lemma {:induction false} StringPlain(value: string, n: nat, here: string)
    requires here != "" && here[0] != '\''
    ensures StringFrom(value, n, StringEnd(here)) == StringFrom(value + [here[0]], n + 1, StringEnd(here[1..]))
  {
    StringEndIs(here);
    StringStep(value, n, [here[0]], 1, StringEnd(here[1..]));
  }

  lemma {:induction false} StringEscape(value: string, n: nat, here: string)
    requires |here| > 1 && here[0] == '\'' && here[1] == '\''
    ensures StringFrom(value, n, StringEnd(here)) == StringFrom(value + "'", n + 2, StringEnd(here[2..]))
  {
    StringEndIs(here);
    StringStep(value, n, "'", 2, StringEnd(here[2..]));
  }

  lemma {:induction false} StringClose(value: string, n: nat, here: string)
    requires here == "" || (here[0] == '\'' && (|here| == 1 || here[1] != '\''))
    ensures StringFrom(value, n, StringEnd(here)) == if here == "" then None else Some((value, n + 1))
  {
    StringEndIs(here);
    StringStop(value, n);
  }

  lemma {:induction false} StringEndIs(here: string)
    ensures StringEnd(here) ==
            if here == "" then None
            else if here[0] != '\'' then StringFrom([here[0]], 1, StringEnd(here[1..]))
            else if |here| > 1 && here[1] == '\'' then StringFrom("'", 2, StringEnd(here[2..]))
            else Some(("", 1))
  {
  }

  lemma StringStop(value: string, n: nat)
    ensures StringFrom(value, n, None) == None && StringFrom(value, n, Some(("", 1))) == Some((value, n + 1))
  {
    assert value + "" == value;
  }

  method ReadInt(t: string) returns (v: int)
    ensures v == IntValue(t)
  {
    var negative := t != "" && t[0] == '-';
    var digits := if negative then t[1..] else t;
    var n := 0;
    for i := 0 to |digits|
      invariant n == NatValue(digits[..i])
    {
      assert digits[..i + 1][..i] == digits[..i];
      n := 10 * n + DigitValue(digits[i]);
    }
    assert digits[..|digits|] == digits;
    v := if negative then -n else n;
  }

  /** The rest of a string, of which `value` and `n` characters have been read. */
  function StringFrom(value: string, n: nat, rest: Option<(string, nat)>): Option<(string, nat)> {
    match rest case None => None case Some((v, m)) => Some((value + v, n + m))
  }

  lemma StringStep(value: string, n: nat, c: string, k: nat, rest: Option<(string, nat)>)
    ensures StringFrom(value + c, n + k, rest) == StringFrom(value, n, StringFrom(c, k, rest))
  {
    if rest.Some? { assert value + c + rest.value.0 == value + (c + rest.value.0); }
  }
}
