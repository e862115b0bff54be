/** What the lexer's tokens are, by the characters they are written with: a text is blanks
    and lexemes, each as long as it can be (src/lexer.hpp, src/token.hpp). */
module SqlLexemes {
  import opened Wrappers
  import opened SqlSyntax
  import opened SqlLexer
  import opened SqlText

  // ---- the lexemes ----

  predicate WordChar(c: char) { 'a' <= c <= 'z' || 'A' <= c <= 'Z' || '0' <= c <= '9' || c == '_' }

  predicate Blank(c: char) { c == ' ' || c == '\t' || c == '\r' || c == '\n' }

  predicate Word(w: string) { w != "" && !('0' <= w[0] <= '9') && forall i | 0 <= i < |w| :: WordChar(w[i]) }

  predicate Digits(w: string) { w != "" && forall i | 0 <= i < |w| :: '0' <= w[i] <= '9' }

  predicate Numeral(w: string, v: int) {
    INT64_MIN <= v <= INT64_MAX && if w != "" && w[0] == '-' then Digits(w[1..]) && v == -(NatValue(w[1..]) as int) else Digits(w) && v == NatValue(w)
  }

  function SymbolText(s: Symbol): string {
    match s
    case LParen => "(" case RParen => ")" case Comma => "," case Star => "*" case Semicolon => ";" case Dot => "."
    case Cmp(Eq) => "=" case Cmp(Ne) => "<>" case Cmp(Lt) => "<" case Cmp(Le) => "<=" case Cmp(Gt) => ">" case Cmp(Ge) => ">="
  }

  /** The characters are a token's: a keyword in any case, letter by letter; a name that is
      no keyword in any case; a number; a quoted string, its quotes doubled; a symbol. */
  ghost predicate Lexeme(dec: Decimals, w: string, t: Token) {
    match t
    case Kw(k) => AnyCase(w, Spelling(k))
    case Ident(name) => w == name && Word(w) && forall k: Key :: !AnyCase(w, Spelling(k))
    case IntTok(v) => Numeral(w, v)
    case FloatTok(d) => IsDecimal(w) && d == dec.read(w)
    case StrTok(s) => w == "'" + Quoted(s) + "'"
    case Sym(s) => w == SymbolText(s)
    case End => false
  }

  /** What follows does not make the lexeme longer. */
  predicate Whole(t: Token, rest: string) {
    rest == "" ||
    match t
    case Kw(_) => !WordChar(rest[0])
    case Ident(_) => !WordChar(rest[0])
    case IntTok(_) => !('0' <= rest[0] <= '9') && !(rest[0] == '.' && |rest| > 1 && '0' <= rest[1] <= '9')
    case FloatTok(_) => !('0' <= rest[0] <= '9')
    case StrTok(_) => rest[0] != '\''
    case Sym(Cmp(Lt)) => rest[0] != '=' && rest[0] != '>'
    case Sym(Cmp(Gt)) => rest[0] != '='
    case _ => true
  }

  /** The text is those tokens, with blanks before any of them. */
  ghost predicate Reads(dec: Decimals, s: string, ts: seq<Token>)
    decreases |ts|
  {
    ts != [] && exists i: nat, j: nat :: ReadsAt(dec, s, ts, i, j)
  }

  ghost predicate ReadsAt(dec: Decimals, s: string, ts: seq<Token>, i: nat, j: nat)
    requires ts != []
    decreases |ts|, 0
  {
    && i <= j <= |s| && (forall k | 0 <= k < i :: Blank(s[k]))
    && if |ts| == 1 then ts == [End] && i == |s|
       else Lexeme(dec, s[i..j], ts[0]) && Whole(ts[0], s[j..]) && Reads(dec, s[j..], ts[1..])
  }

  // ---- words ----

  lemma KeyPlain(k: Key)
    ensures forall i | 0 <= i < |Spelling(k)| :: !Lower(Spelling(k)[i])
  {
    hide Spelling;
    KeyLetters(k);
  }

  lemma KeyOfOnly(u: string)
    ensures KeyOf(u).Some? ==> u == Spelling(KeyOf(u).value)
  {
    hide KeyOf, Spelling;
    if |u| <= 3 { ThreeOnly(u); } else if |u| == 4 { FourOnly(u); } else if |u| == 5 { FiveOnly(u); } else { LongOnly(u); }
  }

  lemma ThreeOnly(u: string) requires |u| <= 3 ensures KeyOf(u).Some? ==> u == Spelling(KeyOf(u).value) {}
  lemma FourOnly(u: string) requires |u| == 4 ensures KeyOf(u).Some? ==> u == Spelling(KeyOf(u).value) {}
  lemma FiveOnly(u: string)
    requires |u| == 5
    ensures KeyOf(u).Some? ==> u == Spelling(KeyOf(u).value)
  {
    hide KeyOfI;
    if u[0] == 'I' { IOnly(u); }
  }

  lemma IOnly(u: string) requires |u| == 5 ensures KeyOfI(u).Some? ==> u == Spelling(KeyOfI(u).value) {}
  lemma LongOnly(u: string) requires |u| > 5 ensures KeyOf(u).Some? ==> u == Spelling(KeyOf(u).value) {}

  /** A word lexes to the keyword it is in some case, or else to itself. */
  lemma WordMeans(dec: Decimals, w: string, t: Token)
    ensures Word(w) && t == WordToken(w) ==> Lexeme(dec, w, t)
    ensures Lexeme(dec, w, t) && (t.Kw? || t.Ident?) ==> Word(w) && t == WordToken(w)
  {
    hide KeyOf, Spelling, Upper, Lower;
    forall k: Key ensures KeyOf(Upper(w)) == Some(k) <==> AnyCase(w, Spelling(k)) {
      KeyPlain(k);
      UpperMeans(w, Spelling(k));
      KeyWord(k);
      KeyOfOnly(Upper(w));
    }
    if t.Kw? && AnyCase(w, Spelling(t.key)) { CaseIsWord(w, t.key); }
  }

  lemma CaseIsWord(w: string, k: Key)
    requires AnyCase(w, Spelling(k))
    ensures Word(w)
  {
    hide Spelling;
    KeyLetters(k);
    assert SameLetter(w[0], Spelling(k)[0]);
    forall i | 0 <= i < |w| ensures WordChar(w[i]) { assert SameLetter(w[i], Spelling(k)[i]); }
  }

  /** Every word that is the keyword in some case, alone, lexes to it. */
  lemma {:induction false} KeywordAnyCase(dec: Decimals, w: string, k: Key)
    requires AnyCase(w, Spelling(k))
    ensures Lex(dec, w) == Some([Kw(k), End])
  {
    hide Spelling, WordToken, Front;
    WordMeans(dec, w, Kw(k));
    LexWordOf(dec, w);
    assert w + "" == w && Stops(1, "");
    LexEnd(dec);
    assert Lex(dec, w + "") == Then([WordToken(w)], Lex(dec, ""));
    assert [Kw(k)] + [End] == [Kw(k), End];
  }

  // ---- what is at the front ----

  lemma WordFront(dec: Decimals, w: string, t: Token, rest: string)
    requires Lexeme(dec, w, t) && (t.Kw? || t.Ident?) && Whole(t, rest)
    ensures w != "" && !Space(w[0]) && Front(dec, w + rest) == Some((t, |w|))
  {
    hide WordToken, Spelling, NumberToken, StringEnd, OperatorToken;
    WordMeans(dec, w, t);
    WordRunIs(w, rest);
    assert (w + rest)[..|w|] == w && (w + rest)[0] == w[0];
  }

  /** A sign, if there is one, and digits, and what follows. */
  lemma IntegerEnd(w: string, rest: string)
    requires w != "" && Digits(if w[0] == '-' then w[1..] else w) && (rest == "" || !Digit(rest[0]))
    ensures IntEnd(w + rest) == |w|
  {
    hide DigitRun;
    var sign, digits := if w[0] == '-' then "-" else "", if w[0] == '-' then w[1..] else w;
    assert w == sign + digits && w + rest == sign + (digits + rest);
    assert digits + rest != "" && (digits + rest)[0] == digits[0];
    IntEndIs(sign, digits, rest);
  }

  lemma IntegerFront(dec: Decimals, w: string, v: int, rest: string)
    requires Numeral(w, v) && Whole(IntTok(v), rest)
    ensures w != "" && !Space(w[0]) && Front(dec, w + rest) == Some((IntTok(v), |w|))
  {
    hide DigitRun, NatValue, Front, IntEnd;
    IntegerEnd(w, rest);
    var s := w + rest;
    assert s[..|w|] == w;
    if rest != "" { assert s[|w|] == rest[0]; }
    if |rest| > 1 { assert s[|w| + 1] == rest[1]; }
    if w[0] == '-' { assert w[1..][0] == w[1]; }
    NumberFront(dec, w, rest, IntTok(v));
  }

  lemma FloatFront(dec: Decimals, w: string, rest: string)
    requires IsDecimal(w) && Whole(FloatTok(dec.read(w)), rest)
    ensures w != "" && !Space(w[0]) && Front(dec, w + rest) == Some((FloatTok(dec.read(w)), |w|))
  {
    hide IsDecimal, Front;
    var sign, whole, frac := DecimalParts(w);
    DecimalFront(dec, sign, whole, frac, rest);
    assert w[|sign|] == whole[0];
    assert (w + rest)[0] == w[0];
  }

  lemma {:induction false} StringFront(dec: Decimals, v: string, rest: string)
    requires Whole(StrTok(v), rest)
    ensures Front(dec, "'" + Quoted(v) + "'" + rest) == Some((StrTok(v), |Quoted(v)| + 2))
  {
    var s := "'" + Quoted(v) + "'" + rest;
    QuotedEnds(v, rest);
    assert s[1..] == Quoted(v) + "'" + rest && s[0] == '\'';
  }

  lemma SymbolFront(dec: Decimals, m: Symbol, rest: string)
    requires Whole(Sym(m), rest)
    ensures var w := SymbolText(m); w != "" && !Space(w[0]) && Front(dec, w + rest) == Some((Sym(m), |w|))
  {
    var w := SymbolText(m);
    assert (w + rest)[0] == w[0];
    assert |w + rest| > 1 ==> (w + rest)[1] == if |w| > 1 then w[1] else rest[0];
  }

  /** A lexeme that what follows does not make longer is what the lexer takes. */
  lemma LexemeFront(dec: Decimals, w: string, t: Token, rest: string)
    requires Lexeme(dec, w, t) && Whole(t, rest)
    ensures w != "" && !Space(w[0]) && Front(dec, w + rest) == Some((t, |w|))
  {
    hide Front, Word, Numeral, IsDecimal, AnyCase, Spelling, Whole;
    match t
    case Kw(_) => WordFront(dec, w, t, rest);
    case Ident(_) => WordFront(dec, w, t, rest);
    case IntTok(v) => IntegerFront(dec, w, v, rest);
    case FloatTok(_) => FloatFront(dec, w, rest);
    case StrTok(v) => StringFront(dec, v, rest);
    case Sym(m) => SymbolFront(dec, m, rest);
  }

  // ---- and what the lexer takes is a lexeme ----

  lemma {:induction false} StringIs(s: string)
    ensures StringEnd(s).Some? ==>
              var (v, n) := StringEnd(s).value; n <= |s| && s[..n] == Quoted(v) + "'" && (n == |s| || s[n] != '\'')
    decreases |s|
  {
    if s != "" && s[0] == '\'' {
      if |s| > 1 && s[1] == '\'' {
        StringIs(s[2..]);
        if StringEnd(s[2..]).Some? { QuotedMore(s, 2, '\''); }
      } else {
        assert s[..1] == "'" && Quoted("") == "";
      }
    } else if s != "" {
      StringIs(s[1..]);
      if StringEnd(s[1..]).Some? { QuotedMore(s, 1, s[0]); }
    }
  }

  lemma QuotedMore(s: string, k: nat, c: char)
    requires k <= |s| && StringEnd(s[k..]).Some? && s[..k] == (if c == '\'' then "''" else [c])
    requires var (v, n) := StringEnd(s[k..]).value;
             s[k..][..n] == Quoted(v) + "'" && (n == |s| - k || s[k..][n] != '\'')
    ensures var (v, n) := StringEnd(s[k..]).value;
            n + k <= |s| && s[..n + k] == Quoted([c] + v) + "'" && (n + k == |s| || s[n + k] != '\'')
  {
    var (v, n) := StringEnd(s[k..]).value;
    assert s[..n + k] == s[..k] + s[k..][..n];
    assert ([c] + v)[1..] == v;
  }

  lemma SymbolIs(s: string)
    requires s != ""
    ensures OperatorToken(s).Some? ==>
              var (t, n) := OperatorToken(s).value; n <= |s| && t.Sym? && s[..n] == SymbolText(t.sym) && Whole(t, s[n..])
  {
    if |s| > 1 { assert s[..2] == [s[0], s[1]] && s[1..][0] == s[1]; }
    assert s[..1] == [s[0]];
  }

  /** An integer's characters, and why it ends there. */
  lemma IntegerIs(dec: Decimals, s: string)
    requires s != "" && (Digit(s[0]) || (s[0] == '-' && |s| > 1 && Digit(s[1]))) && !Pointed(s, IntEnd(s))
    ensures NumberToken(dec, s).Some? ==>
              var t, n := NumberToken(dec, s).value, NumberEnd(s); t.IntTok? && Lexeme(dec, s[..n], t) && Whole(t, s[n..])
  {
    hide NatValue, DigitRun;
    var n := IntEnd(s);
    DigitsAt(s, n);
    if n < |s| { assert s[n..][0] == s[n]; }
    if n + 1 < |s| { assert s[n..][1] == s[n + 1]; }
    if s[0] == '-' { assert s[..n][1..] == s[1..n]; }
  }

  /** The integer part of a number: digits up to a character that is none. */
  lemma DigitsAt(s: string, n: nat)
    requires s != "" && (Digit(s[0]) || (s[0] == '-' && |s| > 1 && Digit(s[1]))) && n == IntEnd(s)
    ensures var lo := if s[0] == '-' then 1 else 0;
            lo < n <= |s| && (forall i | lo <= i < n :: Digit(s[i])) && (n < |s| ==> !Digit(s[n]))
  {
    var lo := if s[0] == '-' then 1 else 0;
    var rest := s[lo..];
    assert rest[0] == s[lo] && n == lo + DigitRun(rest);
    assert DigitRun(rest) > 0;
    hide DigitRun;
    forall i | lo <= i < n ensures Digit(s[i]) { assert s[i] == rest[i - lo]; }
    if n < |s| { assert s[n] == rest[n - lo]; }
  }

  lemma FloatIs(dec: Decimals, s: string)
    requires s != "" && (Digit(s[0]) || (s[0] == '-' && |s| > 1 && Digit(s[1]))) && Pointed(s, IntEnd(s))
    ensures var t, n := FloatTok(dec.read(s[..NumberEnd(s)])), NumberEnd(s);
            NumberToken(dec, s) == Some(t) && Lexeme(dec, s[..n], t) && Whole(t, s[n..])
  {
    var p := IntEnd(s);
    DigitsAt(s, p);
    var frac := s[p + 1..];
    assert DigitRun(frac) > 0;
    hide DigitRun;
    var n := NumberEnd(s);
    assert n == p + 1 + DigitRun(frac);
    forall i | p < i < n ensures Digit(s[i]) { assert s[i] == frac[i - p - 1]; }
    if n < |s| { assert s[n..][0] == s[n] == frac[n - p - 1]; }
    assert DecimalPoint(s[..n], p);
  }

  lemma {:induction false} WordIs(dec: Decimals, s: string)
    requires s != "" && IdentStart(s[0])
    ensures var w := s[..WordRun(s)]; Lexeme(dec, w, WordToken(w)) && Whole(WordToken(w), s[WordRun(s)..])
  {
    var n := WordRun(s);
    assert n > 0;
    hide WordRun, WordToken, Lexeme;
    var w := s[..n];
    WordMeans(dec, w, WordToken(w));
    WordKind(w);
    if n < |s| { assert s[n..][0] == s[n]; }
  }

  lemma WordKind(w: string) ensures WordToken(w).Kw? || WordToken(w).Ident? {}

  lemma FrontLexeme(dec: Decimals, s: string)
    requires s != "" && !Space(s[0]) && Front(dec, s).Some?
    ensures var (t, n) := Front(dec, s).value; Lexeme(dec, s[..n], t) && Whole(t, s[n..])
  {
    hide Lexeme, Whole, WordToken, WordRun, NumberToken, NumberEnd, StringEnd, OperatorToken, Pointed, IntEnd;
    if IdentStart(s[0]) {
      WordIs(dec, s);
    } else if Digit(s[0]) || (s[0] == '-' && |s| > 1 && Digit(s[1])) {
      if Pointed(s, IntEnd(s)) { FloatIs(dec, s); } else { IntegerIs(dec, s); }
    } else if s[0] == '\'' {
      StringLexeme(dec, s);
    } else {
      SymbolLexeme(dec, s);
    }
  }

  lemma StringLexeme(dec: Decimals, s: string)
    requires s != "" && s[0] == '\'' && StringEnd(s[1..]).Some?
    ensures var (v, n) := StringEnd(s[1..]).value; Lexeme(dec, s[..n + 1], StrTok(v)) && Whole(StrTok(v), s[n + 1..])
  {
    StringIs(s[1..]);
    var (v, n) := StringEnd(s[1..]).value;
    hide StringEnd;
    assert s[..n + 1] == "'" + s[1..][..n];
    if n + 1 < |s| { assert s[n + 1..][0] == s[1..][n]; }
  }

  lemma SymbolLexeme(dec: Decimals, s: string)
    requires s != "" && OperatorToken(s).Some?
    ensures var (t, n) := OperatorToken(s).value; n <= |s| && Lexeme(dec, s[..n], t) && Whole(t, s[n..])
  {
    hide OperatorToken, Whole;
    SymbolIs(s);
  }

  // ---- whole texts ----

  lemma {:induction false} ReadsBlank(dec: Decimals, s: string, ts: seq<Token>)
    requires s != "" && Blank(s[0]) && Reads(dec, s[1..], ts)
    ensures Reads(dec, s, ts)
  {
    hide Lexeme, Whole;
    var i: nat, j: nat :| ReadsAt(dec, s[1..], ts, i, j);
    forall k | 0 <= k < i + 1 ensures Blank(s[k]) { if k > 0 { assert s[1..][k - 1] == s[k]; } }
    assert s[1..][i..j] == s[i + 1..j + 1] && s[1..][j..] == s[j + 1..];
    assert ReadsAt(dec, s, ts, i + 1, j + 1);
  }

  /** What the lexer makes of a text is what the text is. */
  lemma {:induction false} LexReads(dec: Decimals, s: string)
    ensures Lex(dec, s).Some? ==> Reads(dec, s, Lex(dec, s).value)
    decreases |s|
  {
    hide Lexeme, Whole, Front;
    if s == "" {
      assert ReadsAt(dec, s, [End], 0, 0);
    } else if Space(s[0]) {
      LexReads(dec, s[1..]);
      if Lex(dec, s).Some? { ReadsBlank(dec, s, Lex(dec, s).value); }
    } else if Front(dec, s).Some? {
      var (t, n) := Front(dec, s).value;
      FrontLexeme(dec, s);
      LexReads(dec, s[n..]);
      if Lex(dec, s[n..]).Some? {
        var rest := Lex(dec, s[n..]).value;
        assert rest != [];
        assert ([t] + rest)[1..] == rest && s[0..n] == s[..n];
        assert ReadsAt(dec, s, [t] + rest, 0, n);
      }
    }
  }

  /** And a text that is some tokens lexes to them. */
  lemma {:induction false} ReadsLex(dec: Decimals, s: string, ts: seq<Token>)
    requires Reads(dec, s, ts)
    ensures Lex(dec, s) == Some(ts)
    decreases |s|, |ts|
  {
    hide Lexeme, Whole, Front;
    var i: nat, j: nat :| ReadsAt(dec, s, ts, i, j);
    if i > 0 {
      ReadsTail(dec, s, ts, i, j);
      ReadsLex(dec, s[1..], ts);
    } else if |ts| > 1 {
      LexemeFront(dec, s[..j], ts[0], s[j..]);
      assert s[0..j] == s[..j] && s[..j] + s[j..] == s && s[0] == s[..j][0];
      ReadsLex(dec, s[j..], ts[1..]);
      assert [ts[0]] + ts[1..] == ts;
    }
  }

  lemma {:induction false} ReadsTail(dec: Decimals, s: string, ts: seq<Token>, i: nat, j: nat)
    requires ts != [] && i > 0 && ReadsAt(dec, s, ts, i, j)
    ensures s != "" && Blank(s[0]) && Reads(dec, s[1..], ts)
  {
    hide Lexeme, Whole;
    var t := s[1..];
    forall k | 0 <= k < i - 1 ensures Blank(t[k]) { assert t[k] == s[k + 1]; }
    assert t[i - 1..j - 1] == s[i..j] && t[j - 1..] == s[j..];
    assert ReadsAt(dec, t, ts, i - 1, j - 1);
  }

  /** The lexer accepts exactly the texts that are tokens, in one way, and returns those. */
  lemma {:induction false} LexMeans(dec: Decimals, s: string)
    ensures forall ts :: Lex(dec, s) == Some(ts) <==> Reads(dec, s, ts)
  {
    forall ts ensures Lex(dec, s) == Some(ts) <==> Reads(dec, s, ts) {
      if Lex(dec, s) == Some(ts) { LexReads(dec, s); }
      if Reads(dec, s, ts) { ReadsLex(dec, s, ts); }
    }
  }

  // ---- keywords in any case ----

  /** `b` is the text `a`, which is these tokens, with its keywords perhaps in another case. */
  ghost predicate RecasedAs(dec: Decimals, a: string, b: string, ts: seq<Token>)
    decreases |ts|
  {
    ts != [] && |a| == |b| && exists i: nat, j: nat :: RecasedAt(dec, a, b, ts, i, j)
  }

  ghost predicate RecasedAt(dec: Decimals, a: string, b: string, ts: seq<Token>, i: nat, j: nat)
    requires ts != [] && |a| == |b|
    decreases |ts|, 0
  {
    && i <= j <= |a| && a[..i] == b[..i] && (forall k | 0 <= k < i :: Blank(a[k]))
    && if |ts| == 1 then ts == [End] && i == |a|
       else
         && Lexeme(dec, a[i..j], ts[0]) && Whole(ts[0], a[j..])
         && (if ts[0].Kw? then AnyCase(b[i..j], a[i..j]) else b[i..j] == a[i..j])
         && RecasedAs(dec, a[j..], b[j..], ts[1..])
  }

  ghost predicate Recased(dec: Decimals, a: string, b: string) { exists ts :: RecasedAs(dec, a, b, ts) }

  lemma CaseTwice(a: string, b: string, u: string)
    requires AnyCase(a, u) && AnyCase(b, a)
    ensures AnyCase(b, u)
  {
    forall i | 0 <= i < |b| ensures SameLetter(b[i], u[i]) { assert SameLetter(b[i], a[i]) && SameLetter(a[i], u[i]); }
  }

  /** Letter by letter the texts are the same but for case. */
  lemma {:induction false} RecasedLetters(dec: Decimals, a: string, b: string, ts: seq<Token>)
    requires RecasedAs(dec, a, b, ts)
    ensures AnyCase(b, a)
    decreases |ts|
  {
    hide Lexeme, Whole, SameLetter;
    var i: nat, j: nat :| RecasedAt(dec, a, b, ts, i, j);
    Alike(a[..i], b[..i]);
    if |ts| > 1 {
      RecasedLetters(dec, a[j..], b[j..], ts[1..]);
      if !ts[0].Kw? { Alike(a[i..j], b[i..j]); }
      forall k | 0 <= k < |a| ensures SameLetter(b[k], a[k]) {
        if k < i {
          assert b[..i][k] == b[k] && a[..i][k] == a[k];
        } else if k < j {
          assert b[i..j][k - i] == b[k] && a[i..j][k - i] == a[k];
        } else {
          assert b[j..][k - j] == b[k] && a[j..][k - j] == a[k];
        }
      }
    }
  }

  lemma Alike(a: string, b: string) requires a == b ensures AnyCase(b, a) {}

  /** What follows a lexeme ends it in any case. */
  lemma WholeAnyCase(t: Token, rest: string, more: string)
    requires Whole(t, rest) && AnyCase(more, rest)
    ensures Whole(t, more)
  {
    if more != "" {
      assert SameLetter(more[0], rest[0]);
      if |more| > 1 { assert SameLetter(more[1], rest[1]); }
    }
  }

  lemma {:induction false} RecasedReads(dec: Decimals, a: string, b: string, ts: seq<Token>)
    requires RecasedAs(dec, a, b, ts)
    ensures Reads(dec, a, ts) && Reads(dec, b, ts)
    decreases |ts|
  {
    hide Lexeme, Whole, AnyCase;
    var i: nat, j: nat :| RecasedAt(dec, a, b, ts, i, j);
    forall k | 0 <= k < i ensures Blank(b[k]) { assert b[k] == b[..i][k] == a[..i][k] == a[k]; }
    if |ts| > 1 {
      RecasedReads(dec, a[j..], b[j..], ts[1..]);
      RecasedLetters(dec, a[j..], b[j..], ts[1..]);
      WholeAnyCase(ts[0], a[j..], b[j..]);
      if ts[0].Kw? { KeywordCase(dec, a[i..j], b[i..j], ts[0].key); }
    }
    assert ReadsAt(dec, a, ts, i, j) && ReadsAt(dec, b, ts, i, j);
  }

  lemma KeywordCase(dec: Decimals, a: string, b: string, k: Key)
    requires Lexeme(dec, a, Kw(k)) && AnyCase(b, a)
    ensures Lexeme(dec, b, Kw(k))
  {
    CaseTwice(a, b, Spelling(k));
  }

  /** Changing the case of keywords changes no token. */
  lemma {:induction false} RecasedLexes(dec: Decimals, a: string, b: string)
    requires Recased(dec, a, b)
    ensures Lex(dec, a).Some? && Lex(dec, b) == Lex(dec, a)
  {
    hide Lex;
    var ts :| RecasedAs(dec, a, b, ts);
    RecasedReads(dec, a, b, ts);
    ReadsLex(dec, a, ts);
    ReadsLex(dec, b, ts);
  }
}
