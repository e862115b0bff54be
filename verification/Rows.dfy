/** Rows and the comparisons a plan makes on them (src/operator.cpp:43-93). */
module Rows {
  import opened SqlTypes

  /** Every member is there whatever the type, as in the source; `f64` is an exact
      number. */
  datatype Field = Field(ctype: ColType, isNull: bool, i64: int, f64: real, text: string) {
    function AsDouble(): real { if ctype.Double? then f64 else i64 as real }
  }

  type Row = seq<Field>

  /** A comparison bound to column positions. */
  datatype Comparison = Comparison(left: nat, op: Op, asText: bool, asDouble: bool,
                                   rightIsColumn: bool, right: nat, literal: Field)

  function Sign(less: bool, more: bool): int { if more then 1 else if less then -1 else 0 }

  /** By bytes, a shorter string before its extensions. */
  function CompareText(a: string, b: string): (c: int)
    ensures -1 <= c <= 1 && (c == 0 <==> a == b)
  {
    if a == [] || b == [] then Sign(b != [], a != [])
    else if a[0] != b[0] then Sign(a[0] < b[0], a[0] > b[0])
    else
      assert a[1..] == b[1..] ==> a == [a[0]] + a[1..] && b == [b[0]] + b[1..];
      CompareText(a[1..], b[1..])
  }

  function CompareFields(a: Field, b: Field, asText: bool, asDouble: bool): (c: int)
    ensures -1 <= c <= 1
    ensures c == 0 <==> (if asText then a.text == b.text else if asDouble then a.AsDouble() == b.AsDouble() else a.i64 == b.i64)
  {
    if asText then CompareText(a.text, b.text)
    else if asDouble then Sign(a.AsDouble() < b.AsDouble(), a.AsDouble() > b.AsDouble())
    else Sign(a.i64 < b.i64, a.i64 > b.i64)
  }

  /** Two values of one type: text by bytes, everything else by value. */
  function CompareValues(a: Field, b: Field): int { CompareFields(a, b, a.ctype.Text?, a.ctype.Double? || b.ctype.Double?) }

  lemma {:induction false} TextTransitive(a: string, b: string, c: string)
    requires CompareText(a, b) <= 0 && CompareText(b, c) <= 0
    ensures CompareText(a, c) <= 0 && (CompareText(a, b) < 0 || CompareText(b, c) < 0 ==> CompareText(a, c) < 0)
  {
    if a != [] && b != [] && c != [] && a[0] == b[0] == c[0] { TextTransitive(a[1..], b[1..], c[1..]); }
  }

  lemma {:induction false} TextOpposite(a: string, b: string)
    ensures CompareText(a, b) == -CompareText(b, a)
  {
    if a != [] && b != [] && a[0] == b[0] { TextOpposite(a[1..], b[1..]); }
  }

  lemma ValuesTransitive(a: Field, b: Field, c: Field)
    requires a.ctype == b.ctype == c.ctype && CompareValues(a, b) <= 0 && CompareValues(b, c) <= 0
    ensures CompareValues(a, c) <= 0
  {
    if a.ctype.Text? { TextTransitive(a.text, b.text, c.text); }
  }

  lemma ValuesOpposite(a: Field, b: Field)
    requires a.ctype == b.ctype
    ensures CompareValues(a, b) == -CompareValues(b, a)
  {
    TextOpposite(a.text, b.text);
  }

  predicate HoldsOp(op: Op, c: int) {
    match op
    case Eq => c == 0
    case Ne => c != 0
    case Lt => c < 0
    case Le => c <= 0
    case Gt => c > 0
    case Ge => c >= 0
  }

  // ---- the same by value ----

  /** What a field is worth, whatever its width. */
  datatype Value = Null | Number(n: real) | Words(t: string)

  function ValueOf(f: Field): Value {
    if f.isNull then Null else match f.ctype case Text => Words(f.text) case Double => Number(f.f64) case _ => Number(f.i64 as real)
  }

  /** The first byte in which they differ is the smaller, or there is none and it is the shorter. */
  ghost predicate TextBefore(a: string, b: string) {
    exists k | 0 <= k < |b| :: k <= |a| && a[..k] == b[..k] && (k == |a| || a[k] < b[k])
  }

  ghost predicate Less(a: Value, b: Value) {
    match (a, b)
    case (Number(m), Number(n)) => m < n
    case (Words(s), Words(t)) => TextBefore(s, t)
    case _ => false
  }

  /** What a comparison asks of two values: NULL satisfies none. */
  ghost predicate Holds(op: Op, a: Value, b: Value) {
    && a != Null && b != Null
    && match op
       case Eq => a == b
       case Ne => a != b
       case Lt => Less(a, b)
       case Le => Less(a, b) || a == b
       case Gt => Less(b, a)
       case Ge => Less(b, a) || a == b
  }

  lemma {:induction false} TextMeans(a: string, b: string)
    ensures CompareText(a, b) < 0 <==> TextBefore(a, b)
    ensures CompareText(a, b) > 0 <==> TextBefore(b, a)
  {
    if a == [] || b == [] {
      if a != b { assert a[..0] == b[..0]; }
    } else if a[0] == b[0] {
      TextMeans(a[1..], b[1..]);
      BeforeTail(a, b);
      BeforeTail(b, a);
    } else {
      assert a[..0] == b[..0];
      BeforeHead(a, b);
      BeforeHead(b, a);
    }
  }

  lemma BeforeTail(a: string, b: string)
    requires a != [] && b != [] && a[0] == b[0]
    ensures TextBefore(a, b) <==> TextBefore(a[1..], b[1..])
  {
    if TextBefore(a, b) {
      var k :| 0 <= k < |b| && k <= |a| && a[..k] == b[..k] && (k == |a| || a[k] < b[k]);
      if k > 0 { assert a[1..][..k - 1] == a[..k][1..] == b[..k][1..] == b[1..][..k - 1]; }
    }
    if TextBefore(a[1..], b[1..]) {
      var k :| 0 <= k < |b| - 1 && k <= |a| - 1 && a[1..][..k] == b[1..][..k] && (k == |a| - 1 || a[1..][k] < b[1..][k]);
      assert a[..k + 1] == [a[0]] + a[1..][..k] && b[..k + 1] == [b[0]] + b[1..][..k];
    }
  }

  lemma BeforeHead(a: string, b: string)
    requires a != [] && b != [] && a[0] != b[0]
    ensures TextBefore(a, b) <==> a[0] < b[0]
  {
    assert a[..0] == b[..0];
    forall k | 0 < k < |b| && k <= |a| ensures a[..k] != b[..k] { assert a[..k][0] != b[..k][0]; }
  }

  /** Text is compared as text, and everything else by its number. */
  predicate Fitting(a: Field, b: Field, asText: bool, asDouble: bool) {
    asText == a.ctype.Text? == b.ctype.Text? && (!asText ==> asDouble == (a.ctype.Double? || b.ctype.Double?))
  }

  /** Comparing two fields of one class is comparing what they are worth: integers of any
      width and decimals as numbers, texts by bytes. */
  lemma CompareMeans(a: Field, b: Field, asText: bool, asDouble: bool)
    requires !a.isNull && !b.isNull && Fitting(a, b, asText, asDouble)
    ensures var c := CompareFields(a, b, asText, asDouble);
            && (c < 0 <==> Less(ValueOf(a), ValueOf(b))) && (c > 0 <==> Less(ValueOf(b), ValueOf(a)))
            && (c == 0 <==> ValueOf(a) == ValueOf(b))
  {
    TextMeans(a.text, b.text);
  }

  const NULL_FIELD := Field(Int64, true, 0, 0.0, "")

  function At(row: Row, i: nat): Field { if i < |row| then row[i] else NULL_FIELD }

  predicate Compared(c: Comparison, a: Field, b: Field) {
    !a.isNull && !b.isNull && HoldsOp(c.op, CompareFields(a, b, c.asText, c.asDouble))
  }

  /** The six comparisons, by value. */
  lemma ComparedMeans(c: Comparison, a: Field, b: Field)
    requires a.isNull || b.isNull || Fitting(a, b, c.asText, c.asDouble)
    ensures Compared(c, a, b) <==> Holds(c.op, ValueOf(a), ValueOf(b))
  {
    if !a.isNull && !b.isNull { CompareMeans(a, b, c.asText, c.asDouble); }
  }

  /** A NULL on either side satisfies no comparison. */
  predicate Eval(c: Comparison, row: Row) { Compared(c, At(row, c.left), if c.rightIsColumn then At(row, c.right) else c.literal) }

  function AtPair(l: Row, r: Row, nleft: nat, i: nat): Field { if i < nleft then At(l, i) else At(r, i - nleft) }

  /** The same for two rows a join is considering. */
  predicate EvalPair(c: Comparison, l: Row, r: Row, nleft: nat) {
    Compared(c, AtPair(l, r, nleft, c.left), if c.rightIsColumn then AtPair(l, r, nleft, c.right) else c.literal)
  }

  predicate EvalAll(cs: seq<Comparison>, l: Row, r: Row, nleft: nat) {
    forall k | 0 <= k < |cs| :: EvalPair(cs[k], l, r, nleft)
  }

  /** Considering two rows is considering the row they join into. */
  lemma PairIsJoined(c: Comparison, l: Row, r: Row)
    ensures EvalPair(c, l, r, |l|) <==> Eval(c, l + r)
  {
  }
}
