/** The order ORDER BY puts rows in (src/operator.cpp:1366-1402, src/record.hpp:122-147). */
module SortOrder {
  import opened Exponents
  import opened SqlTypes
  import opened Rows

  /** One term of an ORDER BY: a column, its type, and its direction. */
  datatype SortKey = SortKey(col: nat, desc: bool, ctype: ColType)

  /** A row and its position in the input. */
  datatype Item = Item(row: Row, pos: nat)

  /** What one term says of two rows: negative, the first comes first. NULL is greater
      than every value. */
  function KeyOrder(k: SortKey, x: Row, y: Row): (c: int)
    ensures -1 <= c <= 1
  {
    var p, q := At(x, k.col), At(y, k.col);
    if p.isNull && q.isNull then 0
    else if p.isNull || q.isNull then if k.desc == p.isNull then -1 else 1
    else
      var c := CompareFields(p, q, k.ctype.Text?, k.ctype.Double?);
      if k.desc then -c else c
  }

  /** Term by term; a full tie goes to the row that arrived first. */
  predicate Precedes(keys: seq<SortKey>, a: Item, b: Item) {
    if keys == [] then a.pos < b.pos
    else
      var c := KeyOrder(keys[0], a.row, b.row);
      if c != 0 then c < 0 else Precedes(keys[1..], a, b)
  }

  // ---- what it is, by value ----

  /** One term puts `x` first: the smaller for ASC, the larger for DESC, NULL last for ASC
      and first for DESC. */
  ghost predicate PutsFirst(k: SortKey, x: Row, y: Row) {
    var p, q := ValueOf(At(x, k.col)), ValueOf(At(y, k.col));
    if p == Null || q == Null then p != q && (if k.desc then p == Null else q == Null)
    else if k.desc then Less(q, p) else Less(p, q)
  }

  ghost predicate Ties(k: SortKey, x: Row, y: Row) { ValueOf(At(x, k.col)) == ValueOf(At(y, k.col)) }

  /** The first term that does not tie decides; if all tie, who arrived first. */
  ghost predicate Before(keys: seq<SortKey>, x: Row, i: nat, y: Row, j: nat) {
    || (exists k :: DecidesAt(keys, x, y, k))
    || ((forall k | 0 <= k < |keys| :: Ties(keys[k], x, y)) && i < j)
  }

  ghost predicate DecidesAt(keys: seq<SortKey>, x: Row, y: Row, k: int) {
    0 <= k < |keys| && PutsFirst(keys[k], x, y) && forall m | 0 <= m < k :: Ties(keys[m], x, y)
  }

  /** Each term's column has its type, or is NULL. */
  predicate KeysTyped(keys: seq<SortKey>, row: Row) {
    forall k | 0 <= k < |keys| :: var f := At(row, keys[k].col); f.isNull || f.ctype == keys[k].ctype
  }

  lemma KeyMeans(k: SortKey, x: Row, y: Row)
    requires KeysTyped([k], x) && KeysTyped([k], y)
    ensures KeyOrder(k, x, y) < 0 <==> PutsFirst(k, x, y)
    ensures KeyOrder(k, x, y) == 0 <==> Ties(k, x, y)
  {
    var p, q := At(x, k.col), At(y, k.col);
    assert [k][0] == k;
    if !p.isNull && !q.isNull { CompareMeans(p, q, k.ctype.Text?, k.ctype.Double?); }
  }

  lemma {:induction false} PrecedesMeans(keys: seq<SortKey>, a: Item, b: Item)
    requires KeysTyped(keys, a.row) && KeysTyped(keys, b.row)
    ensures Precedes(keys, a, b) <==> Before(keys, a.row, a.pos, b.row, b.pos)
  {
    if keys != [] {
      var x, y, rest := a.row, b.row, keys[1..];
      assert KeysTyped([keys[0]], x) && KeysTyped([keys[0]], y);
      KeyMeans(keys[0], x, y);
      PrecedesMeans(rest, a, b);
      forall k | 0 <= k < |rest| ensures rest[k] == keys[k + 1] {}
      hide PutsFirst, Ties;
      if Ties(keys[0], x, y) {
        if k :| DecidesAt(keys, x, y, k) { assert DecidesAt(rest, x, y, k - 1); }
        if k :| DecidesAt(rest, x, y, k) { assert DecidesAt(keys, x, y, k + 1); }
      } else if PutsFirst(keys[0], x, y) {
        assert DecidesAt(keys, x, y, 0);
      }
    }
  }

  // ---- a strict total order ----

  lemma KeyOpposite(k: SortKey, x: Row, y: Row)
    ensures KeyOrder(k, x, y) == -KeyOrder(k, y, x)
  {
    TextOpposite(At(x, k.col).text, At(y, k.col).text);
  }

  lemma KeyTransitive(k: SortKey, x: Row, y: Row, z: Row)
    requires KeyOrder(k, x, y) <= 0 && KeyOrder(k, y, z) <= 0
    ensures KeyOrder(k, x, z) <= 0 && (KeyOrder(k, x, y) < 0 || KeyOrder(k, y, z) < 0 ==> KeyOrder(k, x, z) < 0)
  {
    var p, q, r := At(x, k.col).text, At(y, k.col).text, At(z, k.col).text;
    if CompareText(p, q) <= 0 && CompareText(q, r) <= 0 { TextTransitive(p, q, r); }
    if CompareText(r, q) <= 0 && CompareText(q, p) <= 0 { TextTransitive(r, q, p); }
    TextOpposite(p, q); TextOpposite(q, r); TextOpposite(p, r);
  }

  lemma {:induction false} PrecedesTransitive(keys: seq<SortKey>, a: Item, b: Item, c: Item)
    requires Precedes(keys, a, b) && Precedes(keys, b, c)
    ensures Precedes(keys, a, c)
  {
    if keys != [] {
      KeyTransitive(keys[0], a.row, b.row, c.row);
      KeyOpposite(keys[0], a.row, b.row);
      KeyOpposite(keys[0], b.row, c.row);
      KeyOpposite(keys[0], a.row, c.row);
      if KeyOrder(keys[0], a.row, b.row) == 0 && KeyOrder(keys[0], b.row, c.row) == 0 {
        KeyTransitive(keys[0], c.row, b.row, a.row);
        PrecedesTransitive(keys[1..], a, b, c);
      }
    }
  }

  lemma {:induction false} PrecedesTotal(keys: seq<SortKey>, a: Item, b: Item)
    ensures !(Precedes(keys, a, b) && Precedes(keys, b, a))
    ensures a.pos != b.pos ==> Precedes(keys, a, b) || Precedes(keys, b, a)
    ensures !Precedes(keys, a, a)
  {
    if keys != [] {
      KeyOpposite(keys[0], a.row, b.row);
      KeyOpposite(keys[0], a.row, a.row);
      PrecedesTotal(keys[1..], a, b);
      PrecedesTotal(keys[1..], a, a);
    }
  }

  // ---- the prefix ----

  const WORD: nat := 0x1_0000_0000_0000_0000
  const SIGN: nat := 0x8000_0000_0000_0000

  function Byte(t: string, i: nat): nat { if i < |t| then t[i] as int % 256 else 0 }

  /** The first `n` bytes of a text from the `i`th on as a number, the first byte the
      most significant; a text that is shorter goes on as zeros. */
  function Bytes(t: string, i: nat, n: nat): nat
    decreases n
  {
    if n == 0 then 0 else Byte(t, i) * Pow256(n - 1) + Bytes(t, i + 1, n - 1)
  }

  /** A value folded into 64 bits; any monotone folding of a DOUBLE will do. */
  function OrderKey(f: Field, double: real -> nat): nat {
    match f.ctype
    case Text => Bytes(f.text, 0, 8)
    case Double => double(f.f64)
    case _ => if f.i64 + SIGN >= 0 then f.i64 + SIGN else 0
  }

  predicate IsText(t: string) { forall i | 0 <= i < |t| :: t[i] as int < 256 }

  /** A value of its type. */
  predicate FieldOk(f: Field, ctype: ColType) {
    f.ctype == ctype && 0 <= f.i64 + SIGN < WORD && IsText(f.text)
  }

  ghost predicate Folds(double: real -> nat) {
    (forall x :: double(x) < WORD) && forall x, y :: x <= y ==> double(x) <= double(y)
  }

  lemma {:induction false} BytesBound(t: string, i: nat, n: nat)
    ensures Bytes(t, i, n) < Pow256(n)
    decreases n
  {
    if n > 0 {
      BytesBound(t, i + 1, n - 1);
      Scaled(Byte(t, i), 255, Pow256(n - 1));
    }
  }

  lemma Scaled(a: nat, b: nat, x: nat) requires a <= b ensures a * x <= b * x {}

  lemma Word() ensures Pow256(8) == WORD {
    assert Pow256(4) == 0x1_0000_0000;
    assert Pow256(8) == 256 * (256 * (256 * (256 * Pow256(4))));
  }

  /** Folding never reverses an order: it only merges values. */
  lemma {:induction false} BytesOrder(a: string, b: string, n: nat)
    requires IsText(a) && IsText(b) && CompareText(a, b) <= 0
    ensures Bytes(a, 0, n) <= Bytes(b, 0, n)
  {
    hide Bytes, Pow256;
    BytesEmpty(n);
    if n == 0 {
      BytesNone(a);
      BytesNone(b);
    } else if a != [] && b != [] {
      BytesTail(a, n - 1);
      BytesTail(b, n - 1);
      if a[0] == b[0] {
        BytesOrder(a[1..], b[1..], n - 1);
      } else {
        BytesBound(a[1..], 0, n - 1);
        Leads(Byte(a, 0), Byte(b, 0), Bytes(a[1..], 0, n - 1), Pow256(n - 1));
      }
    }
  }

  lemma {:induction false} BytesNone(t: string) ensures Bytes(t, 0, 0) == 0 {}

  lemma Leads(x: nat, y: nat, rest: nat, p: nat)
    requires x < y && rest < p
    ensures x * p + rest <= y * p
  {
    Scaled(x + 1, y, p);
    OneMore(x, p);
  }

  lemma OneMore(a: nat, x: nat) ensures (a + 1) * x == a * x + x {}

  lemma {:induction false} BytesEmpty(n: nat)
    ensures forall i :: Bytes([], i, n) == 0
  {
    if n > 0 { BytesEmpty(n - 1); }
  }

  lemma {:induction false} BytesShift(t: string, i: nat, n: nat)
    requires t != []
    ensures Bytes(t, i + 1, n) == Bytes(t[1..], i, n)
    decreases n
  {
    if n > 0 { BytesShift(t, i + 1, n - 1); }
  }

  lemma {:induction false} BytesTail(t: string, n: nat)
    requires t != []
    ensures Bytes(t, 0, n + 1) == Byte(t, 0) * Pow256(n) + Bytes(t[1..], 0, n)
  {
    BytesShift(t, 0, n);
  }

  /** The first term as 64 bits that order the way the rows must: NULL the largest
      code, all inverted for DESC. */
  function Prefix(keys: seq<SortKey>, row: Row, double: real -> nat): nat {
    if keys == [] then 0
    else
      var f := At(row, keys[0].col);
      var p := if f.isNull then WORD - 1 else OrderKey(f, double);
      if keys[0].desc && p < WORD then WORD - 1 - p else p
  }

  lemma KeyBound(f: Field, ctype: ColType, double: real -> nat)
    requires FieldOk(f, ctype) && Folds(double)
    ensures OrderKey(f, double) < WORD
  {
    BytesBound(f.text, 0, 8);
    Word();
  }

  lemma KeyFolds(p: Field, q: Field, ctype: ColType, double: real -> nat)
    requires FieldOk(p, ctype) && FieldOk(q, ctype) && Folds(double)
    requires CompareFields(p, q, ctype.Text?, ctype.Double?) <= 0
    ensures OrderKey(p, double) <= OrderKey(q, double)
  {
    if ctype.Text? { BytesOrder(p.text, q.text, 8); }
  }

  ghost predicate RowOk(keys: seq<SortKey>, row: Row) {
    forall k | 0 <= k < |keys| :: FieldOk(At(row, keys[k].col), keys[k].ctype)
  }

  lemma RowTyped(keys: seq<SortKey>, row: Row)
    requires RowOk(keys, row)
    ensures KeysTyped(keys, row)
  {
    forall k | 0 <= k < |keys| ensures At(row, keys[k].col).ctype == keys[k].ctype { assert FieldOk(At(row, keys[k].col), keys[k].ctype); }
  }

  /** Prefixes never contradict the full comparison. */
  lemma {:induction false} PrefixAgrees(keys: seq<SortKey>, a: Item, b: Item, double: real -> nat)
    requires RowOk(keys, a.row) && RowOk(keys, b.row) && Folds(double)
    requires Prefix(keys, a.row, double) < Prefix(keys, b.row, double)
    ensures Precedes(keys, a, b)
  {
    var k := keys[0];
    var p, q := At(a.row, k.col), At(b.row, k.col);
    assert FieldOk(p, k.ctype) && FieldOk(q, k.ctype);
    KeyBound(p, k.ctype, double);
    KeyBound(q, k.ctype, double);
    TextOpposite(p.text, q.text);
    if !p.isNull && !q.isNull {
      if CompareFields(p, q, k.ctype.Text?, k.ctype.Double?) <= 0 { KeyFolds(p, q, k.ctype, double); }
      if CompareFields(q, p, k.ctype.Text?, k.ctype.Double?) <= 0 { KeyFolds(q, p, k.ctype, double); }
    }
  }
}
