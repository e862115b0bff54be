/** The values a column may hold under some comparisons with literals, and the keys of
    an index that hold them (src/executor.cpp:241-294). */
module IndexKeys {
  import opened Wrappers
  import opened SqlTypes
  import opened Rows
  import opened SortOrder

  /** A lower and an upper bound, each inclusive or not, or absent; `empty` for a
      comparison that is never true. */
  datatype ValueRange = ValueRange(lo: Option<Field>, hi: Option<Field>, loIncl: bool, hiIncl: bool, empty: bool)

  const ANY := ValueRange(None, None, true, true, false)

  /** Values of one class: texts, or numbers and booleans; no DOUBLE. */
  predicate Like(isText: bool, f: Field) { !f.isNull && !f.ctype.Double? && (f.ctype.Text? <==> isText) }

  predicate RangeOk(isText: bool, r: ValueRange) {
    (r.lo.Some? ==> Like(isText, r.lo.value)) && (r.hi.Some? ==> Like(isText, r.hi.value))
  }

  function Raise(r: ValueRange, v: Field, incl: bool): ValueRange {
    var c := if r.lo.Some? then CompareValues(v, r.lo.value) else 1;
    if c > 0 || (c == 0 && !incl) then r.(lo := Some(v), loIncl := incl) else r
  }

  function Lower(r: ValueRange, v: Field, incl: bool): ValueRange {
    var c := if r.hi.Some? then CompareValues(v, r.hi.value) else -1;
    if c < 0 || (c == 0 && !incl) then r.(hi := Some(v), hiIncl := incl) else r
  }

  /** The range tightened by `column op v`. */
  function Narrow(r: ValueRange, op: Op, v: Field): ValueRange {
    match op
    case Eq => Lower(Raise(r, v, true), v, true)
    case Gt => Raise(r, v, false)
    case Ge => Raise(r, v, true)
    case Lt => Lower(r, v, false)
    case Le => Lower(r, v, true)
    case Ne => r
  }

  predicate AboveLow(r: ValueRange, f: Field) {
    r.lo.Some? ==> var c := CompareValues(f, r.lo.value); c > 0 || (c == 0 && r.loIncl)
  }

  predicate BelowHigh(r: ValueRange, f: Field) {
    r.hi.Some? ==> var c := CompareValues(f, r.hi.value); c < 0 || (c == 0 && r.hiIncl)
  }

  predicate Within(r: ValueRange, f: Field) { !r.empty && AboveLow(r, f) && BelowHigh(r, f) }

  /** What three values of one class have to do with each other. */
  lemma Compares(isText: bool, a: Field, b: Field, c: Field)
    requires Like(isText, a) && Like(isText, b) && Like(isText, c)
    ensures CompareValues(a, b) == -CompareValues(b, a) && CompareValues(b, c) == -CompareValues(c, b)
    ensures CompareValues(a, b) <= 0 && CompareValues(b, c) <= 0 ==>
              CompareValues(a, c) <= 0 && (CompareValues(a, b) < 0 || CompareValues(b, c) < 0 ==> CompareValues(a, c) < 0)
    ensures CompareValues(a, b) >= 0 && CompareValues(b, c) >= 0 ==>
              CompareValues(a, c) >= 0 && (CompareValues(a, b) > 0 || CompareValues(b, c) > 0 ==> CompareValues(a, c) > 0)
  {
    TextOpposite(a.text, b.text);
    TextOpposite(b.text, c.text);
    TextOpposite(a.text, c.text);
    if isText && CompareValues(a, b) <= 0 && CompareValues(b, c) <= 0 { TextTransitive(a.text, b.text, c.text); }
    if isText && CompareValues(a, b) >= 0 && CompareValues(b, c) >= 0 { TextTransitive(c.text, b.text, a.text); }
  }

  /** A range narrowed by a comparison holds the values it held that satisfy it. */
  lemma NarrowMeans(isText: bool, r: ValueRange, op: Op, v: Field, f: Field)
    requires RangeOk(isText, r) && Like(isText, v) && Like(isText, f) && op != Ne
    ensures RangeOk(isText, Narrow(r, op, v)) && Narrow(r, op, v).empty == r.empty
    ensures Within(Narrow(r, op, v), f) <==> Within(r, f) && HoldsOp(op, CompareValues(f, v))
  {
    hide CompareValues;
    if op == Eq || op == Gt || op == Ge { RaiseMeans(isText, r, v, op != Gt, f); }
    if op == Lt || op == Le { LowerMeans(isText, r, v, op == Le, f); }
    if op == Eq { LowerMeans(isText, Raise(r, v, true), v, true, f); }
  }

  lemma RaiseMeans(isText: bool, r: ValueRange, v: Field, incl: bool, f: Field)
    requires RangeOk(isText, r) && Like(isText, v) && Like(isText, f)
    ensures RangeOk(isText, Raise(r, v, incl)) && Raise(r, v, incl).hi == r.hi && Raise(r, v, incl).hiIncl == r.hiIncl
    ensures AboveLow(Raise(r, v, incl), f) <==> AboveLow(r, f) && (CompareValues(f, v) > 0 || (CompareValues(f, v) == 0 && incl))
  {
    hide CompareValues;
    if r.lo.Some? {
      Compares(isText, f, v, r.lo.value);
      Compares(isText, f, r.lo.value, v);
    }
  }

  lemma LowerMeans(isText: bool, r: ValueRange, v: Field, incl: bool, f: Field)
    requires RangeOk(isText, r) && Like(isText, v) && Like(isText, f)
    ensures RangeOk(isText, Lower(r, v, incl)) && Lower(r, v, incl).lo == r.lo && Lower(r, v, incl).loIncl == r.loIncl
    ensures BelowHigh(Lower(r, v, incl), f) <==> BelowHigh(r, f) && (CompareValues(f, v) < 0 || (CompareValues(f, v) == 0 && incl))
  {
    hide CompareValues;
    if r.hi.Some? {
      Compares(isText, f, v, r.hi.value);
      Compares(isText, f, r.hi.value, v);
    }
  }

  const LAST_KEY: nat := WORD - 1

  /** A value of its type, as a row or a literal holds one. */
  predicate ValueOk(f: Field) { 0 <= f.i64 + SIGN < WORD && IsText(f.text) }

  function IndexKey(f: Field): nat { OrderKey(f, x => 0) }

  lemma IndexKeyIs(isText: bool, f: Field)
    requires Like(isText, f) && ValueOk(f)
    ensures IndexKey(f) <= LAST_KEY && (!isText ==> IndexKey(f) == f.i64 + SIGN)
  {
    BytesBound(f.text, 0, 8);
    Word();
  }

  /** Any key an index looks up is a key it could hold, if the value is of its type. */
  lemma IndexKeyBound(f: Field)
    ensures ValueOk(f) && !f.ctype.Double? ==> IndexKey(f) <= LAST_KEY
  {
    BytesBound(f.text, 0, 8);
    Word();
  }

  lemma IndexKeyOrder(isText: bool, a: Field, b: Field)
    requires Like(isText, a) && Like(isText, b) && ValueOk(a) && ValueOk(b)
    ensures CompareValues(a, b) <= 0 ==> IndexKey(a) <= IndexKey(b)
    ensures CompareValues(a, b) >= 0 ==> IndexKey(a) >= IndexKey(b)
    ensures !isText ==> (CompareValues(a, b) < 0 ==> IndexKey(a) < IndexKey(b)) && (CompareValues(a, b) > 0 ==> IndexKey(a) > IndexKey(b))
  {
    TextOpposite(a.text, b.text);
    if isText {
      if CompareText(a.text, b.text) <= 0 { BytesOrder(a.text, b.text, 8); }
      if CompareText(b.text, a.text) <= 0 { BytesOrder(b.text, a.text, 8); }
    }
  }

  predicate InKeys(keys: Option<(nat, nat)>, k: nat) { keys.Some? && keys.value.0 <= k <= keys.value.1 }

  /** For an exact key an exclusive bound becomes the next key in; a TEXT bound is a
      prefix, so it stays inclusive. */
  function IndexKeysOf(r: ValueRange, isText: bool): Option<(nat, nat)> {
    if r.empty then None
    else if r.lo.Some? && r.hi.Some?
            && (var c := CompareValues(r.lo.value, r.hi.value); c > 0 || (c == 0 && !(r.loIncl && r.hiIncl))) then None
    else
      var low := if r.lo.Some? then IndexKey(r.lo.value) else 0;
      var high := if r.hi.Some? then IndexKey(r.hi.value) else LAST_KEY;
      if r.lo.Some? && !r.loIncl && !isText && low == LAST_KEY then None
      else if r.hi.Some? && !r.hiIncl && !isText && high == 0 then None
      else
        var lo := if r.lo.Some? && !r.loIncl && !isText then low + 1 else low;
        var hi := if r.hi.Some? && !r.hiIncl && !isText then high - 1 else high;
        if lo <= hi then Some((lo, hi)) else None
  }

  /** Exactly the range's values for an exact key; for TEXT, no fewer. */
  lemma KeysMean(r: ValueRange, isText: bool, f: Field)
    requires RangeOk(isText, r) && (r.lo.Some? ==> ValueOk(r.lo.value)) && (r.hi.Some? ==> ValueOk(r.hi.value))
    requires Like(isText, f) && ValueOk(f)
    ensures Within(r, f) ==> InKeys(IndexKeysOf(r, isText), IndexKey(f))
    ensures !isText && InKeys(IndexKeysOf(r, isText), IndexKey(f)) ==> Within(r, f)
  {
    hide CompareValues, IndexKey;
    IndexKeyIs(isText, f);
    if r.lo.Some? {
      IndexKeyIs(isText, r.lo.value);
      IndexKeyOrder(isText, f, r.lo.value);
    }
    if r.hi.Some? {
      IndexKeyIs(isText, r.hi.value);
      IndexKeyOrder(isText, f, r.hi.value);
    }
    if r.lo.Some? && r.hi.Some? {
      Compares(isText, r.lo.value, f, r.hi.value);
      IndexKeyOrder(isText, r.lo.value, r.hi.value);
    }
  }

  /** The keys [lo, hi] of the entries a range can hold, or false if it can hold none. */
  method RangeKeys(r: ValueRange, isText: bool) returns (any: bool, lo: nat, hi: nat)
    requires RangeOk(isText, r) && (r.lo.Some? ==> ValueOk(r.lo.value)) && (r.hi.Some? ==> ValueOk(r.hi.value))
    ensures (if any then Some((lo, hi)) else None) == IndexKeysOf(r, isText)
    ensures any ==> lo <= hi <= LAST_KEY
  {
    hide CompareValues, IndexKey;
    lo, hi := 0, LAST_KEY;
    if r.empty { return false, lo, hi; }
    if r.lo.Some? && r.hi.Some? {
      var c := CompareValues(r.lo.value, r.hi.value);
      if c > 0 || (c == 0 && !(r.loIncl && r.hiIncl)) { return false, lo, hi; }
    }
    if r.lo.Some? {
      lo := IndexKey(r.lo.value);
      if !r.loIncl && !isText {
        if lo == LAST_KEY { return false, lo, hi; }
        lo := lo + 1;
      }
    }
    if r.hi.Some? {
      IndexKeyIs(isText, r.hi.value);
      hi := IndexKey(r.hi.value);
      if !r.hiIncl && !isText {
        if hi == 0 { return false, lo, hi; }
        hi := hi - 1;
      }
    }
    any := lo <= hi;
  }
}
