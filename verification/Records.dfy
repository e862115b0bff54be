/** Rows as bytes (src/record.hpp, src/batch.hpp:199-291): a bitmap of NULLs, a slot of
    fixed width for every column, then the texts. */
module RecordLayouts {
  import opened Exponents
  import opened SqlTypes
  import opened Bytes

  /** The numbers a DOUBLE can hold, how one is 64 bits, and back. */
  datatype RealBits = RealBits(held: real -> bool, to: real -> nat, from: nat -> real)

  ghost predicate Exact(bits: RealBits) { forall x | bits.held(x) :: bits.to(x) < WORD64 && bits.from(bits.to(x)) == x }

  /** Such numbers and codes exist: the whole numbers below 2^64, as themselves. */
  function WholeNumbers(): (bits: RealBits)
    ensures Exact(bits) && forall x: real | 0.0 <= x && x.Floor < WORD64 && x == x.Floor as real :: bits.held(x)
  {
    RealBits(x => 0.0 <= x && x.Floor < WORD64 && x == x.Floor as real, x => if x < 0.0 then 0 else x.Floor, n => n as real)
  }

  const WORD32: nat := 0x1_0000_0000
  const WORD64: nat := 0x1_0000_0000_0000_0000

  function SlotWidth(t: ColType): nat {
    match t case Int64 => 8 case Int32 => 4 case Bool => 1 case Text => 4 case Double => 8
  }

  function NullBytes(n: nat): nat { (n + 7) / 8 }

  function Widths(types: seq<ColType>): nat { if types == [] then 0 else Widths(types[..|types| - 1]) + SlotWidth(types[|types| - 1]) }

  /** Where a column's slot lies: after the bitmap and every slot before it, NULL or not. */
  function SlotOffset(types: seq<ColType>, i: nat): nat
    requires i <= |types|
  {
    NullBytes(|types|) + Widths(types[..i])
  }

  function VarStart(types: seq<ColType>): nat { NullBytes(|types|) + Widths(types) }

  lemma OffsetMeans(types: seq<ColType>, i: nat)
    requires i <= |types|
    ensures SlotOffset(types, i) == (|types| + 7) / 8 + Widths(types[..i])
  {
  }

  lemma OffsetNext(types: seq<ColType>, i: nat)
    requires i < |types|
    ensures SlotOffset(types, i + 1) == SlotOffset(types, i) + SlotWidth(types[i])
  {
    assert types[..i + 1][..i] == types[..i];
  }

  lemma {:induction false} OffsetOrder(types: seq<ColType>, i: nat, j: nat)
    requires i < j <= |types|
    ensures SlotOffset(types, i) + SlotWidth(types[i]) <= SlotOffset(types, j)
    decreases j
  {
    OffsetNext(types, j - 1);
    if i < j - 1 { OffsetOrder(types, i, j - 1); }
  }

  lemma OffsetEnds(types: seq<ColType>)
    ensures SlotOffset(types, |types|) == VarStart(types) && SlotOffset(types, 0) == NullBytes(|types|)
  {
    assert types[..|types|] == types;
  }

  // ---- integers of some bytes, least significant first ----

  function LoadInt(d: seq<byte>, i: nat, n: nat): nat
    decreases n
  {
    if n == 0 then 0 else ByteAt(d, i) + 256 * LoadInt(d, i + 1, n - 1)
  }

  function IntBytes(v: nat, n: nat): (b: seq<byte>)
    ensures |b| == n
  {
    if n == 0 then [] else [Low(v)] + IntBytes(v / 256, n - 1)
  }

  // The same, byte by byte.
  function Two(d: seq<byte>, i: nat): nat { ByteAt(d, i) + 0x100 * ByteAt(d, i + 1) }
  function Four(d: seq<byte>, i: nat): nat { Two(d, i) + 0x1_0000 * Two(d, i + 2) }
  function Eight(d: seq<byte>, i: nat): nat { Four(d, i) + 0x1_0000_0000 * Four(d, i + 4) }

  lemma {:induction false} LoadMeans(d: seq<byte>, i: nat)
    ensures LoadInt(d, i, 2) == Two(d, i) && LoadInt(d, i, 4) == Four(d, i) && LoadInt(d, i, 8) == Eight(d, i)
  {
    LoadTwo(d, i, 0);
    LoadTwo(d, i, 2);
    LoadTwo(d, i + 2, 0);
    LoadTwo(d, i, 6);
    LoadTwo(d, i + 2, 4);
    LoadTwo(d, i + 4, 2);
    LoadTwo(d, i + 6, 0);
    hide LoadInt, ByteAt;
  }

  lemma LoadTwo(d: seq<byte>, i: nat, n: nat)
    ensures LoadInt(d, i, n + 2) == Two(d, i) + 0x1_0000 * LoadInt(d, i + 2, n)
    ensures LoadInt(d, i, 0) == 0 && LoadInt(d, i + 2, 0) == 0
  {
    assert LoadInt(d, i + 1, n + 1) == ByteAt(d, i + 1) + 256 * LoadInt(d, i + 2, n);
  }

  lemma {:induction false} LoadSame(d: seq<byte>, e: seq<byte>, i: nat, n: nat)
    requires forall k | i <= k < i + n :: ByteAt(d, k) == ByteAt(e, k)
    ensures LoadInt(d, i, n) == LoadInt(e, i, n)
    decreases n
  {
    if n > 0 { LoadSame(d, e, i + 1, n - 1); }
  }

  lemma {:induction false} LoadBytes(d: seq<byte>, i: nat, v: nat, n: nat)
    requires v < Pow256(n) && i + n <= |d| && d[i..i + n] == IntBytes(v, n)
    ensures LoadInt(d, i, n) == v
    decreases n
  {
    if n > 0 {
      var b := IntBytes(v, n);
      assert d[i] == d[i..i + n][0] == b[0];
      assert d[i + 1..i + 1 + (n - 1)] == d[i..i + n][1..] == b[1..] == IntBytes(v / 256, n - 1);
      LoadBytes(d, i + 1, v / 256, n - 1);
    }
  }

  lemma {:induction false} LoadBound(d: seq<byte>, i: nat, n: nat)
    ensures LoadInt(d, i, n) < Pow256(n)
    decreases n
  {
    if n > 0 { LoadBound(d, i + 1, n - 1); }
  }

  lemma Powers()
    ensures Pow256(4) == WORD32 && Pow256(8) == WORD64 && Pow256(2) == 0x1_0000 && Pow256(1) == 256
  {
    assert Pow256(4) == 256 * (256 * (256 * (256 * Pow256(0))));
    assert Pow256(8) == 256 * (256 * (256 * (256 * Pow256(4))));
  }

  lemma {:induction false} Load16Is(d: seq<byte>, i: nat)
    ensures Load16(d, i) == LoadInt(d, i, 2)
  {
    assert LoadInt(d, i + 2, 0) == 0;
    assert LoadInt(d, i + 1, 1) == ByteAt(d, i + 1);
  }

  /** Two's complement. */
  function Unsigned(v: int, word: nat): nat { if -(word as int) <= v < 0 then v + word else if v < 0 then 0 else v }
  function Signed(u: nat, word: nat): int { if u >= word / 2 then u - word else u }

  // ---- the bitmap ----

  /** The `k`th bit, the least significant first. */
  predicate Bit(b: nat, k: nat) { if k == 0 then b % 2 == 1 else Bit(b / 2, k - 1) }

  function WithBit(b: nat, k: nat): nat { if k == 0 then b - b % 2 + 1 else 2 * WithBit(b / 2, k - 1) + b % 2 }

  lemma {:induction false} BitFits(b: nat, k: nat, m: nat)
    requires k < m && b < Pow2(m)
    ensures WithBit(b, k) < Pow2(m)
    decreases k
  {
    assert Pow2(m) == 2 * Pow2(m - 1);
    if k > 0 { BitFits(b / 2, k - 1, m - 1); }
    else { EvenBelow(b, Pow2(m - 1)); }
  }

  lemma EvenBelow(b: nat, half: nat)
    requires b < 2 * half
    ensures b - b % 2 + 1 < 2 * half
  {
  }

  lemma {:induction false} BitsOf(b: nat, k: nat, j: nat)
    ensures Bit(WithBit(b, k), j) <==> j == k || Bit(b, j)
    decreases k
  {
    if k > 0 && j > 0 { BitsOf(b / 2, k - 1, j - 1); }
  }

  function OrBit(b: byte, k: nat): byte
    requires k < 8
  {
    assert Pow2(8) == 256 by { assert Pow2(4) == 16; assert Pow2(8) == 2 * (2 * (2 * (2 * Pow2(4)))); }
    BitFits(b as nat, k, 8);
    WithBit(b as nat, k) as byte
  }

  predicate NullAt(d: seq<byte>, i: nat) { Bit(ByteAt(d, i / 8), i % 8) }

  function SetNull(d: seq<byte>, i: nat): (e: seq<byte>)
    requires i / 8 < |d|
    ensures |e| == |d|
  {
    d[i / 8 := OrBit(d[i / 8], i % 8)]
  }

  lemma NullsSet(d: seq<byte>, i: nat, j: nat)
    requires i / 8 < |d|
    ensures NullAt(SetNull(d, i), j) <==> j == i || NullAt(d, j)
  {
    if i / 8 == j / 8 { BitsOf(d[i / 8] as nat, i % 8, j % 8); }
  }
}

module RecordCodec {
  import opened Wrappers
  import opened SqlTypes
  import opened Bytes
  import opened Rows
  import opened RecordLayouts

  // ---- values ----

  function TextBytes(t: string): (b: seq<byte>)
    ensures |b| == |t|
  {
    seq(|t|, i requires 0 <= i < |t| => (t[i] as int % 256) as byte)
  }

  function BytesText(b: seq<byte>): (t: string)
    ensures |t| == |b|
  {
    seq(|b|, i requires 0 <= i < |b| => b[i] as int as char)
  }

  function NullOf(t: ColType): Field { Field(t, true, 0, 0.0, "") }

  /** A value of its column's type, or its NULL; the members the type does not use are
      empty. */
  predicate FieldOk(t: ColType, f: Field, bits: RealBits) {
    if f.isNull then f == Field(t, true, 0, 0.0, "")
    else
      && f.ctype == t
      && match t
         case Int64 => -(WORD64 / 2 as int) <= f.i64 < WORD64 / 2 && f.f64 == 0.0 && f.text == ""
         case Int32 => -(WORD32 / 2 as int) <= f.i64 < WORD32 / 2 && f.f64 == 0.0 && f.text == ""
         case Bool => (f.i64 == 0 || f.i64 == 1) && f.f64 == 0.0 && f.text == ""
         case Double => bits.held(f.f64) && f.i64 == 0 && f.text == ""
         case Text => f.i64 == 0 && f.f64 == 0.0 && forall k | 0 <= k < |f.text| :: f.text[k] as int < 256
  }

  predicate RowOk(types: seq<ColType>, row: Row, bits: RealBits) { |row| == |types| && forall i | 0 <= i < |types| :: FieldOk(types[i], row[i], bits) }

  lemma TextAgain(t: string)
    requires forall k | 0 <= k < |t| :: t[k] as int < 256
    ensures BytesText(TextBytes(t)) == t
  {
  }

  // ---- what a record says ----

  /** The value in a fixed slot. */
  function ReadFixed(t: ColType, d: seq<byte>, off: nat, bits: RealBits): Field {
    match t
    case Int64 => Field(t, false, Signed(LoadInt(d, off, 8), WORD64), 0.0, "")
    case Int32 => Field(t, false, Signed(LoadInt(d, off, 4), WORD32), 0.0, "")
    case Double => Field(t, false, 0, bits.from(LoadInt(d, off, 8)), "")
    case _ => Field(t, false, if ByteAt(d, off) != 0 then 1 else 0, 0.0, "")
  }

  /** The value of a column that is not NULL, or None if the record is cut short. */
  function ReadAt(types: seq<ColType>, rec: seq<byte>, i: nat, off: nat, bits: RealBits): Option<Field>
    requires i < |types|
  {
    if types[i] == Text then
      if off + 4 > |rec| then None
      else
        var start := VarStart(types) + Load16(rec, off);
        var len := Load16(rec, off + 2);
        if start + len > |rec| then None else Some(Field(Text, false, 0, 0.0, BytesText(rec[start..start + len])))
    else if off + SlotWidth(types[i]) > |rec| then None
    else Some(ReadFixed(types[i], rec, off, bits))
  }

  function Column(types: seq<ColType>, rec: seq<byte>, i: nat, bits: RealBits): Option<Field>
    requires i < |types|
  {
    if NullAt(rec, i) then Some(NullOf(types[i])) else ReadAt(types, rec, i, SlotOffset(types, i), bits)
  }

  // ---- encoding ----

  /** The texts of a row, one after another. */
  function Texts(row: Row): seq<byte> {
    if row == [] then []
    else
      var f := row[|row| - 1];
      Texts(row[..|row| - 1]) + if f.ctype == Text && !f.isNull then TextBytes(f.text) else []
  }

  lemma TextsNext(row: Row, i: nat)
    requires i < |row|
    ensures Texts(row[..i + 1]) == Texts(row[..i]) + if row[i].ctype == Text && !row[i].isNull then TextBytes(row[i].text) else []
  {
    assert row[..i + 1][..i] == row[..i];
  }

  /** Every text begins where 16 bits can point. */
  predicate Fits(row: Row) {
    forall i | 0 <= i < |row| && row[i].ctype == Text && !row[i].isNull :: |Texts(row[..i])| < 0x1_0000
  }

  predicate TooLong(f: Field) { f.ctype == Text && !f.isNull && |f.text| > 0xFFFF }

  ghost predicate AnyTooLong(row: Row) { exists i | 0 <= i < |row| :: TooLong(row[i]) }

  /** The bytes of a value that is not NULL, in its slot: a text is where it begins and
      how long it is, 16 bits each. */
  function SlotBytes(f: Field, start: nat, bits: RealBits): (b: seq<byte>)
    ensures |b| == SlotWidth(f.ctype)
  {
    match f.ctype
    case Int64 => IntBytes(Unsigned(f.i64, WORD64), 8)
    case Int32 => IntBytes(Unsigned(f.i64, WORD32), 4)
    case Bool => [if f.i64 != 0 then 1 else 0]
    case Double => IntBytes(bits.to(f.f64), 8)
    case Text => IntBytes(start % 0x1_0000, 2) + IntBytes(|f.text| % 0x1_0000, 2)
  }

  /** A column's slot, the first `i` columns written: its value's bytes, or zeros if it is
      NULL or not written yet. */
  ghost predicate SlotHolds(types: seq<ColType>, row: Row, out: seq<byte>, j: nat, i: nat, bits: RealBits)
    requires j < |row| == |types|
  {
    var off, w := SlotOffset(types, j), SlotWidth(types[j]);
    && off + w <= |out|
    && out[off..off + w] == if j < i && !row[j].isNull then SlotBytes(row[j], |Texts(row[..j])|, bits) else Zeros(w)
  }

  /** The first `i` columns are written. */
  ghost predicate Encoded(types: seq<ColType>, row: Row, out: seq<byte>, vars: seq<byte>, i: nat, bits: RealBits) {
    && i <= |row| == |types| && |out| == VarStart(types) && vars == Texts(row[..i])
    && (forall j | 0 <= j < |types| :: NullAt(out, j) <==> j < i && row[j].isNull)
    && forall j | 0 <= j < |types| :: SlotHolds(types, row, out, j, i, bits)
  }

  /** A row's record: its fixed part, then its texts. */
  ghost predicate Encodes(types: seq<ColType>, row: Row, rec: seq<byte>, bits: RealBits) {
    exists out :: Encoded(types, row, out, Texts(row), |row|, bits) && rec == out + Texts(row)
  }

  function Zeros(n: nat): (d: seq<byte>)
    ensures |d| == n
  {
    seq(n, k => 0)
  }

  lemma ZeroBits(n: nat)
    ensures forall j :: !NullAt(Zeros(n), j)
  {
    forall j: nat ensures !NullAt(Zeros(n), j) { ZeroBit(j % 8); }
  }

  lemma {:induction false} ZeroBit(k: nat)
    ensures !Bit(0, k)
  {
    if k > 0 { ZeroBit(k - 1); }
  }

  /** Bytes of other slots do not change what a slot holds. */
  lemma SlotKept(types: seq<ColType>, row: Row, d: seq<byte>, e: seq<byte>, j: nat, i: nat, i': nat, bits: RealBits)
    requires j < |row| == |types| && |d| <= |e| && SlotHolds(types, row, d, j, i, bits) && (row[j].isNull || (j < i <==> j < i'))
    requires SlotOffset(types, j) + SlotWidth(types[j]) <= |d|
    requires forall k | SlotOffset(types, j) <= k < SlotOffset(types, j) + SlotWidth(types[j]) :: d[k] == e[k]
    ensures SlotHolds(types, row, e, j, i', bits)
  {
    hide SlotOffset, SlotBytes, Texts;
    var off, w := SlotOffset(types, j), SlotWidth(types[j]);
    assert d[off..off + w] == e[off..off + w];
  }

  /** A value's bytes are read as the value. */
  lemma SlotReads(types: seq<ColType>, row: Row, e: seq<byte>, j: nat, bits: RealBits)
    requires RowOk(types, row, bits) && j < |types| && !row[j].isNull && Exact(bits) && !TooLong(row[j])
    requires SlotHolds(types, row, e, j, |row|, bits)
    ensures var off := SlotOffset(types, j);
            if types[j] == Text then Load16(e, off) == |Texts(row[..j])| % 0x1_0000 && Load16(e, off + 2) == |row[j].text|
            else ReadFixed(types[j], e, off, bits) == row[j]
  {
    hide LoadInt, IntBytes, SlotOffset, Texts, Load16;
    var off, f, b := SlotOffset(types, j), row[j], SlotBytes(row[j], |Texts(row[..j])|, bits);
    assert FieldOk(types[j], f, bits);
    Powers();
    assert e[off..off + |b|] == b;
    match types[j]
    case Int64 => LoadBytes(e, off, Unsigned(f.i64, WORD64), 8);
    case Int32 => LoadBytes(e, off, Unsigned(f.i64, WORD32), 4);
    case Double => LoadBytes(e, off, bits.to(f.f64), 8);
    case Bool => assert e[off..off + 1][0] == e[off] == b[0];
    case Text => PointerWritten(e, off, |Texts(row[..j])| % 0x1_0000, |f.text|);
  }

  lemma {:induction false} PointerWritten(e: seq<byte>, off: nat, start: nat, len: nat)
    requires off + 4 <= |e| && start < 0x1_0000 && len < 0x1_0000
    requires e[off..off + 4] == IntBytes(start, 2) + IntBytes(len % 0x1_0000, 2)
    ensures Load16(e, off) == start && Load16(e, off + 2) == len
  {
    hide LoadInt, IntBytes, Load16;
    Powers();
    Load16Is(e, off);
    Load16Is(e, off + 2);
    assert e[off..off + 2] == e[off..off + 4][..2] == IntBytes(start, 2);
    assert e[off + 2..off + 2 + 2] == e[off..off + 4][2..] == IntBytes(len, 2);
    LoadBytes(e, off, start, 2);
    LoadBytes(e, off + 2, len, 2);
  }

  lemma BlitOther(d: seq<byte>, at: nat, b: seq<byte>, k: nat)
    requires at + |b| <= |d| && (k < at || at + |b| <= k)
    ensures ByteAt(Blit(d, at, b), k) == ByteAt(d, k)
  {
  }

  lemma SlotsInside(types: seq<ColType>, i: nat)
    requires i < |types|
    ensures NullBytes(|types|) <= SlotOffset(types, i) && SlotOffset(types, i) + SlotWidth(types[i]) <= VarStart(types)
  {
    OffsetOrder(types, i, |types|);
    OffsetEnds(types);
  }

  /** A NULL: its bit, and nothing in its slot. */
  lemma EncodeNull(types: seq<ColType>, row: Row, out: seq<byte>, vars: seq<byte>, i: nat, bits: RealBits)
    requires RowOk(types, row, bits) && Encoded(types, row, out, vars, i, bits) && i < |types| && row[i].isNull
    ensures i / 8 < |out| && Encoded(types, row, SetNull(out, i), vars, i + 1, bits)
  {
    hide SlotHolds, Bit, Texts, SlotOffset;
    SlotsInside(types, i);
    TextsNext(row, i);
    assert vars + [] == vars;
    var e := SetNull(out, i);
    forall j | 0 <= j < |types| ensures NullAt(e, j) <==> j < i + 1 && row[j].isNull { NullsSet(out, i, j); }
    var n := i + 1;
    forall j | 0 <= j < |types| ensures SlotHolds(types, row, e, j, n, bits) {
      SlotsInside(types, j);
      SlotKept(types, row, out, e, j, i, i + 1, bits);
    }
  }

  /** A value, in its own slot. */
  lemma EncodeValue(types: seq<ColType>, row: Row, out: seq<byte>, vars: seq<byte>, i: nat, bits: RealBits)
    requires RowOk(types, row, bits) && Encoded(types, row, out, vars, i, bits) && i < |types| && !row[i].isNull
    ensures SlotOffset(types, i) + SlotWidth(types[i]) <= |out| && row[i].ctype == types[i]
    ensures Encoded(types, row, Blit(out, SlotOffset(types, i), SlotBytes(row[i], |vars|, bits)),
                    vars + if types[i] == Text then TextBytes(row[i].text) else [], i + 1, bits)
  {
    hide Blit, SlotHolds, SlotBytes, Bit, Texts, SlotOffset;
    SlotsInside(types, i);
    TextsNext(row, i);
    assert FieldOk(types[i], row[i], bits);
    var off, b := SlotOffset(types, i), SlotBytes(row[i], |vars|, bits);
    var e := Blit(out, off, b);
    forall j | 0 <= j < |types| ensures NullAt(e, j) <==> NullAt(out, j) { BlitOther(out, off, b, j / 8); }
    var n := i + 1;
    forall j | 0 <= j < |types| ensures SlotHolds(types, row, e, j, n, bits) {
      SlotsInside(types, j);
      if j == i {
        SlotPut(types, row, e, i, bits);
      } else {
        if j < i { OffsetOrder(types, j, i); } else { OffsetOrder(types, i, j); }
        forall k | SlotOffset(types, j) <= k < SlotOffset(types, j) + SlotWidth(types[j]) ensures out[k] == e[k] {
          BlitOther(out, off, b, k);
          assert ByteAt(out, k) == ByteAt(e, k);
        }
        SlotKept(types, row, out, e, j, i, i + 1, bits);
      }
    }
  }

  lemma SlotPut(types: seq<ColType>, row: Row, e: seq<byte>, i: nat, bits: RealBits)
    requires i < |row| == |types| && !row[i].isNull && SlotOffset(types, i) + SlotWidth(types[i]) <= |e|
    requires e[SlotOffset(types, i)..SlotOffset(types, i) + SlotWidth(types[i])] == SlotBytes(row[i], |Texts(row[..i])|, bits)
    ensures SlotHolds(types, row, e, i, i + 1, bits)
  {
  }

  /** A row as bytes; None for a row of the wrong width or a text too long for a 16-bit
      length. */
  method Encode(types: seq<ColType>, row: Row, bits: RealBits) returns (rec: Option<seq<byte>>)
    requires |row| == |types| ==> RowOk(types, row, bits)
    ensures rec.None? <==> |row| != |types| || AnyTooLong(row)
    ensures rec.Some? ==> Encodes(types, row, rec.value, bits)
  {
    hide Encoded, SlotBytes, FieldOk, TooLong, SetNull, Blit, Texts, SlotOffset;
    if |row| != |types| { return None; }
    var out, vars := Zeros(VarStart(types)), [];
    EncodeStart(types, row, bits);
    for i := 0 to |row|
      invariant Encoded(types, row, out, vars, i, bits) && forall j | 0 <= j < i :: !TooLong(row[j])
    {
      var v, off := row[i], SlotOffset(types, i);
      if v.isNull {
        EncodeNull(types, row, out, vars, i, bits);
        NotLong(v);
        out := SetNull(out, i);
        continue;
      }
      RowFieldOk(types, row, i, bits);
      if types[i] == Text && |v.text| > 0xFFFF { IsLong(v); return None; }
      NotLong(v);
      EncodeValue(types, row, out, vars, i, bits);
      out := Blit(out, off, SlotBytes(v, |vars|, bits));
      if types[i] == Text { vars := vars + TextBytes(v.text); } else { assert vars + [] == vars; }
    }
    EncodedTexts(types, row, out, vars, bits);
    rec := Some(out + vars);
  }

  lemma NotLong(v: Field) ensures v.isNull || v.ctype != Text || |v.text| <= 0xFFFF ==> !TooLong(v) {}
  lemma IsLong(v: Field) requires v.ctype == Text && !v.isNull && |v.text| > 0xFFFF ensures TooLong(v) {}

  lemma RowFieldOk(types: seq<ColType>, row: Row, i: nat, bits: RealBits)
    requires RowOk(types, row, bits) && i < |row| && !row[i].isNull
    ensures FieldOk(types[i], row[i], bits) && row[i].ctype == types[i]
  {
  }

  lemma EncodeStart(types: seq<ColType>, row: Row, bits: RealBits)
    requires |row| == |types|
    ensures Encoded(types, row, Zeros(VarStart(types)), [], 0, bits)
  {
    hide SlotOffset;
    ZeroBits(VarStart(types));
    assert row[..0] == [];
    forall j | 0 <= j < |types| ensures SlotHolds(types, row, Zeros(VarStart(types)), j, 0, bits) { SlotsInside(types, j); }
  }

  lemma {:induction false} EncodedTexts(types: seq<ColType>, row: Row, out: seq<byte>, vars: seq<byte>, bits: RealBits)
    requires Encoded(types, row, out, vars, |row|, bits)
    ensures vars == Texts(row)
  {
    assert row[..|row|] == row;
  }

  // ---- what an encoded row says ----

  lemma {:induction false} TextAt(row: Row, i: nat)
    requires i < |row| && row[i].ctype == Text && !row[i].isNull
    ensures var s := |Texts(row[..i])|;
            s + |row[i].text| <= |Texts(row)| && Texts(row)[s..s + |row[i].text|] == TextBytes(row[i].text)
  {
    hide Texts;
    TextsNext(row, i);
    TextsPrefix(row, i + 1);
    var s, n := |Texts(row[..i])|, |row[i].text|;
    assert Texts(row)[s..s + n] == Texts(row)[..|Texts(row[..i + 1])|][s..s + n] == TextBytes(row[i].text);
  }

  /** The texts of a row's first columns come first. */
  lemma {:induction false} TextsPrefix(row: Row, i: nat)
    requires i <= |row|
    ensures |Texts(row[..i])| <= |Texts(row)| && Texts(row)[..|Texts(row[..i])|] == Texts(row[..i])
  {
    if i == |row| {
      assert row[..i] == row;
    } else {
      assert row[..|row| - 1][..i] == row[..i];
      TextsPrefix(row[..|row| - 1], i);
    }
  }

  /** A value's bytes in its slot: an integer in two's complement, a truth value as one byte,
      a text as where it begins among the texts, cut to 16 bits, and how long it is; integers
      least significant byte first. */
  ghost predicate InSlot(f: Field, start: nat, rec: seq<byte>, off: nat, bits: RealBits) {
    match f.ctype
    case Int64 => Eight(rec, off) == if f.i64 < 0 then f.i64 + WORD64 else f.i64
    case Int32 => Four(rec, off) == if f.i64 < 0 then f.i64 + WORD32 else f.i64
    case Bool => off < |rec| && rec[off] as int == f.i64
    case Double => Eight(rec, off) == bits.to(f.f64)
    case Text => Two(rec, off) == start % 0x1_0000 && Two(rec, off + 2) == |f.text|
  }

  /** What lies where in a record: a bit for each column that says if it is NULL; a slot for
      each, of its type's width, zeros for NULL; and the texts, one after another. */
  lemma EncodesMean(types: seq<ColType>, row: Row, rec: seq<byte>, j: nat, bits: RealBits)
    requires RowOk(types, row, bits) && Exact(bits) && Encodes(types, row, rec, bits) && j < |row| && !TooLong(row[j])
    ensures NullAt(rec, j) <==> row[j].isNull
    ensures SlotOffset(types, j) == (|types| + 7) / 8 + Widths(types[..j])
    ensures var off, w := SlotOffset(types, j), SlotWidth(types[j]);
            && off + w <= VarStart(types) <= |rec|
            && if row[j].isNull then rec[off..off + w] == Zeros(w) else InSlot(row[j], |Texts(row[..j])|, rec, off, bits)
    ensures row[j].ctype == Text && !row[j].isNull ==>
              var at := VarStart(types) + |Texts(row[..j])|; at + |row[j].text| <= |rec| && rec[at..at + |row[j].text|] == TextBytes(row[j].text)
  {
    hide Bit, Texts, SlotOffset, LoadInt, TextBytes, InSlot, Widths, SlotBytes;
    var out :| Encoded(types, row, out, Texts(row), |row|, bits) && rec == out + Texts(row);
    var off, w, f, start := SlotOffset(types, j), SlotWidth(types[j]), row[j], |Texts(row[..j])|;
    OffsetMeans(types, j);
    SlotsInside(types, j);
    assert FieldOk(types[j], f, bits);
    assert j / 8 < NullBytes(|types|) && ByteAt(rec, j / 8) == ByteAt(out, j / 8);
    assert SlotHolds(types, row, out, j, |row|, bits);
    assert rec[off..off + w] == out[off..off + w];
    if !f.isNull {
      BytesInSlot(f, start, rec, off, bits);
      if f.ctype == Text {
        TextAt(row, j);
        assert rec[|out| + start..|out| + start + |f.text|] == Texts(row)[start..start + |f.text|];
      }
    }
  }

  lemma BytesInSlot(f: Field, start: nat, rec: seq<byte>, off: nat, bits: RealBits)
    requires FieldOk(f.ctype, f, bits) && !f.isNull && !TooLong(f) && Exact(bits)
    requires off + SlotWidth(f.ctype) <= |rec| && rec[off..off + SlotWidth(f.ctype)] == SlotBytes(f, start, bits)
    ensures InSlot(f, start, rec, off, bits)
  {
    hide LoadInt, IntBytes, Two, Four, Eight;
    Powers();
    LoadMeans(rec, off);
    LoadMeans(rec, off + 2);
    match f.ctype
    case Int64 => LoadBytes(rec, off, Unsigned(f.i64, WORD64), 8);
    case Int32 => LoadBytes(rec, off, Unsigned(f.i64, WORD32), 4);
    case Bool => assert rec[off] == rec[off..off + 1][0];
    case Double => LoadBytes(rec, off, bits.to(f.f64), 8);
    case Text =>
      assert rec[off..off + 2] == rec[off..off + 4][..2] && rec[off + 2..off + 4] == rec[off..off + 4][2..];
      LoadBytes(rec, off, start % 0x1_0000, 2);
      LoadBytes(rec, off + 2, |f.text| % 0x1_0000, 2);
  }

  /** A column of an encoded row reads back, unless it is a text that begins where its
      pointer cannot say. */
  lemma {:induction false} ReadsBack(types: seq<ColType>, row: Row, out: seq<byte>, i: nat, bits: RealBits)
    requires RowOk(types, row, bits) && Exact(bits) && Encoded(types, row, out, Texts(row), |row|, bits) && i < |types|
    requires types[i] == Text && !row[i].isNull ==> |Texts(row[..i])| < 0x1_0000
    requires forall j | 0 <= j < |row| :: !TooLong(row[j])
    ensures VarStart(types) <= |out + Texts(row)| && Column(types, out + Texts(row), i, bits) == Some(row[i])
  {
    hide Bit, Texts, SlotOffset, LoadInt, Load16, TextBytes, BytesText, SlotHolds, ReadAt;
    var rec := out + Texts(row);
    SlotsInside(types, i);
    assert FieldOk(types[i], row[i], bits);
    assert i / 8 < NullBytes(|types|) && ByteAt(rec, i / 8) == ByteAt(out, i / 8);
    assert NullAt(rec, i) <==> NullAt(out, i);
    if !row[i].isNull { ValueReads(types, row, out, i, bits); }
  }

  lemma {:induction false} ValueReads(types: seq<ColType>, row: Row, out: seq<byte>, i: nat, bits: RealBits)
    requires RowOk(types, row, bits) && Exact(bits) && Encoded(types, row, out, Texts(row), |row|, bits) && i < |types|
    requires !row[i].isNull && !TooLong(row[i]) && (types[i] == Text ==> |Texts(row[..i])| < 0x1_0000)
    ensures ReadAt(types, out + Texts(row), i, SlotOffset(types, i), bits) == Some(row[i])
  {
    hide Bit, Texts, SlotOffset, LoadInt, Load16, TextBytes, BytesText, NullAt;
    var rec := out + Texts(row);
    SlotsInside(types, i);
    assert FieldOk(types[i], row[i], bits);
    assert SlotHolds(types, row, out, i, |row|, bits);
    SlotKept(types, row, out, rec, i, |row|, |row|, bits);
    SlotReads(types, row, rec, i, bits);
    if types[i] == Text {
      TextAt(row, i);
      TextAgain(row[i].text);
      var s := |Texts(row[..i])|;
      assert rec[|out| + s..|out| + s + |row[i].text|] == Texts(row)[s..s + |row[i].text|];
    }
  }

  // ---- decoding ----

  /** The whole row, or None if any column is cut short. */
  function Columns(types: seq<ColType>, rec: seq<byte>, n: nat, bits: RealBits): Option<Row>
    requires n <= |types|
  {
    if n == 0 then Some([])
    else
      match (Columns(types, rec, n - 1, bits), Column(types, rec, n - 1, bits))
      case (Some(row), Some(f)) => Some(row + [f])
      case _ => None
  }

  lemma {:induction false} ColumnsFail(types: seq<ColType>, rec: seq<byte>, n: nat, m: nat, bits: RealBits)
    requires n <= m <= |types| && Columns(types, rec, n, bits) == None
    ensures Columns(types, rec, m, bits) == None
    decreases m
  {
    hide Column;
    if n < m { ColumnsFail(types, rec, n, m - 1, bits); }
  }

  lemma {:induction false} ColumnsAre(types: seq<ColType>, rec: seq<byte>, n: nat, bits: RealBits, row: Row)
    requires n <= |types| == |row| && forall i | 0 <= i < n :: Column(types, rec, i, bits) == Some(row[i])
    ensures Columns(types, rec, n, bits) == Some(row[..n])
  {
    hide Column;
    if n > 0 {
      ColumnsAre(types, rec, n - 1, bits, row);
      assert row[..n] == row[..n - 1] + [row[n - 1]];
    }
  }

  /** One column, without touching the rest. */
  method Project(types: seq<ColType>, rec: seq<byte>, col: nat, bits: RealBits) returns (f: Option<Field>)
    ensures f == if col >= |types| || |rec| < NullBytes(|types|) then None else Column(types, rec, col, bits)
  {
    if col >= |types| || |rec| < NullBytes(|types|) { return None; }
    if NullAt(rec, col) { return Some(NullOf(types[col])); }
    f := ReadAt(types, rec, col, SlotOffset(types, col), bits);
  }

  method Decode(types: seq<ColType>, rec: seq<byte>, bits: RealBits) returns (row: Option<Row>)
    ensures row == if |rec| < NullBytes(|types|) then None else Columns(types, rec, |types|, bits)
  {
    hide ReadAt, NullAt, SlotOffset;
    if |rec| < NullBytes(|types|) { return None; }
    var out := [];
    for i := 0 to |types|
      invariant Columns(types, rec, i, bits) == Some(out)
    {
      if NullAt(rec, i) {
        out := out + [NullOf(types[i])];
        continue;
      }
      var f := ReadAt(types, rec, i, SlotOffset(types, i), bits);
      if f.None? {
        ColumnsFail(types, rec, i + 1, |types|, bits);
        return None;
      }
      out := out + [f.value];
    }
    row := Some(out);
  }

  /** Where each column lies, worked out once. */
  datatype RecordLayout = RecordLayout(types: seq<ColType>, slot: seq<nat>, nulls: nat, varStart: nat)

  ghost predicate LayoutOk(l: RecordLayout) {
    && |l.slot| == |l.types| && l.nulls == NullBytes(|l.types|) && l.varStart == VarStart(l.types)
    && forall i | 0 <= i < |l.types| :: l.slot[i] == SlotOffset(l.types, i)
  }

  method MakeLayout(types: seq<ColType>) returns (l: RecordLayout)
    ensures LayoutOk(l) && l.types == types
  {
    var slot, off := [], NullBytes(|types|);
    OffsetEnds(types);
    for i := 0 to |types|
      invariant |slot| == i && off == SlotOffset(types, i) && forall j | 0 <= j < i :: slot[j] == SlotOffset(types, j)
    {
      OffsetNext(types, i);
      slot := slot + [off];
      off := off + SlotWidth(types[i]);
    }
    l := RecordLayout(types, slot, NullBytes(|types|), VarStart(types));
  }

  /** A value read where the layout says, from a record that has its fixed part. */
  method ReadSlot(l: RecordLayout, rec: seq<byte>, i: nat, bits: RealBits) returns (f: Option<Field>)
    requires LayoutOk(l) && |rec| >= l.varStart && i < |l.types|
    ensures f == ReadAt(l.types, rec, i, SlotOffset(l.types, i), bits)
  {
    SlotsInside(l.types, i);
    if l.types[i] != Text { return Some(ReadFixed(l.types[i], rec, l.slot[i], bits)); }
    var start, len := l.varStart + Load16(rec, l.slot[i]), Load16(rec, l.slot[i] + 2);
    if start + len > |rec| { return None; }
    f := Some(Field(Text, false, 0, 0.0, BytesText(rec[start..start + len])));
  }

  /** The same as decoding, into a row that already exists; on a failure the row is left
      half written. */
  method DecodeInto(l: RecordLayout, rec: seq<byte>, row: array<Field>, bits: RealBits) returns (ok: bool)
    requires LayoutOk(l) && row.Length == |l.types|
    modifies row
    ensures ok <==> |rec| >= VarStart(l.types) && Columns(l.types, rec, |l.types|, bits).Some?
    ensures ok ==> Columns(l.types, rec, |l.types|, bits) == Some(row[..])
  {
    hide ReadAt, NullAt, SlotOffset;
    if |rec| < l.varStart { return false; }
    for i := 0 to |l.types|
      invariant Columns(l.types, rec, i, bits) == Some(row[..i])
    {
      if NullAt(rec, i) {
        row[i] := NullOf(l.types[i]);
      } else {
        var f := ReadSlot(l, rec, i, bits);
        if f.None? {
          ColumnsFail(l.types, rec, i + 1, |l.types|, bits);
          return false;
        }
        row[i] := f.value;
      }
      assert row[..i + 1] == row[..i] + [row[i]];
    }
    assert row[..|l.types|] == row[..];
    ok := true;
  }

  /** Some records, a column at a time: `cols[c][r]` is column `c` of record `r`. */
  method DecodeRun(l: RecordLayout, recs: seq<seq<byte>>, bits: RealBits) returns (cols: Option<seq<seq<Field>>>)
    requires LayoutOk(l)
    ensures cols.None? <==> exists r :: 0 <= r < |recs| && (|recs[r]| < VarStart(l.types) || CutShort(l.types, recs[r], bits))
    ensures cols.Some? ==> |cols.value| == |l.types| && forall c | 0 <= c < |l.types| :: ColumnOf(l.types, recs, c, cols.value[c], |recs|, bits)
  {
    hide ReadAt, NullAt, SlotOffset, CutShort;
    for r := 0 to |recs|
      invariant forall j | 0 <= j < r :: |recs[j]| >= VarStart(l.types)
    {
      if |recs[r]| < l.varStart { return None; }
    }
    var out := [];
    for c := 0 to |l.types|
      invariant |out| == c && forall k | 0 <= k < c :: ColumnOf(l.types, recs, k, out[k], |recs|, bits)
    {
      var col := [];
      for r := 0 to |recs|
        invariant ColumnOf(l.types, recs, c, col, r, bits)
      {
        if NullAt(recs[r], c) {
          col := col + [NullOf(l.types[c])];
        } else {
          var f := ReadSlot(l, recs[r], c, bits);
          if f.None? {
            CutAt(l.types, recs[r], c, bits);
            return None;
          }
          col := col + [f.value];
        }
      }
      out := out + [col];
    }
    NoneCut(l.types, recs, out, bits);
    cols := Some(out);
  }

  /** The first `n` values of a column. */
  ghost predicate ColumnOf(types: seq<ColType>, recs: seq<seq<byte>>, c: nat, col: seq<Field>, n: nat, bits: RealBits) {
    c < |types| && |col| == n <= |recs| && forall r | 0 <= r < n :: Column(types, recs[r], c, bits) == Some(col[r])
  }

  ghost predicate CutShort(types: seq<ColType>, rec: seq<byte>, bits: RealBits) { exists c | 0 <= c < |types| :: Column(types, rec, c, bits) == None }

  lemma CutAt(types: seq<ColType>, rec: seq<byte>, c: nat, bits: RealBits)
    requires c < |types| && Column(types, rec, c, bits) == None
    ensures CutShort(types, rec, bits)
  {
  }

  lemma NoneCut(types: seq<ColType>, recs: seq<seq<byte>>, cols: seq<seq<Field>>, bits: RealBits)
    requires |cols| == |types| && forall c | 0 <= c < |types| :: ColumnOf(types, recs, c, cols[c], |recs|, bits)
    ensures forall r | 0 <= r < |recs| :: !CutShort(types, recs[r], bits)
  {
    hide Column;
    forall r, c | 0 <= r < |recs| && 0 <= c < |types| ensures Column(types, recs[r], c, bits) != None {
      assert ColumnOf(types, recs, c, cols[c], |recs|, bits);
    }
  }

  /** Encoding, then decoding a column, a row or a run of one record, gives the row back:
      whatever columns are NULL, if every text begins within the first 65,536 bytes of
      the texts. */
  lemma {:induction false} RoundTrip(types: seq<ColType>, row: Row, out: seq<byte>, bits: RealBits)
    requires RowOk(types, row, bits) && Exact(bits) && Encoded(types, row, out, Texts(row), |row|, bits) && Fits(row)
    requires forall j | 0 <= j < |row| :: !TooLong(row[j])
    ensures var rec := out + Texts(row);
            && |rec| >= VarStart(types) >= NullBytes(|types|)
            && Columns(types, rec, |types|, bits) == Some(row) && !CutShort(types, rec, bits)
            && forall i | 0 <= i < |types| :: Column(types, rec, i, bits) == Some(row[i])
  {
    hide Column, Encoded, Texts, FieldOk, Fits;
    var rec := out + Texts(row);
    forall i | 0 <= i < |types| ensures Column(types, rec, i, bits) == Some(row[i]) {
      FitsAt(types, row, i, bits);
      ReadsBack(types, row, out, i, bits);
    }
    ColumnsAre(types, rec, |types|, bits, row);
    assert row[..|types|] == row;
    EncodedSize(types, row, out, bits);
  }

  lemma FitsAt(types: seq<ColType>, row: Row, i: nat, bits: RealBits)
    requires RowOk(types, row, bits) && Fits(row) && i < |types|
    ensures types[i] == Text && !row[i].isNull ==> |Texts(row[..i])| < 0x1_0000
  {
    hide Texts;
    assert FieldOk(types[i], row[i], bits);
  }

  lemma {:induction false} EncodedSize(types: seq<ColType>, row: Row, out: seq<byte>, bits: RealBits)
    requires Encoded(types, row, out, Texts(row), |row|, bits)
    ensures |out| == VarStart(types)
  {
  }

  /** A row whose texts take at most 65,535 bytes in all fits. */
  lemma {:induction false} SmallFits(row: Row)
    requires |Texts(row)| <= 0xFFFF
    ensures Fits(row)
  {
    forall i | 0 <= i < |row| ensures |Texts(row[..i])| <= |Texts(row)| { TextsPrefix(row, i); }
  }

  /** A text is read where its pointer, cut to 16 bits, says: it comes back exactly if the
      bytes there are its own. */
  lemma {:induction false} TextReads(types: seq<ColType>, row: Row, out: seq<byte>, i: nat, bits: RealBits)
    requires RowOk(types, row, bits) && Exact(bits) && Encoded(types, row, out, Texts(row), |row|, bits)
    requires i < |types| && types[i] == Text && !row[i].isNull && !TooLong(row[i])
    ensures var s, n := |Texts(row[..i])| % 0x1_0000, |row[i].text|;
            && s + n <= |Texts(row)|
            && Column(types, out + Texts(row), i, bits) == Some(TextField(BytesText(Texts(row)[s..s + n])))
            && (Column(types, out + Texts(row), i, bits) == Some(row[i]) <==> Texts(row)[s..s + n] == TextBytes(row[i].text))
  {
    hide Bit, Texts, SlotOffset, LoadInt, Load16;
    var rec, off := out + Texts(row), SlotOffset(types, i);
    SlotsInside(types, i);
    assert FieldOk(types[i], row[i], bits);
    assert forall k | 0 <= k < |out| :: ByteAt(rec, k) == ByteAt(out, k);
    assert i / 8 < NullBytes(|types|);
    assert NullAt(rec, i) <==> NullAt(out, i);
    assert SlotHolds(types, row, out, i, |row|, bits);
    SlotKept(types, row, out, rec, i, |row|, |row|, bits);
    SlotReads(types, row, rec, i, bits);
    TextAt(row, i);
    TextAgain(row[i].text);
    var s, n := |Texts(row[..i])| % 0x1_0000, |row[i].text|;
    assert rec[|out| + s..|out| + s + n] == Texts(row)[s..s + n];
    BytesAgain(Texts(row)[s..s + n]);
  }

  lemma BytesAgain(b: seq<byte>) ensures TextBytes(BytesText(b)) == b {}

  /** The bytes a text's pointer leads to, once cut to 16 bits, are its own. */
  predicate Own(row: Row, i: nat)
    requires i < |row|
  {
    row[i].ctype == Text && !row[i].isNull ==>
      var s, n := |Texts(row[..i])| % 0x1_0000, |row[i].text|;
      s + n <= |Texts(row)| && Texts(row)[s..s + n] == TextBytes(row[i].text)
  }

  /** A record always decodes; and it decodes to the row it was made of if and only if every
      text's pointer leads to the text's own bytes. */
  lemma {:induction false} ReadsBackIff(types: seq<ColType>, row: Row, rec: seq<byte>, bits: RealBits)
    requires RowOk(types, row, bits) && Exact(bits) && Encodes(types, row, rec, bits) && !AnyTooLong(row)
    ensures |row| == |types| && |rec| >= VarStart(types) && Columns(types, rec, |types|, bits).Some?
    ensures Columns(types, rec, |types|, bits) == Some(row) <==> forall i | 0 <= i < |row| :: Own(row, i)
  {
    hide Column, Columns, Encoded, Texts, FieldOk, TextBytes, Own, TooLong;
    var out :| Encoded(types, row, out, Texts(row), |row|, bits) && rec == out + Texts(row);
    EncodedSize(types, row, out, bits);
    var read := seq(|row|, i requires 0 <= i < |row| => Column(types, rec, i, bits));
    forall i | 0 <= i < |row| ensures read[i].Some? && (read[i] == Some(row[i]) <==> Own(row, i)) { ColumnIff(types, row, out, i, bits); }
    var got := seq(|row|, i requires 0 <= i < |row| => read[i].value);
    ColumnsAre(types, rec, |types|, bits, got);
    assert got[..|types|] == got;
    if got == row { forall i | 0 <= i < |row| ensures Own(row, i) { assert read[i] == Some(got[i]); } }
    if forall i | 0 <= i < |row| :: Own(row, i) {
      forall i | 0 <= i < |row| ensures got[i] == row[i] { assert Own(row, i); }
    }
  }

  lemma {:induction false} ColumnIff(types: seq<ColType>, row: Row, out: seq<byte>, i: nat, bits: RealBits)
    requires RowOk(types, row, bits) && Exact(bits) && Encoded(types, row, out, Texts(row), |row|, bits)
    requires i < |row| && forall j | 0 <= j < |row| :: !TooLong(row[j])
    ensures Column(types, out + Texts(row), i, bits).Some?
    ensures Column(types, out + Texts(row), i, bits) == Some(row[i]) <==> Own(row, i)
  {
    TypeIs(types, row, i, bits);
    hide RowOk, Column, Encoded, Texts, FieldOk, TextBytes, BytesText;
    var f := row[i];
    if f.ctype == Text && !f.isNull { TextReads(types, row, out, i, bits); }
    else { ReadsBack(types, row, out, i, bits); }
  }

  lemma TypeIs(types: seq<ColType>, row: Row, i: nat, bits: RealBits)
    requires RowOk(types, row, bits) && i < |row|
    ensures |row| == |types| && (!row[i].isNull ==> row[i].ctype == types[i])
  {
    assert FieldOk(types[i], row[i], bits);
  }

  function TextField(t: string): Field { Field(Text, false, 0, 0.0, t) }

  // ---- from a row to bytes and back ----

  /** Encode a row, then read it every way there is: all of it, into a row that exists,
      and each column alone. */
  method RowReadsBack(types: seq<ColType>, row: Row, bits: RealBits, into: array<Field>)
      returns (rec: Option<seq<byte>>, whole: Option<Row>, ok: bool, parts: seq<Option<Field>>)
    requires RowOk(types, row, bits) && Exact(bits) && into.Length == |types|
    modifies into
    ensures rec.None? <==> AnyTooLong(row)
    ensures rec.Some? ==>
              && Encodes(types, row, rec.value, bits)
              && whole == (if |rec.value| < NullBytes(|types|) then None else Columns(types, rec.value, |types|, bits))
    ensures rec.Some? && Fits(row) ==> whole == Some(row) && ok && into[..] == row
    ensures rec.Some? && Fits(row) ==> |parts| == |row| && forall i | 0 <= i < |row| :: parts[i] == Some(row[i])
  {
    hide FieldOk, Encodes, AnyTooLong, Texts, Fits, Column, Columns;
    whole, ok, parts := None, false, [];
    rec := Encode(types, row, bits);
    if rec.None? { return; }
    var l := MakeLayout(types);
    if Fits(row) { AnyRoundTrip(types, row, rec.value, bits); }
    whole := Decode(types, rec.value, bits);
    ok := DecodeInto(l, rec.value, into, bits);
    for i := 0 to |types|
      invariant Fits(row) ==> into[..] == row
      invariant |parts| == i && (Fits(row) ==> forall k | 0 <= k < i :: parts[k] == Some(row[k]))
    {
      var f := Project(types, rec.value, i, bits);
      parts := parts + [f];
    }
  }

  lemma {:induction false} AnyRoundTrip(types: seq<ColType>, row: Row, rec: seq<byte>, bits: RealBits)
    requires RowOk(types, row, bits) && Exact(bits) && Encodes(types, row, rec, bits) && Fits(row) && !AnyTooLong(row)
    ensures |row| == |types| && |rec| >= VarStart(types) >= NullBytes(|types|)
    ensures Columns(types, rec, |types|, bits) == Some(row) && !CutShort(types, rec, bits)
    ensures forall i | 0 <= i < |types| :: Column(types, rec, i, bits) == Some(row[i])
  {
    hide Encoded, Texts, Fits, Column, Columns, TooLong, CutShort, FieldOk;
    var out :| Encoded(types, row, out, Texts(row), |row|, bits) && rec == out + Texts(row);
    RoundTrip(types, row, out, bits);
  }

  ghost predicate RowsFit(rows: seq<Row>) { forall r | 0 <= r < |rows| :: Fits(rows[r]) }

  /** Encode some rows, then decode their records a column at a time. */
  method RunReadsBack(types: seq<ColType>, rows: seq<Row>, bits: RealBits)
      returns (recs: seq<seq<byte>>, cols: Option<seq<seq<Field>>>)
    requires Exact(bits) && forall r | 0 <= r < |rows| :: RowOk(types, rows[r], bits) && !AnyTooLong(rows[r])
    ensures |recs| == |rows| && forall r | 0 <= r < |rows| :: Encodes(types, rows[r], recs[r], bits)
    ensures cols.Some? ==> |cols.value| == |types| && forall c | 0 <= c < |types| :: ColumnOf(types, recs, c, cols.value[c], |recs|, bits)
    ensures RowsFit(rows) ==> cols.Some? && |cols.value| == |types|
    ensures RowsFit(rows) ==> forall c | 0 <= c < |types| :: |cols.value[c]| == |rows|
    ensures RowsFit(rows) ==> forall c, r | 0 <= c < |types| && 0 <= r < |rows| :: |rows[r]| == |types| && cols.value[c][r] == rows[r][c]
  {
    hide RowOk, Encodes, Texts, Fits, Column, Columns, AnyTooLong, CutShort;
    recs := [];
    for r := 0 to |rows|
      invariant |recs| == r && forall k | 0 <= k < r :: Encodes(types, rows[k], recs[k], bits)
    {
      var rec := EncodeFit(types, rows[r], bits);
      recs := recs + [rec];
    }
    var l := MakeLayout(types);
    if RowsFit(rows) {
      forall r | 0 <= r < |rows|
        ensures |recs[r]| >= VarStart(types) && !CutShort(types, recs[r], bits) && |rows[r]| == |types|
        ensures forall c | 0 <= c < |types| :: Column(types, recs[r], c, bits) == Some(rows[r][c])
      {
        AnyRoundTrip(types, rows[r], recs[r], bits);
      }
    }
    cols := DecodeRun(l, recs, bits);
    if RowsFit(rows) {
      forall c, r | 0 <= c < |types| && 0 <= r < |rows| ensures |cols.value[c]| == |rows| && cols.value[c][r] == rows[r][c] {
        assert ColumnOf(types, recs, c, cols.value[c], |recs|, bits);
      }
      forall c | 0 <= c < |types| ensures |cols.value[c]| == |rows| { assert ColumnOf(types, recs, c, cols.value[c], |recs|, bits); }
    }
  }

  method EncodeFit(types: seq<ColType>, row: Row, bits: RealBits) returns (rec: seq<byte>)
    requires RowOk(types, row, bits) && !AnyTooLong(row)
    ensures Encodes(types, row, rec, bits)
  {
    hide FieldOk, Encoded, Texts, TooLong;
    var r := Encode(types, row, bits);
    rec := r.value;
  }

  function Long(): string { seq(0xFFFF, k => 'a') }

  /** Not every row comes back: one whose texts take more than 65,536 bytes is encoded, and
      the text that begins past them is read as another's first byte. */
  method PointerWraps(bits: RealBits) returns (row: Row, rec: seq<byte>, read: Option<Field>)
    requires Exact(bits)
    ensures RowOk([Text, Text, Text], row, bits) && !AnyTooLong(row) && Encodes([Text, Text, Text], row, rec, bits)
    ensures read == Column([Text, Text, Text], rec, 2, bits)
    ensures row[2] == TextField("b") && read == Some(TextField("a"))
  {
    hide FieldOk, Encoded, Texts, Column, Encodes, AnyTooLong, Long;
    var types := [Text, Text, Text];
    row := [TextField(Long()), TextField("a"), TextField("b")];
    ThreeTexts(bits);
    rec := EncodeFit(types, row, bits);
    read := Project(types, rec, 2, bits);
    Wrapped(rec, bits);
  }

  lemma LongBegins() ensures TextBytes(Long())[0] == TextBytes("a")[0] {}

  lemma ThreeTexts(bits: RealBits)
    ensures var row := [TextField(Long()), TextField("a"), TextField("b")];
            RowOk([Text, Text, Text], row, bits) && !AnyTooLong(row) && Texts(row[..2]) == TextBytes(Long()) + TextBytes("a")
  {
    var row := [TextField(Long()), TextField("a"), TextField("b")];
    TextsNext(row, 0);
    TextsNext(row, 1);
    assert row[..0] == [] && Texts([]) == [];
    assert [] + TextBytes(Long()) == TextBytes(Long());
  }

  lemma {:induction false} Wrapped(rec: seq<byte>, bits: RealBits)
    requires Exact(bits) && Encodes([Text, Text, Text], [TextField(Long()), TextField("a"), TextField("b")], rec, bits)
    ensures Column([Text, Text, Text], rec, 2, bits) == Some(TextField("a")) && |rec| >= 1
  {
    var types, row := [Text, Text, Text], [TextField(Long()), TextField("a"), TextField("b")];
    hide Encoded, Texts, Column, Long, FieldOk;
    ThreeTexts(bits);
    var out :| Encoded(types, row, out, Texts(row), |row|, bits) && rec == out + Texts(row);
    assert |Texts(row[..2])| == 0x1_0000;
    TextReads(types, row, out, 2, bits);
    TextsPrefix(row, 2);
    LongBegins();
    assert Texts(row)[0] == Texts(row)[..0x1_0000][0] == TextBytes(Long())[0];
    assert Texts(row)[0..1] == TextBytes("a");
    TextAgain("a");
    EncodedSize(types, row, out, bits);
  }
}
