/** A page as records addressed by stable slot ids (src/slotted_page.hpp, src/page.hpp). */
module SlotLayout {
  import opened Bytes

  const PAGE_SIZE: nat := 4096
  const HEADER_SIZE: nat := 20
  const SLOT_SIZE: nat := 4
  const MAX_RECORD_SIZE: nat := PAGE_SIZE - HEADER_SIZE - SLOT_SIZE

  /** Where a cell lies; offset 0 marks a dead slot. */
  datatype Slot = Slot(off: nat, len: nat) {
    predicate Live() { off != 0 }
  }

  /** What the header and the directory say. */
  datatype Layout = Layout(slots: seq<Slot>, freeStart: nat, freeEnd: nat, frag: nat)

  function SlotPos(i: nat): nat { HEADER_SIZE + SLOT_SIZE * i }

  function SlotAt(d: seq<byte>, i: nat): Slot { Slot(Load16(d, SlotPos(i)), Load16(d, SlotPos(i) + 2)) }

  function SlotsOf(d: seq<byte>, n: nat): (s: seq<Slot>)
    ensures |s| == n
  {
    seq(n, i requires 0 <= i < n => SlotAt(d, i))
  }

  function LayoutOf(d: seq<byte>): Layout { Layout(SlotsOf(d, Load16(d, 6)), Load16(d, 8), Load16(d, 10), Load16(d, 12)) }

  function LiveBytes(slots: seq<Slot>): nat {
    if slots == [] then 0
    else LiveBytes(slots[..|slots| - 1]) + if slots[|slots| - 1].Live() then slots[|slots| - 1].len else 0
  }

  predicate Apart(s: Slot, t: Slot) { s.off + s.len <= t.off || t.off + t.len <= s.off }

  /** Every live cell lies in the cell area. */
  predicate InCells(slots: seq<Slot>, freeEnd: nat) {
    forall i | 0 <= i < |slots| && slots[i].Live() :: 0 < slots[i].len && freeEnd <= slots[i].off && slots[i].off + slots[i].len <= PAGE_SIZE
  }

  predicate Disjoint(slots: seq<Slot>) {
    forall i, j | 0 <= i < j < |slots| && slots[i].Live() && slots[j].Live() :: Apart(slots[i], slots[j])
  }

  /** The directory never ends in a dead slot. */
  predicate Trimmed(slots: seq<Slot>) { slots == [] || slots[|slots| - 1].Live() }

  /** The directory and the cell area meet nowhere, and the cell area is the live bytes
      and the fragments. */
  predicate Sound(l: Layout) {
    && l.freeStart == SlotPos(|l.slots|) <= l.freeEnd <= PAGE_SIZE
    && InCells(l.slots, l.freeEnd) && Disjoint(l.slots) && Trimmed(l.slots)
    && PAGE_SIZE - l.freeEnd == LiveBytes(l.slots) + l.frag
  }

  function Cell(d: seq<byte>, s: Slot): seq<byte>
    requires s.off + s.len <= |d|
  {
    d[s.off..s.off + s.len]
  }

  /** The records, by slot id. */
  function Records(d: seq<byte>, slots: seq<Slot>): map<nat, seq<byte>>
    requires InCells(slots, 0) && |d| == PAGE_SIZE
  {
    map i: nat | i < |slots| && slots[i].Live() :: Cell(d, slots[i])
  }

  /** The lowest dead slot, or their number. */
  function FirstDead(slots: seq<Slot>): (i: nat)
    ensures i <= |slots| && (forall j | 0 <= j < i :: slots[j].Live()) && (i < |slots| ==> !slots[i].Live())
  {
    if slots == [] then 0
    else if !slots[0].Live() then 0
    else
      var i := FirstDead(slots[1..]);
      assert forall j | 0 < j < 1 + i :: slots[j] == slots[1..][j - 1];
      1 + i
  }

  /** The bytes left if a record went in: every live cell, the record, and the directory
      with a slot more if no dead one is there to take. */
  predicate Fits(slots: seq<Slot>, size: nat) {
    var n := if FirstDead(slots) < |slots| then |slots| else |slots| + 1;
    SlotPos(n) + LiveBytes(slots) + size <= PAGE_SIZE
  }

  // ---- room ----

  /** The bytes of the records with slot ids below `n`. */
  function Total(records: map<nat, seq<byte>>, n: nat): nat {
    if n == 0 then 0 else Total(records, n - 1) + if n - 1 in records then |records[n - 1]| else 0
  }

  lemma {:induction false} LiveTotal(d: seq<byte>, slots: seq<Slot>, n: nat)
    requires InCells(slots, 0) && |d| == PAGE_SIZE && n <= |slots|
    ensures LiveBytes(slots[..n]) == Total(Records(d, slots), n)
  {
    if n > 0 {
      LiveTotal(d, slots, n - 1);
      assert slots[..n][..n - 1] == slots[..n - 1];
    }
  }

  lemma {:induction false} TotalWith(m: map<nat, seq<byte>>, i: nat, rec: seq<byte>, n: nat)
    requires i !in m
    ensures Total(m[i := rec], n) == Total(m, n) + if i < n then |rec| else 0
  {
    if n > 0 { TotalWith(m, i, rec, n - 1); }
  }

  lemma {:induction false} TotalPast(m: map<nat, seq<byte>>, n: nat, more: nat)
    requires n <= more && forall i | i in m :: i < n
    ensures Total(m, more) == Total(m, n)
  {
    if n < more { TotalPast(m, n, more - 1); }
  }

  /** A record that does not fit would fit on no page: none whatever holds the records there
      are, under their slot ids, and this one too under any other. */
  lemma NoRoom(d: seq<byte>, rec: seq<byte>, i: nat, e: seq<byte>)
    requires |d| == |e| == PAGE_SIZE && Sound(LayoutOf(d)) && Sound(LayoutOf(e))
    requires !Fits(LayoutOf(d).slots, |rec|) && i !in Records(d, LayoutOf(d).slots)
    ensures Records(e, LayoutOf(e).slots) != Records(d, LayoutOf(d).slots)[i := rec]
  {
    var slots, more := LayoutOf(d).slots, LayoutOf(e).slots;
    var m, all := Records(d, slots), Records(e, more);
    if all == m[i := rec] {
      hide LayoutOf, LiveBytes;
      assert i in all;
      if slots != [] { assert |slots| - 1 in m; assert |slots| - 1 in all; }
      assert FirstDead(slots) == |slots| ==> i >= |slots|;
      assert |more| >= (if FirstDead(slots) < |slots| then |slots| else |slots| + 1);
      SlotPositions(|more|, if FirstDead(slots) < |slots| then |slots| else |slots| + 1);
      LiveTotal(d, slots, |slots|);
      LiveTotal(e, more, |more|);
      assert slots[..|slots|] == slots && more[..|more|] == more;
      TotalPast(m, |slots|, |more|);
      TotalWith(m, i, rec, |more|);
    }
  }

  lemma SlotPositions(a: nat, b: nat) requires a >= b ensures SlotPos(a) >= SlotPos(b) {}

  // ---- what a write does to the layout ----

  lemma SlotsSame(d: seq<byte>, e: seq<byte>, n: nat)
    requires |d| == |e| == PAGE_SIZE && SlotPos(n) <= PAGE_SIZE && d[HEADER_SIZE..SlotPos(n)] == e[HEADER_SIZE..SlotPos(n)]
    ensures SlotsOf(d, n) == SlotsOf(e, n)
  {
    forall i | 0 <= i < n ensures SlotAt(d, i) == SlotAt(e, i) { SlotSame(d, e, n, i); }
  }

  lemma SlotSame(d: seq<byte>, e: seq<byte>, n: nat, i: nat)
    requires |d| == |e| == PAGE_SIZE && SlotPos(n) <= PAGE_SIZE && d[HEADER_SIZE..SlotPos(n)] == e[HEADER_SIZE..SlotPos(n)]
    requires i < n
    ensures SlotAt(d, i) == SlotAt(e, i)
  {
    var p, x, y := SlotPos(i), d[HEADER_SIZE..SlotPos(n)], e[HEADER_SIZE..SlotPos(n)];
    var k := p - HEADER_SIZE;
    assert d[p] == x[k] == y[k] == e[p];
    assert d[p + 1] == x[k + 1] == y[k + 1] == e[p + 1];
    assert d[p + 2] == x[k + 2] == y[k + 2] == e[p + 2];
    assert d[p + 3] == x[k + 3] == y[k + 3] == e[p + 3];
  }

  lemma LayoutSame(d: seq<byte>, e: seq<byte>)
    requires |d| == |e| == PAGE_SIZE && SlotPos(Load16(d, 6)) <= PAGE_SIZE && d[..SlotPos(Load16(d, 6))] == e[..SlotPos(Load16(d, 6))]
    ensures LayoutOf(d) == LayoutOf(e)
  {
    var n := SlotPos(Load16(d, 6));
    assert forall i | 0 <= i < n :: d[i] == d[..n][i] == e[..n][i] == e[i];
    assert d[HEADER_SIZE..n] == e[HEADER_SIZE..n];
    SlotsSame(d, e, Load16(d, 6));
  }

  /** A header field stored; `i` is 8, 10 or 12. */
  lemma StoreField(d: seq<byte>, i: nat, v: nat)
    requires |d| == PAGE_SIZE && SlotPos(Load16(d, 6)) <= PAGE_SIZE && v < 0x1_0000
    ensures LayoutOf(Store16(d, 8, v)) == LayoutOf(d).(freeStart := v)
    ensures LayoutOf(Store16(d, 10, v)) == LayoutOf(d).(freeEnd := v)
    ensures LayoutOf(Store16(d, 12, v)) == LayoutOf(d).(frag := v)
  {
    forall i | i == 8 || i == 10 || i == 12
      ensures SlotsOf(Store16(d, i, v), Load16(d, 6)) == SlotsOf(d, Load16(d, 6))
    {
      StoredElsewhere(d, i, v, HEADER_SIZE, SlotPos(Load16(d, 6)));
      SlotsSame(d, Store16(d, i, v), Load16(d, 6));
    }
  }

  lemma StoreCount(d: seq<byte>, n: nat)
    requires |d| == PAGE_SIZE && SlotPos(n) <= PAGE_SIZE
    ensures LayoutOf(Store16(d, 6, n)) == LayoutOf(d).(slots := SlotsOf(d, n))
  {
    StoredElsewhere(d, 6, n, HEADER_SIZE, SlotPos(n));
    SlotsSame(d, Store16(d, 6, n), n);
  }

  /** One slot of the directory set. */
  function WithSlot(d: seq<byte>, i: nat, s: Slot): seq<byte>
    requires SlotPos(i) + 3 < |d|
  {
    Store16(Store16(d, SlotPos(i), s.off), SlotPos(i) + 2, s.len)
  }

  lemma StoreSlot(d: seq<byte>, i: nat, s: Slot)
    requires |d| == PAGE_SIZE && SlotPos(Load16(d, 6)) <= PAGE_SIZE && i < Load16(d, 6) && s.off < 0x1_0000 && s.len < 0x1_0000
    ensures LayoutOf(WithSlot(d, i, s)) == LayoutOf(d).(slots := LayoutOf(d).slots[i := s])
  {
    var e, n, p := WithSlot(d, i, s), Load16(d, 6), SlotPos(i);
    var m := Store16(d, p, s.off);
    forall j | j == 6 || j == 8 || j == 10 || j == 12 ensures Load16(e, j) == Load16(d, j) {
      LoadStored(d, p, s.off, j);
      LoadStored(m, p + 2, s.len, j);
    }
    forall j | 0 <= j < n ensures SlotAt(e, j) == if i == j then s else SlotAt(d, j) { SlotStored(d, i, s, j); }
  }

  lemma SlotStored(d: seq<byte>, i: nat, s: Slot, j: nat)
    requires SlotPos(i) + 3 < |d| && s.off < 0x1_0000 && s.len < 0x1_0000
    ensures SlotAt(WithSlot(d, i, s), j) == if i == j then s else SlotAt(d, j)
  {
    var p, q := SlotPos(i), SlotPos(j);
    var m := Store16(d, p, s.off);
    LoadStored(d, p, s.off, q);
    LoadStored(m, p + 2, s.len, q);
    LoadStored(d, p, s.off, q + 2);
    LoadStored(m, p + 2, s.len, q + 2);
  }

  // ---- live bytes ----

  lemma {:induction false} LiveSet(slots: seq<Slot>, i: nat, s: Slot)
    requires i < |slots|
    ensures LiveBytes(slots[i := s]) + (if slots[i].Live() then slots[i].len else 0) == LiveBytes(slots) + if s.Live() then s.len else 0
  {
    var n := |slots| - 1;
    if i < n {
      assert slots[i := s][..n] == slots[..n][i := s];
      LiveSet(slots[..n], i, s);
    } else {
      assert slots[i := s][..n] == slots[..n];
    }
  }

  lemma {:induction false} LiveMore(slots: seq<Slot>, s: Slot)
    ensures LiveBytes(slots + [s]) == LiveBytes(slots) + if s.Live() then s.len else 0
  {
    assert (slots + [s])[..|slots|] == slots;
  }

  /** Fewer slots, no more bytes. */
  lemma {:induction false} LiveGrows(slots: seq<Slot>, n: nat)
    requires n <= |slots|
    ensures LiveBytes(slots[..n]) <= LiveBytes(slots)
  {
    if n == |slots| {
      assert slots[..n] == slots;
    } else {
      assert slots[..|slots| - 1][..n] == slots[..n];
      LiveGrows(slots[..|slots| - 1], n);
    }
  }

  lemma {:induction false} LiveAll(slots: seq<Slot>, i: nat)
    requires i < |slots| && slots[i].Live()
    ensures slots[i].len <= LiveBytes(slots)
  {
    if i < |slots| - 1 { LiveAll(slots[..|slots| - 1], i); }
  }

  lemma {:induction false} FirstDeadIs(slots: seq<Slot>, i: nat)
    requires i <= |slots| && (forall j | 0 <= j < i :: slots[j].Live()) && (i < |slots| ==> !slots[i].Live())
    ensures FirstDead(slots) == i
  {
  }

  // ---- insertion ----

  /** What the header says of the room left is what the cells leave. */
  lemma RoomMeans(l: Layout, size: nat)
    requires Sound(l)
    ensures var i := FirstDead(l.slots);
            && i <= |l.slots| && l.freeEnd >= l.freeStart
            && (Room(l, i, size) <==> l.freeEnd - l.freeStart >= size + if i < |l.slots| then 0 else SLOT_SIZE)
            && (Fits(l.slots, size) <==> l.freeEnd - l.freeStart + l.frag >= size + if i < |l.slots| then 0 else SLOT_SIZE)
            && (Fits(l.slots, size) ==> size <= MAX_RECORD_SIZE)
  {
    hide FirstDead;
    if FirstDead(l.slots) < |l.slots| { LiveAll(l.slots, |l.slots| - 1); }
  }

  /** The header and the directory with one more slot, its bytes not yet set. */
  function Extended(d: seq<byte>, n: nat): seq<byte>
    requires |d| == PAGE_SIZE
  {
    Store16(Store16(d, 6, n + 1), 8, SlotPos(n) + SLOT_SIZE)
  }

  /** The page after a record went into slot `i`. */
  function Inserted(d: seq<byte>, i: nat, rec: seq<byte>): (r: seq<byte>)
    requires |d| == PAGE_SIZE && Sound(LayoutOf(d)) && i <= Load16(d, 6) && |rec| <= Load16(d, 10) && SlotPos(i) + 3 < PAGE_SIZE
    ensures |r| == PAGE_SIZE
  {
    var off, n := Load16(d, 10) - |rec|, Load16(d, 6);
    var e := Store16(Blit(d, off, rec), 10, off);
    WithSlot(if i == n then Extended(e, n) else e, i, Slot(off, |rec|))
  }

  function SlotsAfter(slots: seq<Slot>, i: nat, s: Slot): seq<Slot>
    requires i <= |slots|
  {
    if i == |slots| then slots + [s] else slots[i := s]
  }

  /** Room enough between the directory and the cells. */
  predicate Room(l: Layout, i: nat, size: nat) { l.freeStart + (if i == |l.slots| then SLOT_SIZE else 0) + size <= l.freeEnd }

  lemma InsertedLayout(d: seq<byte>, i: nat, rec: seq<byte>)
    requires |d| == PAGE_SIZE && Sound(LayoutOf(d)) && i <= Load16(d, 6) && Room(LayoutOf(d), i, |rec|)
    ensures var l := LayoutOf(d);
            var off := l.freeEnd - |rec|;
            LayoutOf(Inserted(d, i, rec)) ==
              Layout(SlotsAfter(l.slots, i, Slot(off, |rec|)), if i == |l.slots| then l.freeStart + SLOT_SIZE else l.freeStart, off, l.frag)
  {
    hide Sound, LayoutOf, Store16, Blit, WithSlot, SlotsOf;
    LayoutIs(d);
    var l := LayoutOf(d);
    var off, n := l.freeEnd - |rec|, |l.slots|;
    var b := Blit(d, off, rec);
    BlitElsewhere(d, off, rec, 0, SlotPos(n));
    assert b[..SlotPos(n)] == b[0..SlotPos(n)] == d[0..SlotPos(n)] == d[..SlotPos(n)];
    LayoutSame(d, b);
    LayoutIs(b);
    StoreField(b, 10, off);
    var e := Store16(b, 10, off);
    LayoutIs(e);
    if i == n {
      ExtendedLayout(e, n);
      var f := Extended(e, n);
      LayoutIs(f);
      SlotsOfMore(e, n);
      StoreSlot(f, i, Slot(off, |rec|));
      assert (l.slots + [SlotAt(e, n)])[i := Slot(off, |rec|)] == l.slots + [Slot(off, |rec|)];
    } else {
      StoreSlot(e, i, Slot(off, |rec|));
    }
  }

  /** The parts of a sound page's layout. */
  lemma LayoutIs(d: seq<byte>)
    ensures var l := LayoutOf(d);
            |l.slots| == Load16(d, 6) && l.slots == SlotsOf(d, Load16(d, 6)) && l.freeStart == Load16(d, 8) && l.freeEnd == Load16(d, 10)
            && l.frag == Load16(d, 12) && l.freeEnd < 0x1_0000 && l.freeStart < 0x1_0000
    ensures Sound(LayoutOf(d)) ==>
              LayoutOf(d).freeStart == SlotPos(Load16(d, 6)) <= LayoutOf(d).freeEnd <= PAGE_SIZE
  {
  }

  lemma SlotsOfMore(d: seq<byte>, n: nat)
    ensures SlotsOf(d, n + 1) == SlotsOf(d, n) + [SlotAt(d, n)]
  {
  }

  lemma ExtendedLayout(e: seq<byte>, n: nat)
    requires |e| == PAGE_SIZE && Load16(e, 6) == n && SlotPos(n + 1) <= PAGE_SIZE
    ensures LayoutOf(Extended(e, n)) == Layout(SlotsOf(e, n + 1), SlotPos(n) + SLOT_SIZE, Load16(e, 10), Load16(e, 12))
  {
    hide LayoutOf, Store16, SlotsOf;
    StoreCount(e, n + 1);
    var f := Store16(e, 6, n + 1);
    LayoutIs(e);
    LayoutIs(f);
    StoreField(f, 8, SlotPos(n) + SLOT_SIZE);
  }

  /** The cells other slots had, and the header's other fields, are not touched. */
  lemma InsertedBytes(d: seq<byte>, i: nat, rec: seq<byte>, lo: nat, hi: nat)
    requires |d| == PAGE_SIZE && Sound(LayoutOf(d)) && i <= Load16(d, 6) && Room(LayoutOf(d), i, |rec|)
    ensures var e, off := Inserted(d, i, rec), Load16(d, 10) - |rec|;
            && |e| == PAGE_SIZE && e[off..off + |rec|] == rec && e[..6] == d[..6] && e[14..HEADER_SIZE] == d[14..HEADER_SIZE]
            && (Load16(d, 10) <= lo <= hi <= PAGE_SIZE ==> e[lo..hi] == d[lo..hi])
  {
    hide Sound, LayoutOf, Inserted;
    LayoutIs(d);
    var off := Load16(d, 10) - |rec|;
    var e := Inserted(d, i, rec);
    forall k | off <= k < PAGE_SIZE ensures e[k] == if k < off + |rec| then rec[k - off] else d[k] { InsertedByte(d, i, rec, k); }
    forall k | 0 <= k < 6 || 14 <= k < HEADER_SIZE ensures e[k] == d[k] { InsertedByte(d, i, rec, k); }
  }

  lemma InsertedByte(d: seq<byte>, i: nat, rec: seq<byte>, k: nat)
    requires |d| == PAGE_SIZE && Sound(LayoutOf(d)) && i <= Load16(d, 6) && Room(LayoutOf(d), i, |rec|)
    requires Load16(d, 10) - |rec| <= k < PAGE_SIZE || k < 6 || 14 <= k < HEADER_SIZE
    ensures var off := Load16(d, 10) - |rec|;
            Inserted(d, i, rec)[k] == if off <= k < off + |rec| then rec[k - off] else d[k]
  {
    hide Sound, LayoutOf, Store16, Blit;
    LayoutIs(d);
    var off, n, p := Load16(d, 10) - |rec|, Load16(d, 6), SlotPos(i);
    var b := Blit(d, off, rec);
    var e := Store16(b, 10, off);
    StoredAt(b, 10, off, k);
    var f := if i == n then Extended(e, n) else e;
    if i == n {
      StoredAt(e, 6, n + 1, k);
      StoredAt(Store16(e, 6, n + 1), 8, SlotPos(n) + SLOT_SIZE, k);
    }
    StoredAt(f, p, off, k);
    StoredAt(Store16(f, p, off), p + 2, |rec|, k);
    assert off <= k < off + |rec| ==> b[k] == b[off..off + |rec|][k - off];
  }

  lemma InsertedSound(l: Layout, i: nat, size: nat)
    requires Sound(l) && i == FirstDead(l.slots) && Room(l, i, size) && size > 0
    ensures var s := Slot(l.freeEnd - size, size);
            Sound(Layout(SlotsAfter(l.slots, i, s), if i == |l.slots| then l.freeStart + SLOT_SIZE else l.freeStart, s.off, l.frag))
  {
    var s := Slot(l.freeEnd - size, size);
    if i < |l.slots| { LiveSet(l.slots, i, s); } else { LiveMore(l.slots, s); }
  }

  /** A record more, at the slot it was given; every other record as before. */
  lemma InsertedRecords(d: seq<byte>, i: nat, rec: seq<byte>)
    requires |d| == PAGE_SIZE && Sound(LayoutOf(d)) && i == FirstDead(LayoutOf(d).slots) && Room(LayoutOf(d), i, |rec|) && rec != []
    ensures var e := Inserted(d, i, rec);
            && Sound(LayoutOf(e)) && i !in Records(d, LayoutOf(d).slots)
            && Records(e, LayoutOf(e).slots) == Records(d, LayoutOf(d).slots)[i := rec]
  {
    hide LayoutOf, Inserted, LiveBytes, FirstDead, Sound, Records;
    var l := LayoutOf(d);
    LayoutIs(d);
    SoundIs(l);
    var e, s := Inserted(d, i, rec), Slot(l.freeEnd - |rec|, |rec|);
    InsertedLayout(d, i, rec);
    InsertedSound(l, i, |rec|);
    SoundIs(LayoutOf(e));
    InsertedBytes(d, i, rec, 0, 0);
    forall k: nat | k < |l.slots| && l.slots[k].Live() ensures Cell(e, l.slots[k]) == Cell(d, l.slots[k]) {
      InsertedBytes(d, i, rec, l.slots[k].off, l.slots[k].off + l.slots[k].len);
    }
    RecordsAfter(d, e, l.slots, i, s);
  }

  lemma SoundIs(l: Layout)
    requires Sound(l)
    ensures InCells(l.slots, l.freeEnd) && InCells(l.slots, 0) && l.freeStart == SlotPos(|l.slots|) <= l.freeEnd <= PAGE_SIZE
    ensures PAGE_SIZE - l.freeEnd == LiveBytes(l.slots) + l.frag
    ensures FirstDead(l.slots) < |l.slots| ==> !l.slots[FirstDead(l.slots)].Live()
  {
  }

  lemma RecordsAfter(d: seq<byte>, e: seq<byte>, slots: seq<Slot>, i: nat, s: Slot)
    requires |d| == |e| == PAGE_SIZE && i <= |slots| && InCells(slots, 0) && InCells(SlotsAfter(slots, i, s), 0)
    requires (i < |slots| ==> !slots[i].Live()) && s.Live()
    requires forall k: nat | k < |slots| && slots[k].Live() :: Cell(e, slots[k]) == Cell(d, slots[k])
    ensures i !in Records(d, slots)
    ensures s.off + s.len <= PAGE_SIZE && Records(e, SlotsAfter(slots, i, s)) == Records(d, slots)[i := Cell(e, s)]
  {
    assert SlotsAfter(slots, i, s)[i] == s;
  }

  // ---- erasure ----

  function Trim(slots: seq<Slot>): (t: seq<Slot>)
    ensures Trimmed(t) && t <= slots && forall i | |t| <= i < |slots| :: !slots[i].Live()
  {
    if slots == [] || slots[|slots| - 1].Live() then slots else Trim(slots[..|slots| - 1])
  }

  lemma {:induction false} TrimBytes(slots: seq<Slot>)
    ensures LiveBytes(Trim(slots)) == LiveBytes(slots)
  {
    if slots != [] && !slots[|slots| - 1].Live() { TrimBytes(slots[..|slots| - 1]); }
  }

  lemma ErasedSound(l: Layout, i: nat)
    requires Sound(l) && i < |l.slots| && l.slots[i].Live()
    ensures var t := Trim(l.slots[i := Slot(0, 0)]);
            Sound(Layout(t, SlotPos(|t|), l.freeEnd, l.frag + l.slots[i].len)) && l.frag + l.slots[i].len <= PAGE_SIZE
  {
    LiveSet(l.slots, i, Slot(0, 0));
    TrimBytes(l.slots[i := Slot(0, 0)]);
  }

  /** The erased record is gone; every other is as before. */
  lemma ErasedRecords(d: seq<byte>, e: seq<byte>, slots: seq<Slot>, i: nat, lo: nat)
    requires |d| == |e| == PAGE_SIZE && i < |slots| && slots[i].Live() && InCells(slots, lo) && lo <= PAGE_SIZE && d[lo..] == e[lo..]
    requires InCells(Trim(slots[i := Slot(0, 0)]), 0) && InCells(slots, 0)
    ensures Records(e, Trim(slots[i := Slot(0, 0)])) == Records(d, slots) - {i}
  {
    var u, t := slots[i := Slot(0, 0)], Trim(slots[i := Slot(0, 0)]);
    forall k: nat | k < |slots| && slots[k].Live() ensures Cell(e, slots[k]) == Cell(d, slots[k]) { CellSame(d, e, lo, slots[k]); }
    assert forall k: nat | k < |t| :: t[k] == u[k];
    assert forall k: nat | k < |slots| :: u[k].Live() <==> k != i && slots[k].Live();
    assert forall k: nat | |t| <= k < |u| :: !u[k].Live();
    assert forall k: nat :: k in Records(e, t) <==> k in Records(d, slots) - {i};
  }

  lemma CellSame(d: seq<byte>, e: seq<byte>, lo: nat, s: Slot)
    requires |d| == |e| == PAGE_SIZE && lo <= s.off <= s.off + s.len <= PAGE_SIZE && d[lo..] == e[lo..]
    ensures Cell(e, s) == Cell(d, s)
  {
    assert forall k | lo <= k < PAGE_SIZE :: d[k] == d[lo..][k - lo] == e[lo..][k - lo] == e[k];
  }

  lemma {:induction false} TrimStep(slots: seq<Slot>, n: nat)
    requires n <= |slots| && Trim(slots) == Trim(slots[..n])
    ensures n > 0 && !slots[n - 1].Live() ==> Trim(slots) == Trim(slots[..n - 1])
    ensures n == 0 || slots[n - 1].Live() ==> Trim(slots) == slots[..n]
  {
    if n > 0 { assert slots[..n][..n - 1] == slots[..n - 1]; }
  }

  lemma NoRecord(d: seq<byte>, slots: seq<Slot>, i: nat)
    requires |d| == PAGE_SIZE && InCells(slots, 0)
    ensures i in Records(d, slots) <==> i < |slots| && slots[i].Live()
    ensures i in Records(d, slots) ==> slots[i].off + slots[i].len <= |d| && Records(d, slots)[i] == Cell(d, slots[i])
    ensures i !in Records(d, slots) ==> Records(d, slots) - {i} == Records(d, slots)
  {
  }

  lemma ErasedBytes(d: seq<byte>, i: nat, frag: nat, lo: nat)
    requires |d| == PAGE_SIZE && SlotPos(i) + SLOT_SIZE <= lo <= PAGE_SIZE
    ensures var e := WithSlot(Store16(d, 12, frag), i, Slot(0, 0));
            e[..6] == d[..6] && e[14..HEADER_SIZE] == d[14..HEADER_SIZE] && e[lo..] == d[lo..]
  {
    var e := WithSlot(Store16(d, 12, frag), i, Slot(0, 0));
    assert forall k | 0 <= k < 6 || 14 <= k < HEADER_SIZE || lo <= k < PAGE_SIZE :: e[k] == d[k];
  }

  lemma ErasedTail(d: seq<byte>, e: seq<byte>, lo: nat)
    requires |d| == |e| == PAGE_SIZE && HEADER_SIZE <= lo <= PAGE_SIZE
    ensures e[10..] == d[10..] ==> e[lo..] == d[lo..] && e[14..HEADER_SIZE] == d[14..HEADER_SIZE]
  {
    if e[10..] == d[10..] { assert forall k | 10 <= k < PAGE_SIZE :: e[k] == e[10..][k - 10] == d[10..][k - 10] == d[k]; }
  }

  /** A slot killed, then the directory trimmed. */
  lemma ErasedWhole(was: seq<byte>, e: seq<byte>, f: seq<byte>, l: Layout, i: nat)
    requires |was| == |e| == |f| == PAGE_SIZE && l == LayoutOf(was) && Sound(l) && i < |l.slots| && l.slots[i].Live()
    requires e[..6] == was[..6] && e[14..HEADER_SIZE] == was[14..HEADER_SIZE] && e[l.freeEnd..] == was[l.freeEnd..]
    requires f[..6] == e[..6] && f[10..] == e[10..]
    requires var t := Trim(l.slots[i := Slot(0, 0)]); LayoutOf(f) == Layout(t, SlotPos(|t|), l.freeEnd, l.frag + l.slots[i].len)
    ensures Sound(LayoutOf(f)) && Records(f, LayoutOf(f).slots) == Records(was, l.slots) - {i}
    ensures f[..6] == was[..6] && f[14..HEADER_SIZE] == was[14..HEADER_SIZE]
  {
    hide Sound, LayoutOf, LiveBytes, Trim, Records, InCells, Disjoint;
    ErasedSound(l, i);
    SoundIs(l);
    SoundIs(LayoutOf(f));
    ErasedTail(e, f, l.freeEnd);
    ErasedRecords(was, f, l.slots, i, l.freeEnd);
  }

  /** The slot count or the free start stored. */
  lemma HeaderStored(d: seq<byte>, i: nat, v: nat)
    requires |d| == PAGE_SIZE && (i == 6 || i == 8)
    ensures Store16(d, i, v)[..6] == d[..6] && Store16(d, i, v)[10..] == d[10..]
  {
  }

  lemma TrimOne(d: seq<byte>, l: Layout, n: nat)
    requires |d| == PAGE_SIZE && 0 < n <= |l.slots| && SlotPos(|l.slots|) <= PAGE_SIZE && LayoutOf(d) == l.(freeStart := SlotPos(n))
    requires SlotAt(d, n - 1).off == 0 && Trim(l.slots) == Trim(l.slots[..n])
    ensures SLOT_SIZE <= Load16(d, 8) && Trim(l.slots) == Trim(l.slots[..n - 1])
    ensures var e := Store16(d, 8, Load16(d, 8) - SLOT_SIZE);
            LayoutOf(e) == l.(freeStart := SlotPos(n - 1)) && e[..6] == d[..6] && e[10..] == d[10..] && Load16(e, 6) == |l.slots|
  {
    hide LayoutOf, Trim, Store16, SlotsOf;
    LayoutIs(d);
    SlotsOfAt(d, |l.slots|, n - 1);
    TrimStep(l.slots, n);
    StoreField(d, 8, Load16(d, 8) - SLOT_SIZE);
    HeaderStored(d, 8, Load16(d, 8) - SLOT_SIZE);
    LayoutIs(Store16(d, 8, Load16(d, 8) - SLOT_SIZE));
  }

  lemma SlotsOfFirst(d: seq<byte>, m: nat, n: nat)
    requires n <= m
    ensures SlotsOf(d, n) == SlotsOf(d, m)[..n]
  {
  }

  // ---- compaction ----

  /** The slots of cells packed against the end of the page, in slot order. */
  function Packed(slots: seq<Slot>): (r: seq<Slot>)
    requires LiveBytes(slots) <= PAGE_SIZE
    ensures |r| == |slots|
  {
    if slots == [] then []
    else
      var last := slots[|slots| - 1];
      Packed(slots[..|slots| - 1]) + [if last.Live() then Slot(PAGE_SIZE - LiveBytes(slots), last.len) else last]
  }

  lemma PackedMore(slots: seq<Slot>, i: nat)
    requires i < |slots| && LiveBytes(slots[..i + 1]) <= PAGE_SIZE
    ensures LiveBytes(slots[..i]) <= PAGE_SIZE
    ensures LiveBytes(slots[..i + 1]) == LiveBytes(slots[..i]) + if slots[i].Live() then slots[i].len else 0
    ensures Packed(slots[..i + 1]) == Packed(slots[..i]) +
            [if slots[i].Live() then Slot(PAGE_SIZE - LiveBytes(slots[..i + 1]), slots[i].len) else slots[i]]
  {
    assert slots[..i + 1][..i] == slots[..i];
  }

  lemma {:induction false} PackedSound(slots: seq<Slot>)
    requires LiveBytes(slots) < PAGE_SIZE && forall i | 0 <= i < |slots| && slots[i].Live() :: slots[i].len > 0
    ensures forall i | 0 <= i < |slots| :: Packed(slots)[i].Live() == slots[i].Live() && (slots[i].Live() ==> Packed(slots)[i].len == slots[i].len)
    ensures InCells(Packed(slots), PAGE_SIZE - LiveBytes(slots)) && Disjoint(Packed(slots)) && LiveBytes(Packed(slots)) == LiveBytes(slots)
  {
    hide Packed, LiveBytes, InCells, Disjoint;
    PackedLike(slots);
    PackedPlaces(slots);
    PackedBytes(slots);
  }

  lemma {:induction false} PackedLike(slots: seq<Slot>)
    requires LiveBytes(slots) < PAGE_SIZE
    ensures forall i | 0 <= i < |slots| :: Packed(slots)[i].Live() == slots[i].Live() && (slots[i].Live() ==> Packed(slots)[i].len == slots[i].len)
  {
    if slots != [] { PackedLike(slots[..|slots| - 1]); }
  }

  lemma {:induction false} PackedBytes(slots: seq<Slot>)
    requires LiveBytes(slots) < PAGE_SIZE
    ensures LiveBytes(Packed(slots)) == LiveBytes(slots)
  {
    if slots != [] {
      var n := |slots| - 1;
      PackedBytes(slots[..n]);
      LiveMore(Packed(slots[..n]), Packed(slots)[n]);
      assert Packed(slots) == Packed(slots[..n]) + [Packed(slots)[n]];
    }
  }

  lemma {:induction false} PackedPlaces(slots: seq<Slot>)
    requires LiveBytes(slots) < PAGE_SIZE && forall i | 0 <= i < |slots| && slots[i].Live() :: slots[i].len > 0
    ensures InCells(Packed(slots), PAGE_SIZE - LiveBytes(slots)) && Disjoint(Packed(slots))
  {
    if slots != [] {
      hide InCells, Disjoint;
      var n := |slots| - 1;
      assert forall i | 0 <= i < n :: slots[..n][i] == slots[i];
      PackedPlaces(slots[..n]);
      PackedNext(Packed(slots[..n]), PAGE_SIZE - LiveBytes(slots[..n]), Packed(slots)[n]);
      assert Packed(slots) == Packed(slots[..n]) + [Packed(slots)[n]];
    } else {
      NoSlots();
    }
  }

  lemma NoSlots() ensures InCells([], PAGE_SIZE) && Disjoint([]) && LiveBytes([]) == 0 && Packed([]) == [] {}

  lemma PackedNext(p: seq<Slot>, lo: nat, s: Slot)
    requires InCells(p, lo) && Disjoint(p) && lo <= PAGE_SIZE && (s.Live() ==> s.len > 0 && s.off + s.len == lo)
    ensures InCells(p + [s], if s.Live() then s.off else lo) && Disjoint(p + [s])
  {
  }

  /** How far a compaction has come: the first `i` slots point to their cells' new
      places, where the scratch page holds copies; the old cells still stand. */
  ghost predicate CompactedTo(was: seq<byte>, d: seq<byte>, scratch: seq<byte>, i: nat, pos: nat) {
    var slots := SlotsOf(was, Load16(was, 6));
    var dir := SlotPos(|slots|);
    && |was| == |d| == |scratch| == PAGE_SIZE && i <= |slots| && dir <= PAGE_SIZE && LiveBytes(slots[..i]) <= PAGE_SIZE
    && pos == PAGE_SIZE - LiveBytes(slots[..i])
    && d[..HEADER_SIZE] == was[..HEADER_SIZE] && d[dir..] == was[dir..]
    && SlotsOf(d, |slots|) == Packed(slots[..i]) + slots[i..]
    && CopiedTo(was, scratch, slots, i)
  }

  ghost predicate CopiedTo(was: seq<byte>, scratch: seq<byte>, slots: seq<Slot>, i: nat)
    requires i <= |slots| && LiveBytes(slots[..i]) <= PAGE_SIZE
  {
    forall j | 0 <= j < i && slots[j].Live() :: Copied(was, scratch, slots[j], Packed(slots[..i])[j])
  }

  predicate Copied(was: seq<byte>, scratch: seq<byte>, from: Slot, to: Slot) {
    && from.len == to.len && from.off + from.len <= |was| && to.off + to.len <= |scratch| && to.off != 0
    && Cell(scratch, to) == Cell(was, from)
  }

  lemma CompactStart(was: seq<byte>, scratch: seq<byte>)
    requires |was| == |scratch| == PAGE_SIZE && SlotPos(Load16(was, 6)) <= PAGE_SIZE
    ensures CompactedTo(was, was, scratch, 0, PAGE_SIZE)
  {
  }

  lemma CompactStep(was: seq<byte>, d: seq<byte>, scratch: seq<byte>, i: nat, pos: nat)
    requires CompactedTo(was, d, scratch, i, pos) && Sound(LayoutOf(was)) && i < Load16(was, 6)
    ensures SlotPos(i) + 3 < PAGE_SIZE && SlotAt(d, i) == SlotsOf(was, Load16(was, 6))[i]
    ensures var s := SlotAt(was, i);
            if s.Live() then
              && 0 < s.len < pos && s.off + s.len <= PAGE_SIZE
              && Cell(d, s) == Cell(was, s)
              && CompactedTo(was, WithSlot(d, i, Slot(pos - s.len, s.len)), Blit(scratch, pos - s.len, Cell(was, s)), i + 1, pos - s.len)
            else CompactedTo(was, d, scratch, i + 1, pos)
  {
    hide LayoutOf, SlotsOf, Store16, Blit, Packed, LiveBytes, Sound, CompactedTo, Copied, WithSlot, CopiedTo;
    LayoutIs(was);
    var l := LayoutOf(was);
    SoundIs(l);
    var slots, n, s := l.slots, |l.slots|, l.slots[i];
    Compacting(was, d, scratch, i, pos);
    SlotsOfAt(was, n, i);
    SlotsOfAt(d, n, i);
    assert (Packed(slots[..i]) + slots[i..])[i] == slots[i];
    LiveGrows(slots, i + 1);
    PackedMore(slots, i);
    if s.Live() {
      var to := Slot(pos - s.len, s.len);
      CellSame(was, d, SlotPos(n), s);
      SlotMoved(d, n, i, to);
      MovedSlots(slots, i, to);
      CopyMore(was, scratch, slots, i, pos, to);
      Compacted(was, WithSlot(d, i, to), Blit(scratch, to.off, Cell(was, s)), i + 1, to.off, slots);
    } else {
      MovedSlots(slots, i, s);
      CopySame(was, scratch, slots, i);
      Compacted(was, d, scratch, i + 1, pos, slots);
    }
  }

  lemma Compacting(was: seq<byte>, d: seq<byte>, scratch: seq<byte>, i: nat, pos: nat)
    requires CompactedTo(was, d, scratch, i, pos)
    ensures var slots := SlotsOf(was, Load16(was, 6));
            var dir := SlotPos(|slots|);
            && |was| == |d| == |scratch| == PAGE_SIZE && i <= |slots| && dir <= PAGE_SIZE && LiveBytes(slots[..i]) <= PAGE_SIZE
            && pos == PAGE_SIZE - LiveBytes(slots[..i]) && d[..HEADER_SIZE] == was[..HEADER_SIZE] && d[dir..] == was[dir..]
            && SlotsOf(d, |slots|) == Packed(slots[..i]) + slots[i..] && CopiedTo(was, scratch, slots, i)
  {
  }

  lemma Compacted(was: seq<byte>, d: seq<byte>, scratch: seq<byte>, i: nat, pos: nat, slots: seq<Slot>)
    requires slots == SlotsOf(was, Load16(was, 6)) && |was| == |d| == |scratch| == PAGE_SIZE && i <= |slots| && SlotPos(|slots|) <= PAGE_SIZE
    requires LiveBytes(slots[..i]) <= PAGE_SIZE && pos == PAGE_SIZE - LiveBytes(slots[..i])
    requires d[..HEADER_SIZE] == was[..HEADER_SIZE] && d[SlotPos(|slots|)..] == was[SlotPos(|slots|)..]
    requires SlotsOf(d, |slots|) == Packed(slots[..i]) + slots[i..] && CopiedTo(was, scratch, slots, i)
    ensures CompactedTo(was, d, scratch, i, pos)
  {
  }

  lemma SlotsOfAt(d: seq<byte>, n: nat, i: nat)
    requires i < n
    ensures |SlotsOf(d, n)| == n && SlotsOf(d, n)[i] == SlotAt(d, i)
  {
  }

  lemma SlotMoved(d: seq<byte>, n: nat, i: nat, s: Slot)
    requires |d| == PAGE_SIZE && i < n && SlotPos(n) <= PAGE_SIZE && s.off < 0x1_0000 && s.len < 0x1_0000
    ensures SlotPos(i) + 3 < PAGE_SIZE && |WithSlot(d, i, s)| == PAGE_SIZE
    ensures SlotsOf(WithSlot(d, i, s), n) == SlotsOf(d, n)[i := s]
    ensures WithSlot(d, i, s)[..HEADER_SIZE] == d[..HEADER_SIZE] && WithSlot(d, i, s)[SlotPos(n)..] == d[SlotPos(n)..]
  {
    var e := WithSlot(d, i, s);
    forall j | 0 <= j < n ensures SlotAt(e, j) == if i == j then s else SlotAt(d, j) { SlotStored(d, i, s, j); }
    assert forall k | 0 <= k < HEADER_SIZE || SlotPos(n) <= k < PAGE_SIZE :: e[k] == d[k];
  }

  lemma MovedSlots(slots: seq<Slot>, i: nat, to: Slot)
    requires i < |slots| && LiveBytes(slots[..i]) <= PAGE_SIZE
    ensures (Packed(slots[..i]) + slots[i..])[i := to] == Packed(slots[..i]) + [to] + slots[i + 1..]
    ensures to == slots[i] ==> Packed(slots[..i]) + slots[i..] == Packed(slots[..i]) + [to] + slots[i + 1..]
  {
    assert slots[i..] == [slots[i]] + slots[i + 1..];
  }

  lemma CopyMore(was: seq<byte>, scratch: seq<byte>, slots: seq<Slot>, i: nat, pos: nat, to: Slot)
    requires |was| == |scratch| == PAGE_SIZE && i < |slots| && LiveBytes(slots[..i + 1]) < PAGE_SIZE && LiveBytes(slots[..i]) <= PAGE_SIZE
    requires pos == PAGE_SIZE - LiveBytes(slots[..i]) && slots[i].Live() && CopiedTo(was, scratch, slots, i) && slots[i].len <= pos
    requires to == Slot(pos - slots[i].len, slots[i].len) && slots[i].off + slots[i].len <= PAGE_SIZE
    requires forall k | 0 <= k < |slots| && slots[k].Live() :: slots[k].len > 0
    ensures CopiedTo(was, Blit(scratch, to.off, Cell(was, slots[i])), slots, i + 1)
  {
    hide Packed, LiveBytes, Blit;
    PackedMore(slots, i);
    PackedSound(slots[..i]);
    var cell := Cell(was, slots[i]);
    var copy := Blit(scratch, to.off, cell);
    assert copy[to.off..to.off + |cell|] == cell;
    forall j | 0 <= j < i && slots[j].Live() ensures Copied(was, copy, slots[j], Packed(slots[..i + 1])[j]) {
      var at := Packed(slots[..i])[j];
      assert Copied(was, scratch, slots[j], at);
      assert slots[..i][j] == slots[j];
      BlitElsewhere(scratch, to.off, cell, at.off, at.off + at.len);
    }
  }

  lemma CopySame(was: seq<byte>, scratch: seq<byte>, slots: seq<Slot>, i: nat)
    requires i < |slots| && LiveBytes(slots[..i + 1]) <= PAGE_SIZE && LiveBytes(slots[..i]) <= PAGE_SIZE && !slots[i].Live() && CopiedTo(was, scratch, slots, i)
    ensures CopiedTo(was, scratch, slots, i + 1)
  {
    hide Packed, LiveBytes;
    PackedMore(slots, i);
  }

  /** The page after a compaction. */
  function Closed(d: seq<byte>, scratch: seq<byte>, pos: nat): (e: seq<byte>)
    requires |d| == |scratch| == PAGE_SIZE && pos <= PAGE_SIZE
    ensures |e| == PAGE_SIZE
  {
    Store16(Store16(Blit(d, pos, scratch[pos..]), 10, pos), 12, 0)
  }

  /** Fragments gone, every record as before. */
  lemma CompactEnd(was: seq<byte>, d: seq<byte>, scratch: seq<byte>, pos: nat)
    requires CompactedTo(was, d, scratch, Load16(was, 6), pos) && Sound(LayoutOf(was))
    ensures var e, l := Closed(d, scratch, pos), LayoutOf(was);
            && LiveBytes(l.slots) < PAGE_SIZE && LayoutOf(e) == Layout(Packed(l.slots), l.freeStart, PAGE_SIZE - LiveBytes(l.slots), 0)
            && Sound(LayoutOf(e)) && Records(e, LayoutOf(e).slots) == Records(was, l.slots)
            && e[..6] == was[..6] && e[14..HEADER_SIZE] == was[14..HEADER_SIZE]
  {
    hide LayoutOf, SlotsOf, Store16, Blit, Packed, LiveBytes, Sound, CompactedTo, Copied, CopiedTo, Closed, Records, InCells, Disjoint;
    LayoutIs(was);
    var l, n := LayoutOf(was), Load16(was, 6);
    SoundIs(l);
    Compacting(was, d, scratch, n, pos);
    assert l.slots[..n] == l.slots && Packed(l.slots) + l.slots[n..] == Packed(l.slots);
    var e := Closed(d, scratch, pos);
    CellsFilled(l.slots, l.freeEnd);
    PackedSound(l.slots);
    ClosedLayout(was, d, scratch, pos);
    ClosedBytes(d, scratch, pos);
    assert forall k | 0 <= k < 6 || 14 <= k < HEADER_SIZE :: e[k] == d[..HEADER_SIZE][k] == was[..HEADER_SIZE][k] == was[k];
    PackedTrim(l);
    CopiedRecords(was, e, scratch, l.slots, pos);
  }

  lemma CellsFilled(slots: seq<Slot>, lo: nat)
    requires InCells(slots, lo)
    ensures forall k | 0 <= k < |slots| && slots[k].Live() :: slots[k].len > 0
    ensures InCells(slots, 0)
  {
  }

  lemma PackedTrim(l: Layout)
    requires Sound(l) && LiveBytes(l.slots) < PAGE_SIZE
    ensures Sound(Layout(Packed(l.slots), l.freeStart, PAGE_SIZE - LiveBytes(l.slots), 0))
  {
    hide Packed, LiveBytes;
    PackedSound(l.slots);
  }

  lemma PackedFirstDead(l: Layout)
    requires Sound(l) && LiveBytes(l.slots) < PAGE_SIZE
    ensures FirstDead(Packed(l.slots)) == FirstDead(l.slots)
    ensures forall size: nat :: Fits(Packed(l.slots), size) <==> Fits(l.slots, size)
  {
    hide Packed, LiveBytes, FirstDead;
    PackedSound(l.slots);
    FirstDeadIs(Packed(l.slots), FirstDead(l.slots));
  }

  lemma ClosedLayout(was: seq<byte>, d: seq<byte>, scratch: seq<byte>, pos: nat)
    requires |was| == |d| == |scratch| == PAGE_SIZE && d[..HEADER_SIZE] == was[..HEADER_SIZE] && SlotPos(Load16(was, 6)) <= pos <= PAGE_SIZE
    ensures LayoutOf(Closed(d, scratch, pos)) == Layout(SlotsOf(d, Load16(was, 6)), Load16(was, 8), pos, 0)
  {
    hide LayoutOf, SlotsOf, Store16, Blit;
    assert forall k | 0 <= k < HEADER_SIZE :: d[k] == d[..HEADER_SIZE][k] == was[..HEADER_SIZE][k] == was[k];
    HeaderSame(was, d);
    LayoutIs(d);
    var b := Blit(d, pos, scratch[pos..]);
    BlitElsewhere(d, pos, scratch[pos..], 0, SlotPos(Load16(d, 6)));
    assert b[..SlotPos(Load16(d, 6))] == b[0..SlotPos(Load16(d, 6))] == d[..SlotPos(Load16(d, 6))];
    LayoutSame(d, b);
    LayoutIs(b);
    StoreField(b, 10, pos);
    LayoutIs(Store16(b, 10, pos));
    StoreField(Store16(b, 10, pos), 12, 0);
  }

  lemma HeaderSame(d: seq<byte>, e: seq<byte>)
    requires |d| == |e| == PAGE_SIZE && forall k | 0 <= k < HEADER_SIZE :: d[k] == e[k]
    ensures Load16(d, 6) == Load16(e, 6) && Load16(d, 8) == Load16(e, 8) && Load16(d, 10) == Load16(e, 10) && Load16(d, 12) == Load16(e, 12)
  {
  }

  lemma ClosedBytes(d: seq<byte>, scratch: seq<byte>, pos: nat)
    requires |d| == |scratch| == PAGE_SIZE && HEADER_SIZE <= pos <= PAGE_SIZE
    ensures var e := Closed(d, scratch, pos);
            && (forall k | pos <= k < PAGE_SIZE :: e[k] == scratch[k])
            && (forall k | 0 <= k < 10 || 14 <= k < HEADER_SIZE :: e[k] == d[k])
  {
    var b := Blit(d, pos, scratch[pos..]);
    assert forall k | pos <= k < PAGE_SIZE :: b[k] == b[pos..pos + |scratch[pos..]|][k - pos] == scratch[pos..][k - pos] == scratch[k];
  }

  lemma {:induction false} CopiedRecords(was: seq<byte>, e: seq<byte>, scratch: seq<byte>, slots: seq<Slot>, pos: nat)
    requires |was| == |e| == |scratch| == PAGE_SIZE && LiveBytes(slots) < PAGE_SIZE && pos == PAGE_SIZE - LiveBytes(slots)
    requires slots[..|slots|] == slots && CopiedTo(was, scratch, slots, |slots|) && InCells(slots, 0)
    requires forall k | pos <= k < PAGE_SIZE :: e[k] == scratch[k]
    ensures InCells(Packed(slots), 0) && Records(e, Packed(slots)) == Records(was, slots)
  {
    hide Packed, LiveBytes;
    PackedSound(slots);
    var p := Packed(slots);
    forall k: nat | k < |slots| && slots[k].Live() ensures Cell(e, p[k]) == Cell(was, slots[k]) {
      assert Copied(was, scratch, slots[k], p[k]);
      assert Cell(e, p[k]) == Cell(scratch, p[k]);
    }
  }

  /** A page formatted as an empty slotted one: what its header comes to hold. */
  function Formatted(d: seq<byte>, id: nat): (r: seq<byte>)
    requires |d| == PAGE_SIZE
    ensures |r| == PAGE_SIZE
  {
    var named := Store16(Store16(Store16(d, 0, id % 0x1_0000), 2, id / 0x1_0000), 4, 2);
    Store16(Store16(Bounded(named), 16, 0), 18, 0)
  }

  function Bounded(d: seq<byte>): (r: seq<byte>)
    requires |d| == PAGE_SIZE
    ensures |r| == PAGE_SIZE
  {
    Store16(Store16(Store16(Store16(d, 6, 0), 8, HEADER_SIZE), 10, PAGE_SIZE), 12, 0)
  }

  lemma BoundedHeader(d: seq<byte>)
    requires |d| == PAGE_SIZE
    ensures var r := Bounded(d); Load16(r, 6) == 0 && Load16(r, 8) == HEADER_SIZE && Load16(r, 10) == PAGE_SIZE && Load16(r, 12) == 0
    ensures Bounded(d)[..6] == d[..6] && Bounded(d)[20..] == d[20..]
  {
  }

  lemma FormattedHeader(d: seq<byte>, id: nat)
    requires |d| == PAGE_SIZE && id < 0x1_0000_0000
    ensures var r := Formatted(d, id);
            && Load16(r, 6) == 0 && Load16(r, 8) == HEADER_SIZE && Load16(r, 10) == PAGE_SIZE && Load16(r, 12) == 0
            && Load16(r, 0) + 0x1_0000 * Load16(r, 2) == id && Load16(r, 4) == 2 && r[20..] == d[20..]
            && Load16(r, 16) == Load16(r, 18) == 0
  {
    var a := Store16(d, 0, id % 0x1_0000);
    var b := Store16(a, 2, id / 0x1_0000);
    var c := Store16(b, 4, 2);
    LoadStored(d, 0, id % 0x1_0000, 0);
    LoadStored(a, 2, id / 0x1_0000, 0);
    LoadStored(b, 4, 2, 0);
    LoadStored(a, 2, id / 0x1_0000, 2);
    LoadStored(b, 4, 2, 2);
    LoadStored(b, 4, 2, 4);
    StoredElsewhere(d, 0, id % 0x1_0000, 20, PAGE_SIZE);
    StoredElsewhere(a, 2, id / 0x1_0000, 20, PAGE_SIZE);
    StoredElsewhere(b, 4, 2, 20, PAGE_SIZE);
    BoundedHeader(c);
    var e := Bounded(c);
    FirstSix(c, e);
    var f := Store16(e, 16, 0);
    Untouched(e, 16);
    Untouched(f, 18);
    LoadStored(e, 16, 0, 16);
    LoadStored(f, 18, 0, 16);
    LoadStored(f, 18, 0, 18);
  }

  lemma FirstSix(d: seq<byte>, e: seq<byte>)
    requires |d| == |e| == PAGE_SIZE && e[..6] == d[..6]
    ensures Load16(e, 0) == Load16(d, 0) && Load16(e, 2) == Load16(d, 2) && Load16(e, 4) == Load16(d, 4)
  {
    assert forall i | 0 <= i < 6 :: e[i] == e[..6][i] == d[..6][i] == d[i];
  }

  /** The link to the next page stored. */
  lemma Untouched(d: seq<byte>, at: nat)
    requires |d| == PAGE_SIZE && (at == 16 || at == 18)
    ensures var r := Store16(d, at, 0);
            && Load16(r, 0) == Load16(d, 0) && Load16(r, 2) == Load16(d, 2) && Load16(r, 4) == Load16(d, 4) && Load16(r, 6) == Load16(d, 6)
            && Load16(r, 8) == Load16(d, 8) && Load16(r, 10) == Load16(d, 10) && Load16(r, 12) == Load16(d, 12) && r[20..] == d[20..]
  {
  }

  lemma FormattedSound(d: seq<byte>, id: nat)
    requires |d| == PAGE_SIZE && id < 0x1_0000_0000
    ensures var r := Formatted(d, id);
            && Sound(LayoutOf(r)) && Records(r, LayoutOf(r).slots) == map[]
            && Load16(r, 0) + 0x1_0000 * Load16(r, 2) == id && Load16(r, 4) == 2 && r[20..] == d[20..]
            && Load16(r, 16) == Load16(r, 18) == 0
  {
    FormattedHeader(d, id);
    hide Formatted;
    assert SlotsOf(Formatted(d, id), 0) == [];
  }
}

module SlottedPages {
  import opened Wrappers
  import opened Bytes
  import opened SlotLayout

  class SlottedPage {
    const p: array<byte>

    ghost predicate Valid() reads p { p.Length == PAGE_SIZE && Sound(LayoutOf(p[..])) }

    /** The records, by slot id. */
    ghost function Contents(): map<nat, seq<byte>> reads p requires Valid() { Records(p[..], LayoutOf(p[..]).slots) }

    ghost function Slots(): seq<Slot> reads p { LayoutOf(p[..]).slots }

    /** The header fields other than the page's own bookkeeping. */
    ghost function Rest(): (seq<byte>, seq<byte>) reads p requires p.Length == PAGE_SIZE { (p[..6], p[14..HEADER_SIZE]) }

    /** Any page, made an empty slotted one. */
    constructor (p: array<byte>, id: nat)
      requires p.Length == PAGE_SIZE && id < 0x1_0000_0000
      modifies p
      ensures this.p == p && Valid() && Contents() == map[] && p[20..] == old(p[20..])
      ensures Load16(p[..], 0) + 0x1_0000 * Load16(p[..], 2) == id && Load16(p[..], 4) == 2
      ensures Load16(p[..], 16) == Load16(p[..], 18) == 0
    {
      this.p := p;
      new;
      StoreU16(p, 0, id % 0x1_0000);
      StoreU16(p, 2, id / 0x1_0000);
      StoreU16(p, 4, 2);
      StoreU16(p, 6, 0);
      StoreU16(p, 8, HEADER_SIZE);
      StoreU16(p, 10, PAGE_SIZE);
      StoreU16(p, 12, 0);
      StoreU16(p, 16, 0);
      StoreU16(p, 18, 0);
      FormattedSound(old(p[..]), id);
      hide Store16, Load16, LayoutOf, Sound, Records;
    }

    function SlotCount(): nat reads p requires p.Length == PAGE_SIZE { LoadU16(p, 6) }
    function FreeStart(): nat reads p requires p.Length == PAGE_SIZE { LoadU16(p, 8) }
    function FreeEnd(): nat reads p requires p.Length == PAGE_SIZE { LoadU16(p, 10) }
    function FragBytes(): nat reads p requires p.Length == PAGE_SIZE { LoadU16(p, 12) }
    function SlotOff(i: nat): nat reads p requires p.Length == PAGE_SIZE && SlotPos(i) + 3 < PAGE_SIZE { LoadU16(p, SlotPos(i)) }
    function SlotLen(i: nat): nat reads p requires p.Length == PAGE_SIZE && SlotPos(i) + 3 < PAGE_SIZE { LoadU16(p, SlotPos(i) + 2) }

    lemma InDirectory(i: nat)
      requires Valid() && i < SlotCount()
      ensures SlotPos(i) + 3 < PAGE_SIZE && |Slots()| == SlotCount() && Slots()[i] == Slot(SlotOff(i), SlotLen(i))
    {
    }

    method SetSlot(i: nat, s: Slot)
      requires p.Length == PAGE_SIZE && SlotPos(i) + 3 < PAGE_SIZE
      modifies p
      ensures p[..] == WithSlot(old(p[..]), i, s)
    {
      StoreU16(p, SlotPos(i), s.off);
      StoreU16(p, SlotPos(i) + 2, s.len);
    }

    method Read(slot: nat) returns (rec: Option<seq<byte>>)
      requires Valid()
      ensures rec == if slot in Contents() then Some(Contents()[slot]) else None
    {
      SoundIs(LayoutOf(p[..]));
      LayoutIs(p[..]);
      hide Sound, LayoutOf, SlotsOf, Records, Load16;
      NoRecord(p[..], Slots(), slot);
      if slot >= SlotCount() { return None; }
      InDirectory(slot);
      if SlotOff(slot) == 0 { return None; }
      rec := Some(p[SlotOff(slot)..SlotOff(slot) + SlotLen(slot)]);
    }

    /** A live cell copied to its new place, and its slot pointed there. */
    method MoveCell(scratch: array<byte>, i: nat, writePos: nat, ghost was: seq<byte>) returns (pos: nat)
      requires p.Length == scratch.Length == PAGE_SIZE && scratch != p && |was| == PAGE_SIZE && Sound(LayoutOf(was)) && i < Load16(was, 6)
      requires CompactedTo(was, p[..], scratch[..], i, writePos)
      modifies p, scratch
      ensures CompactedTo(was, p[..], scratch[..], i + 1, pos) && pos <= PAGE_SIZE
    {
      hide Sound, LayoutOf, CompactedTo, Packed, LiveBytes, WithSlot, Store16, Blit, SlotsOf;
      CompactStep(was, p[..], scratch[..], i, writePos);
      SlotsOfAt(was, Load16(was, 6), i);
      Compacting(was, p[..], scratch[..], i, writePos);
      var off := SlotOff(i);
      if off == 0 { return writePos; }
      var len := SlotLen(i);
      pos := writePos - len;
      Copy(scratch, pos, p[off..off + len]);
      SetSlot(i, Slot(pos, len));
    }

    /** The cell area holds the live cells only, packed against the end of the page. */
    method Compact()
      requires Valid()
      modifies p
      ensures Valid() && Contents() == old(Contents()) && Rest() == old(Rest())
      ensures LiveBytes(old(Slots())) < PAGE_SIZE && Slots() == Packed(old(Slots())) && FragBytes() == 0 && FreeStart() == old(FreeStart())
    {
      hide Sound, LayoutOf, CompactedTo, Packed, LiveBytes, Records, WithSlot, Store16, Blit;
      ghost var was := p[..];
      var scratch := new byte[PAGE_SIZE];
      LayoutIs(was);
      var writePos := MoveCells(scratch);
      CompactEnd(was, p[..], scratch[..], writePos);
      Copy(p, writePos, scratch[writePos..]);
      StoreU16(p, 10, writePos);
      StoreU16(p, 12, 0);
      ClosedIs(was, p[..]);
    }

    /** Every live cell, in slot order, below the one before it. */
    method MoveCells(scratch: array<byte>) returns (writePos: nat)
      requires Valid() && scratch.Length == PAGE_SIZE && scratch != p
      modifies p, scratch
      ensures CompactedTo(old(p[..]), p[..], scratch[..], Load16(old(p[..]), 6), writePos) && writePos <= PAGE_SIZE
    {
      hide Sound, LayoutOf, CompactedTo;
      ghost var was := p[..];
      LayoutIs(was);
      SoundIs(LayoutOf(was));
      CompactStart(was, scratch[..]);
      var n := SlotCount();
      writePos := PAGE_SIZE;
      for i := 0 to n
        invariant CompactedTo(was, p[..], scratch[..], i, writePos) && writePos <= PAGE_SIZE
      {
        writePos := MoveCell(scratch, i, writePos, was);
      }
    }

    /** The lowest dead slot, if there is one. */
    method FindDead() returns (i: nat)
      requires Valid()
      ensures i == FirstDead(Slots())
    {
      hide Sound, LayoutOf;
      LayoutIs(p[..]);
      var n := SlotCount();
      for k := 0 to n
        invariant |Slots()| == n && forall j | 0 <= j < k :: Slots()[j].Live()
      {
        InDirectory(k);
        if SlotOff(k) == 0 {
          FirstDeadIs(Slots(), k);
          return k;
        }
      }
      FirstDeadIs(Slots(), n);
      return n;
    }

    /** A record in the lowest dead slot, or in a new one; refused exactly when there is
        no room even with the fragments gone. */
    method Insert(rec: seq<byte>) returns (slot: Option<nat>)
      requires Valid()
      modifies p
      ensures Valid() && Rest() == old(Rest())
      ensures slot.None? <==> rec == [] || !Fits(old(Slots()), |rec|)
      ensures slot.None? ==> p[..] == old(p[..])
      ensures slot.Some? ==>
                && slot.value == FirstDead(old(Slots())) && slot.value !in old(Contents())
                && Contents() == old(Contents())[slot.value := rec]
    {
      hide Sound, LayoutOf, Inserted, Packed, LiveBytes, Records, FirstDead;
      ghost var l := LayoutOf(p[..]);
      LayoutIs(p[..]);
      RoomMeans(l, |rec|);
      if rec == [] || |rec| > MAX_RECORD_SIZE { return None; }
      var n := SlotCount();
      var i := FindDead();
      var need := |rec| + if i < n then 0 else SLOT_SIZE;
      if FreeEnd() - FreeStart() < need {
        if FreeEnd() - FreeStart() + FragBytes() < need { return None; }
        MakeRoom(|rec|);
      }
      LayoutIs(p[..]);
      InsertedRecords(p[..], i, rec);
      InsertedBytes(p[..], i, rec, 0, 0);
      Place(i, rec);
      slot := Some(i);
    }

    /** Space exists, fragmented: the cell area is rebuilt. */
    method MakeRoom(size: nat)
      requires Valid() && Fits(Slots(), size)
      modifies p
      ensures Valid() && Contents() == old(Contents()) && Rest() == old(Rest())
      ensures FirstDead(Slots()) == FirstDead(old(Slots())) && Room(LayoutOf(p[..]), FirstDead(Slots()), size)
      ensures |Slots()| == |old(Slots())|
    {
      hide Sound, LayoutOf, Packed, LiveBytes, Records, FirstDead;
      ghost var l := LayoutOf(p[..]);
      Compact();
      LayoutIs(p[..]);
      PackedFirstDead(l);
      RoomMeans(LayoutOf(p[..]), size);
    }

    method Place(i: nat, rec: seq<byte>)
      requires Valid() && i <= SlotCount() && Room(LayoutOf(p[..]), i, |rec|)
      modifies p
      ensures |rec| <= Load16(old(p[..]), 10) && SlotPos(i) + 3 < PAGE_SIZE && p[..] == Inserted(old(p[..]), i, rec)
    {
      hide Sound, LayoutOf, Blit, Store16, WithSlot;
      LayoutIs(p[..]);
      var n, off, start := SlotCount(), FreeEnd() - |rec|, FreeStart();
      Copy(p, off, rec);
      StoreU16(p, 10, off);
      if i == n {
        StoreU16(p, 6, n + 1);
        StoreU16(p, 8, start + SLOT_SIZE);
      }
      SetSlot(i, Slot(off, |rec|));
    }

    /** A record becomes a fragment and its slot dead; dead slots at the end of the
        directory give their bytes back. */
    method Erase(slot: nat) returns (ok: bool)
      requires Valid()
      modifies p
      ensures Valid() && Rest() == old(Rest())
      ensures ok <==> slot in old(Contents())
      ensures Contents() == old(Contents()) - {slot}
      ensures !ok ==> p[..] == old(p[..])
    {
      hide Sound, LayoutOf, LiveBytes, Trim, Records, InCells, Disjoint;
      ghost var was, l := p[..], LayoutOf(p[..]);
      LayoutIs(was);
      SoundIs(l);
      NoRecord(was, l.slots, slot);
      if slot >= SlotCount() { return false; }
      InDirectory(slot);
      if SlotOff(slot) == 0 { return false; }
      ErasedSound(l, slot);
      Kill(slot);
      LayoutIs(p[..]);
      ghost var e := p[..];
      TrimDirectory();
      ErasedWhole(was, e, p[..], l, slot);
      return true;
    }

    method Kill(slot: nat)
      requires Valid() && slot < SlotCount() && Slots()[slot].Live() && LayoutOf(p[..]).frag + Slots()[slot].len <= PAGE_SIZE
      modifies p
      ensures var l := old(LayoutOf(p[..]));
              LayoutOf(p[..]) == l.(slots := l.slots[slot := Slot(0, 0)], frag := l.frag + l.slots[slot].len)
      ensures p[..6] == old(p[..6]) && p[14..HEADER_SIZE] == old(p[14..HEADER_SIZE])
      ensures old(FreeEnd()) <= PAGE_SIZE && p[old(FreeEnd())..] == old(p[FreeEnd()..])
    {
      hide Sound, LayoutOf, WithSlot, Store16;
      ghost var was, l := p[..], LayoutOf(p[..]);
      LayoutIs(was);
      InDirectory(slot);
      var len := SlotLen(slot);
      StoreField(was, 12, FragBytes() + len);
      StoreU16(p, 12, FragBytes() + len);
      LayoutIs(p[..]);
      StoreSlot(p[..], slot, Slot(0, 0));
      SetSlot(slot, Slot(0, 0));
      ErasedBytes(was, slot, l.frag + len, l.freeEnd);
    }

    method TrimDirectory()
      requires p.Length == PAGE_SIZE && Load16(p[..], 8) == SlotPos(Load16(p[..], 6)) <= PAGE_SIZE
      modifies p
      ensures var l, t := old(LayoutOf(p[..])), Trim(old(Slots())); LayoutOf(p[..]) == Layout(t, SlotPos(|t|), l.freeEnd, l.frag)
      ensures p[..6] == old(p[..6]) && p[10..] == old(p[10..])
    {
      hide LayoutOf, Trim, Store16, SlotsOf;
      ghost var was, l := p[..], LayoutOf(p[..]);
      LayoutIs(was);
      var n := SlotCount();
      assert l.slots[..n] == l.slots;
      while n > 0 && SlotOff(n - 1) == 0
        invariant n <= |l.slots| && LayoutOf(p[..]) == l.(freeStart := SlotPos(n)) && Trim(l.slots) == Trim(l.slots[..n])
        invariant p[..6] == was[..6] && p[10..] == was[10..] && Load16(p[..], 6) == |l.slots|
      {
        TrimOne(p[..], l, n);
        n := n - 1;
        StoreU16(p, 8, FreeStart() - SLOT_SIZE);
      }
      LayoutIs(p[..]);
      if n > 0 { SlotsOfAt(p[..], |l.slots|, n - 1); }
      TrimStep(l.slots, n);
      StoreCount(p[..], n);
      HeaderStored(p[..], 6, n);
      SlotsOfFirst(p[..], |l.slots|, n);
      StoreU16(p, 6, n);
    }

    lemma ClosedIs(was: seq<byte>, d: seq<byte>)
      requires |was| == |d| == PAGE_SIZE
      ensures LayoutOf(d).freeStart == Load16(d, 8) && LayoutOf(d).frag == Load16(d, 12) && LayoutOf(was).freeStart == Load16(was, 8)
    {
    }
  }
}
