/** Bytes and the little-endian integers in them (src/common.hpp:55-95). */
module Bytes {
  newtype byte = x: int | 0 <= x < 256

  /** The byte at a position; beyond the end there is none, and 0 stands in. */
  function ByteAt(d: seq<byte>, i: nat): nat { if i < |d| then d[i] as nat else 0 }

  function Load16(d: seq<byte>, i: nat): (v: nat)
    ensures v < 0x1_0000
  {
    ByteAt(d, i) + 256 * ByteAt(d, i + 1)
  }

  function Low(v: nat): byte { (v % 256) as byte }

  function Store16(d: seq<byte>, i: nat, v: nat): (r: seq<byte>)
    requires i + 1 < |d|
    ensures |r| == |d|
  {
    d[i := Low(v)][i + 1 := Low(v / 256)]
  }

  /** What was stored is loaded; what does not overlap it is not touched. */
  lemma LoadStored(d: seq<byte>, i: nat, v: nat, j: nat)
    requires i + 1 < |d|
    ensures v < 0x1_0000 && i == j ==> Load16(Store16(d, i, v), j) == v
    ensures j + 1 < i || i + 1 < j ==> Load16(Store16(d, i, v), j) == Load16(d, j)
  {
  }

  lemma StoredAt(d: seq<byte>, i: nat, v: nat, k: nat)
    requires i + 1 < |d| && k < |d| && k != i && k != i + 1
    ensures Store16(d, i, v)[k] == d[k]
  {
  }

  lemma StoredElsewhere(d: seq<byte>, i: nat, v: nat, lo: nat, hi: nat)
    requires i + 1 < |d| && lo <= hi <= |d| && (hi <= i || i + 1 < lo)
    ensures Store16(d, i, v)[lo..hi] == d[lo..hi]
  {
  }

  /** Some bytes written over others. */
  function Blit(d: seq<byte>, at: nat, bytes: seq<byte>): (r: seq<byte>)
    requires at + |bytes| <= |d|
    ensures |r| == |d| && r[at..at + |bytes|] == bytes
    ensures forall i | 0 <= i < |d| && (i < at || at + |bytes| <= i) :: r[i] == d[i]
  {
    d[..at] + bytes + d[at + |bytes|..]
  }

  lemma BlitElsewhere(d: seq<byte>, at: nat, bytes: seq<byte>, lo: nat, hi: nat)
    requires at + |bytes| <= |d| && lo <= hi <= |d| && (hi <= at || at + |bytes| <= lo)
    ensures Blit(d, at, bytes)[lo..hi] == d[lo..hi]
  {
  }

  method StoreU16(a: array<byte>, i: nat, v: nat)
    requires i + 1 < a.Length
    modifies a
    ensures a[..] == Store16(old(a[..]), i, v)
  {
    a[i] := Low(v);
    a[i + 1] := Low(v / 256);
  }

  function LoadU16(a: array<byte>, i: nat): (v: nat)
    requires i + 1 < a.Length
    reads a
    ensures v == Load16(a[..], i)
  {
    a[i] as nat + 256 * a[i + 1] as nat
  }

  method Copy(a: array<byte>, at: nat, bytes: seq<byte>)
    requires at + |bytes| <= a.Length
    modifies a
    ensures a[..] == Blit(old(a[..]), at, bytes)
  {
    for k := 0 to |bytes|
      invariant a[..] == Blit(old(a[..]), at, bytes[..k])
    {
      a[at + k] := bytes[k];
    }
    assert bytes[..|bytes|] == bytes;
  }
}
