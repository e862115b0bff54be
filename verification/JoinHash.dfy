/** The table a hash join files its build rows in (src/join_hash.hpp). */
module JoinHash {
  import opened Exponents

  /** The ids of the first `n` rows that fall in bucket `b`, in order. */
  function Bucket(keys: seq<nat>, nb: nat, b: nat, n: nat): seq<nat>
    requires nb > 0 && n <= |keys|
  {
    if n == 0 then [] else Bucket(keys, nb, b, n - 1) + if keys[n - 1] % nb == b then [n - 1] else []
  }

  /** Where bucket `b` starts. */
  function Start(keys: seq<nat>, nb: nat, b: nat): nat
    requires nb > 0
  {
    if b == 0 then 0 else Start(keys, nb, b - 1) + |Bucket(keys, nb, b - 1, |keys|)|
  }

  lemma {:induction false} StartAscends(keys: seq<nat>, nb: nat, a: nat, b: nat)
    requires nb > 0 && a <= b
    ensures Start(keys, nb, a) <= Start(keys, nb, b)
    decreases b - a
  {
    if a < b { StartAscends(keys, nb, a, b - 1); }
  }

  lemma {:induction false} BucketGrows(keys: seq<nat>, nb: nat, b: nat, m: nat, n: nat)
    requires nb > 0 && m <= n <= |keys|
    ensures |Bucket(keys, nb, b, m)| <= |Bucket(keys, nb, b, n)|
    decreases n - m
  {
    if m < n { BucketGrows(keys, nb, b, m, n - 1); }
  }

  /** A bucket holds exactly its ids, ascending. */
  lemma {:induction false} BucketIds(keys: seq<nat>, nb: nat, b: nat, n: nat)
    requires nb > 0 && n <= |keys|
    ensures forall i: nat :: i in Bucket(keys, nb, b, n) <==> i < n && keys[i] % nb == b
    ensures forall i, j | 0 <= i < j < |Bucket(keys, nb, b, n)| :: Bucket(keys, nb, b, n)[i] < Bucket(keys, nb, b, n)[j]
  {
    if n > 0 {
      BucketIds(keys, nb, b, n - 1);
      var ids := Bucket(keys, nb, b, n - 1);
      forall j | 0 <= j < |ids| ensures ids[j] < n - 1 { assert ids[j] in ids; }
    }
  }

  /** The rows below `b`, counted by bucket. */
  function Counted(keys: seq<nat>, nb: nat, n: nat, b: nat): nat
    requires nb > 0 && n <= |keys|
  {
    if b == 0 then 0 else Counted(keys, nb, n, b - 1) + |Bucket(keys, nb, b - 1, n)|
  }

  lemma {:induction false} CountedOne(keys: seq<nat>, nb: nat, n: nat, b: nat)
    requires nb > 0 && 0 < n <= |keys|
    ensures Counted(keys, nb, n, b) == Counted(keys, nb, n - 1, b) + if keys[n - 1] % nb < b then 1 else 0
  {
    if b > 0 { CountedOne(keys, nb, n, b - 1); }
  }

  lemma {:induction false} CountedAll(keys: seq<nat>, nb: nat, n: nat)
    requires nb > 0 && n <= |keys|
    ensures Counted(keys, nb, n, nb) == n
  {
    if n > 0 {
      CountedAll(keys, nb, n - 1);
      CountedOne(keys, nb, n, nb);
    } else {
      CountedNone(keys, nb, nb);
    }
  }

  lemma {:induction false} CountedNone(keys: seq<nat>, nb: nat, b: nat)
    requires nb > 0
    ensures Counted(keys, nb, 0, b) == 0
  {
    if b > 0 { CountedNone(keys, nb, b - 1); }
  }

  lemma {:induction false} StartCounted(keys: seq<nat>, nb: nat, b: nat)
    requires nb > 0
    ensures Start(keys, nb, b) == Counted(keys, nb, |keys|, b)
  {
    if b > 0 { StartCounted(keys, nb, b - 1); }
  }

  /** Every row is in some bucket. */
  lemma {:induction false} StartEnds(keys: seq<nat>, nb: nat)
    requires nb > 0
    ensures Start(keys, nb, nb) == |keys|
  {
    StartCounted(keys, nb, nb);
    CountedAll(keys, nb, |keys|);
  }

  class JoinHashTable {
    const mix: nat -> nat
    var hashes: seq<nat>
    var nb: nat
    var offset: array<nat>
    var order: array<nat>

    ghost function Keys(): seq<nat> reads this { Mixed(hashes, mix) }

    /** Ready for probes. */
    ghost predicate Finished() reads this, offset, order {
      && nb > 0 && offset.Length == nb + 1 && order.Length == |hashes|
      && (forall b | 0 <= b <= nb :: offset[b] == Start(Keys(), nb, b))
      && (forall b | 0 <= b < nb :: Grouped(Keys(), nb, b, order[..]))
    }

    constructor (mix: nat -> nat)
      ensures this.mix == mix && hashes == []
    {
      this.mix := mix;
      hashes, nb, offset, order := [], 1, new nat[0], new nat[0];
    }

    /** File a row under its key's hash: its id is the number filed before it. */
    method Add(hash: nat)
      modifies this`hashes
      ensures hashes == old(hashes) + [hash]
    {
      hashes := hashes + [hash];
    }

    /** Choose the bucket count and group the ids by bucket. */
    method Finish()
      modifies this`nb, this`offset, this`order
      ensures Finished() && fresh(offset) && fresh(order)
      ensures exists k :: nb == Pow2(k)
      ensures nb >= |hashes| && (nb > 1 ==> nb < 2 * |hashes|)
    {
      nb := 1;
      ghost var k := 0;
      while nb < |hashes|
        invariant nb == Pow2(k) && nb >= 1 && (nb > 1 ==> nb < 2 * |hashes|)
        decreases |hashes| - nb
      {
        nb := 2 * nb;
        k := k + 1;
      }
      var keys := Mixed(hashes, mix);
      offset := CountBuckets(keys, nb);
      SumBuckets(keys, nb, offset);
      order := PlaceIds(keys, nb, offset);
      StartEnds(keys, nb);
    }

    /** The positions of the ids in the bucket a hash falls in. */
    method BucketRange(hash: nat) returns (pos: nat, end: nat)
      requires Finished()
      ensures pos <= end <= order.Length && order[pos..end] == Bucket(Keys(), nb, mix(hash) % nb, |hashes|)
    {
      var b := mix(hash) % nb;
      assert Grouped(Keys(), nb, b, order[..]);
      pos, end := offset[b], offset[b + 1];
      assert order[..][pos..end] == order[pos..end];
    }
  }

  /** The counting pass: the size of bucket `b` at `b + 1`. */
  method CountBuckets(keys: seq<nat>, nb: nat) returns (count: array<nat>)
    requires nb > 0
    ensures fresh(count) && count.Length == nb + 1 && count[0] == 0
    ensures forall b | 0 < b <= nb :: count[b] == |Bucket(keys, nb, b - 1, |keys|)|
  {
    count := new nat[nb + 1](_ => 0);
    for id := 0 to |keys|
      invariant count[0] == 0 && forall b | 0 < b <= nb :: count[b] == |Bucket(keys, nb, b - 1, id)|
    {
      var x := keys[id] % nb;
      count[x + 1] := count[x + 1] + 1;
    }
  }

  /** Running totals: where each bucket starts. */
  method SumBuckets(keys: seq<nat>, nb: nat, count: array<nat>)
    requires nb > 0 && count.Length == nb + 1 && count[0] == 0
    requires forall b | 0 < b <= nb :: count[b] == |Bucket(keys, nb, b - 1, |keys|)|
    modifies count
    ensures forall b | 0 <= b <= nb :: count[b] == Start(keys, nb, b)
  {
    hide Bucket, Start;
    StartNext(keys, nb, 0);
    for b := 0 to nb
      invariant forall x | 0 <= x <= b :: count[x] == Start(keys, nb, x)
      invariant forall x | b < x <= nb :: count[x] == |Bucket(keys, nb, x - 1, |keys|)|
    {
      StartNext(keys, nb, b);
      count[b + 1] := count[b + 1] + count[b];
    }
  }

  lemma StartNext(keys: seq<nat>, nb: nat, b: nat)
    requires nb > 0
    ensures Start(keys, nb, 0) == 0 && Start(keys, nb, b + 1) == Start(keys, nb, b) + |Bucket(keys, nb, b, |keys|)|
  {
  }

  /** The placement pass. */
  method PlaceIds(keys: seq<nat>, nb: nat, offset: array<nat>) returns (order: array<nat>)
    requires nb > 0 && offset.Length == nb + 1
    requires forall b | 0 <= b <= nb :: offset[b] == Start(keys, nb, b)
    ensures fresh(order) && order.Length == |keys|
    ensures forall b | 0 <= b < nb :: Grouped(keys, nb, b, order[..])
  {
    hide Placed, Start, Bucket, Grouped;
    order := new nat[|keys|];
    var fill := new nat[nb];
    for b := 0 to nb
      invariant forall x | 0 <= x < b :: Placed(keys, nb, x, 0, fill[x], order[..])
    {
      fill[b] := offset[b];
      PlaceNone(keys, nb, b, order[..]);
    }
    for id := 0 to |keys|
      invariant fill.Length == nb && order.Length == |keys|
      invariant forall b | 0 <= b < nb :: Placed(keys, nb, b, id, fill[b], order[..])
    {
      var x := keys[id] % nb;
      ghost var was, at, before := order[..], fill[x], fill[..];
      PlaceNext(keys, nb, id, at, was);
      forall b | 0 <= b < nb ensures Placed(keys, nb, b, id + 1, if b == x then at + 1 else before[b], was[at := id]) {
        assert Placed(keys, nb, b, id, before[b], was);
        PlaceStep(keys, nb, b, id, before[b], was, at);
      }
      order[fill[x]] := id;
      fill[x] := fill[x] + 1;
      assert order[..] == was[at := id];
    }
    forall b | 0 <= b < nb ensures Grouped(keys, nb, b, order[..]) {
      assert Placed(keys, nb, b, |keys|, fill[b], order[..]);
      PlacedAll(keys, nb, b, fill[b], order[..]);
    }
  }

  /** Bucket `b`'s ids, in order, where the bucket is. */
  ghost predicate Grouped(keys: seq<nat>, nb: nat, b: nat, order: seq<nat>)
    requires nb > 0
  {
    && Start(keys, nb, b) <= Start(keys, nb, b + 1) <= |order|
    && order[Start(keys, nb, b)..Start(keys, nb, b + 1)] == Bucket(keys, nb, b, |keys|)
  }

  lemma {:induction false} PlaceNone(keys: seq<nat>, nb: nat, b: nat, order: seq<nat>)
    requires nb > 0 && b < nb && |order| == |keys|
    ensures Placed(keys, nb, b, 0, Start(keys, nb, b), order)
  {
    StartAscends(keys, nb, b, nb);
    StartEnds(keys, nb);
  }

  lemma PlacedAll(keys: seq<nat>, nb: nat, b: nat, fill: nat, order: seq<nat>)
    requires nb > 0 && Placed(keys, nb, b, |keys|, fill, order)
    ensures Grouped(keys, nb, b, order)
  {
  }

  /** The first `n` ids of bucket `b`, in their places. */
  ghost predicate Placed(keys: seq<nat>, nb: nat, b: nat, n: nat, fill: nat, order: seq<nat>)
    requires nb > 0 && n <= |keys|
  {
    && fill == Start(keys, nb, b) + |Bucket(keys, nb, b, n)| && fill <= |order|
    && order[Start(keys, nb, b)..fill] == Bucket(keys, nb, b, n)
  }

  /** There is room for one more id in its bucket. */
  lemma PlaceNext(keys: seq<nat>, nb: nat, id: nat, at: nat, order: seq<nat>)
    requires nb > 0 && id < |keys| && |order| == |keys| && Placed(keys, nb, keys[id] % nb, id, at, order)
    ensures at < |keys|
  {
    var x := keys[id] % nb;
    BucketGrows(keys, nb, x, id + 1, |keys|);
    StartAscends(keys, nb, x + 1, nb);
    StartEnds(keys, nb);
  }

  /** An id in its place disturbs no other bucket. */
  lemma PlaceStep(keys: seq<nat>, nb: nat, b: nat, id: nat, fill: nat, order: seq<nat>, at: nat)
    requires nb > 0 && b < nb && id < |keys| && |order| == |keys| && Placed(keys, nb, b, id, fill, order)
    requires var x := keys[id] % nb; Placed(keys, nb, x, id, at, order) && at < |keys| && (b == x ==> fill == at)
    ensures Placed(keys, nb, b, id + 1, if b == keys[id] % nb then fill + 1 else fill, order[at := id])
  {
    var x := keys[id] % nb;
    if b < x {
      BucketGrows(keys, nb, b, id, |keys|);
      StartAscends(keys, nb, b + 1, x);
    } else if b > x {
      BucketGrows(keys, nb, x, id + 1, |keys|);
      StartAscends(keys, nb, x + 1, b);
    }
    ghost var start := Start(keys, nb, b);
    assert b < x ==> fill <= at;
    assert b > x ==> at < start;
    hide Start;
    if b != x { Outside(order, start, fill, at, id); } else { Appended(order, start, fill, id); }
  }

  lemma Outside<T>(s: seq<T>, i: nat, j: nat, at: nat, x: T)
    requires i <= j <= |s| && at < |s| && !(i <= at < j)
    ensures s[at := x][i..j] == s[i..j]
  {
  }

  lemma Appended<T>(s: seq<T>, i: nat, j: nat, x: T)
    requires i <= j < |s|
    ensures s[j := x][i..j + 1] == s[i..j] + [x]
  {
  }

  function Mixed(hashes: seq<nat>, mix: nat -> nat): (keys: seq<nat>)
    ensures |keys| == |hashes|
  {
    seq(|hashes|, i requires 0 <= i < |hashes| => mix(hashes[i]))
  }
}
