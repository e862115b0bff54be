/** The product of a query's tables, by which row of each table a row is made of. */
module Products {
  import opened Rows
  import opened JoinSpec
  import opened PlanTree

  /** One row of each table. */
  predicate IsPlace(db: seq<Table>, t: seq<nat>) { |t| == |db| && forall k | 0 <= k < |db| :: t[k] < |db[k].rows| }

  /** The row those make, the first table's columns first. */
  function RowAt(db: seq<Table>, t: seq<nat>): Row
    requires IsPlace(db, t)
  {
    if db == [] then [] else var n := |db| - 1; RowAt(db[..n], t[..n]) + db[n].rows[t[n]]
  }

  /** The first table in which they differ decides. */
  ghost predicate PlaceBefore(t: seq<nat>, u: seq<nat>) { exists k :: DiffersAt(t, u, k) }

  ghost predicate DiffersAt(t: seq<nat>, u: seq<nat>, k: int) { 0 <= k < |t| && k < |u| && t[..k] == u[..k] && t[k] < u[k] }

  ghost predicate InPlaceOrder(ts: seq<seq<nat>>) { forall i, j | 0 <= i < j < |ts| :: PlaceBefore(ts[i], ts[j]) }

  ghost predicate AllPlaces(db: seq<Table>, ts: seq<seq<nat>>) { InPlaceOrder(ts) && forall t :: t in ts <==> IsPlace(db, t) }

  /** The rows at some places, in turn. */
  ghost predicate RowsAre(db: seq<Table>, ts: seq<seq<nat>>, rows: seq<Row>) {
    |rows| == |ts| && forall k | 0 <= k < |ts| :: IsPlace(db, ts[k]) && rows[k] == RowAt(db, ts[k])
  }

  function Extended(ts: seq<seq<nat>>, at: seq<(nat, nat)>): (more: seq<seq<nat>>)
    requires forall k | 0 <= k < |at| :: at[k].0 < |ts|
    ensures |more| == |at| && forall k | 0 <= k < |at| :: more[k] == ts[at[k].0] + [at[k].1]
  {
    seq(|at|, k requires 0 <= k < |at| => ts[at[k].0] + [at[k].1])
  }

  lemma ExtendedInOrder(ts: seq<seq<nat>>, at: seq<(nat, nat)>, n: nat)
    requires InPlaceOrder(ts) && InTurn(at) && forall k | 0 <= k < |at| :: at[k].0 < |ts|
    requires forall t | t in ts :: |t| == n
    ensures InPlaceOrder(Extended(ts, at))
  {
    var more := Extended(ts, at);
    forall i, j | 0 <= i < j < |more| ensures PlaceBefore(more[i], more[j]) {
      var p, q := at[i], at[j];
      var t, u := ts[p.0], ts[q.0];
      assert t in ts && u in ts;
      if p.0 == q.0 {
        assert DiffersAt(more[i], more[j], n);
      } else {
        assert PlaceBefore(t, u);
        var k :| DiffersAt(t, u, k);
        assert more[i][..k] == t[..k] && more[j][..k] == u[..k];
        assert DiffersAt(more[i], more[j], k);
      }
    }
  }

  lemma PlaceSplits(db: seq<Table>, t: seq<nat>)
    requires db != []
    ensures IsPlace(db, t) <==> |t| == |db| && IsPlace(db[..|db| - 1], t[..|db| - 1]) && t[|db| - 1] < |db[|db| - 1].rows|
  {
    if |t| == |db| { assert forall k | 0 <= k < |db| - 1 :: t[..|db| - 1][k] == t[k] && db[..|db| - 1][k] == db[k]; }
  }

  /** What one table more is joined from. */
  ghost predicate Joining(db: seq<Table>, ts: seq<seq<nat>>, probes: seq<Row>, at: seq<(nat, nat)>, out: seq<Row>) {
    && db != [] && AllPlaces(db[..|db| - 1], ts) && RowsAre(db[..|db| - 1], ts, probes)
    && JoinedAt(Terms([], 0), false, probes, db[|db| - 1].rows, at, out)
  }

  lemma {:induction false} PlaceMade(db: seq<Table>, ts: seq<seq<nat>>, probes: seq<Row>, at: seq<(nat, nat)>, out: seq<Row>, k: nat)
    requires Joining(db, ts, probes, at, out) && k < |at|
    ensures at[k].0 < |ts| && var t := ts[at[k].0] + [at[k].1]; IsPlace(db, t) && out[k] == RowAt(db, t)
  {
    hide IsPlace, InTurn, InPlaceOrder;
    var t := ts[at[k].0];
    assert t in ts;
    PlaceLong(db[..|db| - 1], t);
    assert (t + [at[k].1])[..|db| - 1] == t;
    PlaceSplits(db, t + [at[k].1]);
  }

  lemma PlaceFound(db: seq<Table>, ts: seq<seq<nat>>, probes: seq<Row>, at: seq<(nat, nat)>, out: seq<Row>, t: seq<nat>)
    requires Joining(db, ts, probes, at, out) && IsPlace(db, t)
    ensures exists k :: 0 <= k < |at| && at[k].0 < |ts| && t == ts[at[k].0] + [at[k].1]
  {
    var n := |db| - 1;
    PlaceSplits(db, t);
    PlaceLong(db, t);
    hide IsPlace, InTurn, InPlaceOrder;
    assert t[..n] in ts;
    var i :| 0 <= i < |ts| && ts[i] == t[..n];
    assert Met(Terms([], 0), false, probes[i], db[n].rows[t[n]]);
    assert (i, t[n]) in at;
    var k :| 0 <= k < |at| && at[k] == (i, t[n]);
    assert t == t[..n] + [t[n]];
  }

  /** One table more. */
  lemma MorePlaces(db: seq<Table>, ts: seq<seq<nat>>, probes: seq<Row>, at: seq<(nat, nat)>, out: seq<Row>) returns (more: seq<seq<nat>>)
    requires Joining(db, ts, probes, at, out)
    ensures AllPlaces(db, more) && RowsAre(db, more, out)
  {
    assert |out| == |at| && InTurn(at) && InPlaceOrder(ts);
    forall t | t in ts ensures |t| == |db| - 1 { PlaceLong(db[..|db| - 1], t); }
    forall k | 0 <= k < |at| ensures at[k].0 < |ts| { PlaceMade(db, ts, probes, at, out, k); }
    hide Joining, IsPlace, InTurn, PlaceBefore;
    more := Extended(ts, at);
    ExtendedInOrder(ts, at, |db| - 1);
    forall k | 0 <= k < |more| ensures IsPlace(db, more[k]) && out[k] == RowAt(db, more[k]) { PlaceMade(db, ts, probes, at, out, k); }
    forall t ensures t in more <==> IsPlace(db, t) {
      if IsPlace(db, t) {
        PlaceFound(db, ts, probes, at, out, t);
        var k :| 0 <= k < |at| && at[k].0 < |ts| && t == ts[at[k].0] + [at[k].1];
        assert more[k] == t;
      }
    }
  }

  lemma PlaceLong(db: seq<Table>, t: seq<nat>) requires IsPlace(db, t) ensures |t| == |db| {}

  /** The product has every row there is, once, in order of place. */
  lemma {:induction false} CrossMeans(db: seq<Table>) returns (ts: seq<seq<nat>>)
    ensures AllPlaces(db, ts) && RowsAre(db, ts, Cross(db))
  {
    if db == [] {
      ts := [[]];
    } else if |db| == 1 {
      ts := seq(|db[0].rows|, k => [k]);
      OneTable(db, ts);
    } else {
      var n := |db| - 1;
      var before := CrossMeans(db[..n]);
      var at := LoopMeans(Terms([], 0), false, Cross(db[..n]), db[n].rows);
      ts := MorePlaces(db, before, Cross(db[..n]), at, Cross(db));
    }
  }

  lemma OneTable(db: seq<Table>, ts: seq<seq<nat>>)
    requires |db| == 1 && |ts| == |db[0].rows| && forall k | 0 <= k < |ts| :: ts[k] == [k]
    ensures AllPlaces(db, ts) && RowsAre(db, ts, db[0].rows)
  {
    forall i, j | 0 <= i < j < |ts| ensures PlaceBefore(ts[i], ts[j]) { assert DiffersAt(ts[i], ts[j], 0); }
    forall t ensures t in ts <==> IsPlace(db, t) {
      if IsPlace(db, t) { assert ts[t[0]] == t; }
    }
    forall k | 0 <= k < |ts| ensures IsPlace(db, ts[k]) && RowAt(db, ts[k]) == db[0].rows[k] {
      assert RowAt(db[..0], ts[k][..0]) == [];
    }
  }

  /** Some of the places, in order. */
  lemma ChosenPlaces(db: seq<Table>, ts: seq<seq<nat>>, f: Row -> bool, rows: seq<Row>, kept: seq<Row>, at: seq<nat>) returns (us: seq<seq<nat>>)
    requires AllPlaces(db, ts) && RowsAre(db, ts, rows) && Sequences.PickedAt(f, rows, kept, at)
    ensures InPlaceOrder(us) && RowsAre(db, us, kept) && forall t :: t in us <==> IsPlace(db, t) && f(RowAt(db, t))
  {
    hide IsPlace, PlaceBefore;
    us := seq(|at|, k requires 0 <= k < |at| => ts[at[k]]);
    forall k | 0 <= k < |us| ensures IsPlace(db, us[k]) && kept[k] == RowAt(db, us[k]) && f(kept[k]) { assert at[k] in at; }
    forall t ensures t in us <==> IsPlace(db, t) && f(RowAt(db, t)) {
      if IsPlace(db, t) && f(RowAt(db, t)) {
        var i :| 0 <= i < |ts| && ts[i] == t;
        assert rows[i] == RowAt(db, t);
        var k :| 0 <= k < |at| && at[k] == i;
        assert us[k] == t;
      }
    }
  }
}
