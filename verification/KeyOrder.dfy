/** One table read in key order needs no sort to be ordered by its key
    (src/executor.cpp:815-820). */
module KeyOrder {
  import opened SqlTypes
  import opened Rows
  import opened SortOrder
  import SortSpec
  import opened PlanTree
  import opened PlanJoins
  import opened Products

  /** Rows in key order; keys are unique. */
  ghost predicate Ascending(rows: seq<Row>) {
    && (forall i | 0 <= i < |rows| :: !At(rows[i], 0).isNull)
    && forall i, j | 0 <= i < j < |rows| :: At(rows[i], 0).i64 < At(rows[j], 0).i64
  }

  /** Some rows of one table, in order of place, are in key order if the table is. */
  lemma PlacesAscending(db: seq<Table>, ts: seq<seq<nat>>, rows: seq<Row>)
    requires |db| == 1 && InPlaceOrder(ts) && RowsAre(db, ts, rows) && Ascending(db[0].rows)
    ensures Ascending(rows)
  {
    forall i | 0 <= i < |rows| ensures rows[i] == db[0].rows[ts[i][0]] { assert RowAt(db[..0], ts[i][..0]) == []; }
    forall i, j | 0 <= i < j < |rows| ensures ts[i][0] < ts[j][0] {
      assert PlaceBefore(ts[i], ts[j]);
      assert IsPlace(db, ts[i]);
      var k :| DiffersAt(ts[i], ts[j], k);
    }
  }

  /** Rows in key order are what the stable sort by key, and then by anything, gives. */
  lemma {:induction false} AlreadySorted(keys: seq<SortKey>, rows: seq<Row>)
    requires keys != [] && keys[0] == SortKey(0, false, Int64) && Ascending(rows)
    ensures SortSpec.Ordered(keys, SortSpec.ItemsOf(rows)) == SortSpec.ItemsOf(rows)
  {
    var items := SortSpec.ItemsOf(rows);
    forall i, j | 0 <= i < j < |items| ensures Precedes(keys, items[i], items[j]) {
      assert KeyOrder(keys[0], items[i].row, items[j].row) < 0;
    }
    SortSpec.OrderedSorted(keys, items, |rows|);
    SortSpec.SortedUnique(keys, SortSpec.Ordered(keys, items), items);
  }

  /** So ORDER BY key over a source in key order leaves every row where it is. */
  lemma {:induction false} NoSortNeeded(db: seq<Table>, q: Query, src: Source, keys: seq<SortKey>)
    requires Answers(db, q, src) && src.keyOrder && Ascending(db[0].rows)
    requires keys != [] && keys[0] == SortKey(0, false, Int64)
    ensures SortSpec.Ordered(keys, SortSpec.ItemsOf(Run(db, src.root))) == SortSpec.ItemsOf(Run(db, src.root))
  {
    var ts, rows :| Asked(db, q, ts, rows) && Run(db, src.root) == rows;
    PlacesAscending(db, ts, rows);
    AlreadySorted(keys, rows);
  }
}
