/** A node's ordered favorites: appending, reordering, copying between nodes. */
module FavoriteLists {
  import opened Wrappers
  import opened Sequences
  import opened Tables
  import opened Sorting
  import opened Sql
  import opened Databases
  import opened FavLaws
  import opened UserPurgeLaws

  function Numbers(rows: seq<FavRow>): (r: seq<string>)
    ensures |r| == |rows| && forall i :: 0 <= i < |r| ==> r[i] == rows[i].key.number
  {
    seq(|rows|, i requires 0 <= i < |rows| => rows[i].key.number)
  }

  function Ids(rows: seq<FavRow>): (r: seq<nat>)
    ensures |r| == |rows| && forall i :: 0 <= i < |r| ==> r[i] == rows[i].id
  {
    seq(|rows|, i requires 0 <= i < |rows| => rows[i].id)
  }

  // ------------------------------------------------------------- listings

  lemma FavOrder()
    ensures TotalOrder(FavBefore)
  {
  }

  lemma {:induction false} DistinctCounts(rows: seq<FavRow>, x: FavRow)
    requires DistinctIds(rows)
    ensures multiset(rows)[x] == if x in rows then 1 else 0
  {
    if rows != [] {
      TailRows(rows);
      DistinctCounts(rows[1..], x);
      assert rows == [rows[0]] + rows[1..];
    }
  }

  /** A listing is the only sorted arrangement of a node's rows. */
  lemma ListingIs(rows: seq<FavRow>, nodeId: nat, arranged: seq<FavRow>)
    requires DistinctIds(rows) && DistinctIds(arranged) && Sorted(FavBefore, arranged)
    requires forall x :: x in arranged <==> x in rows && x.key.nodeId == nodeId
    ensures Listing(rows, nodeId) == arranged
  {
    var listing := Listing(rows, nodeId);
    UnderDistinct(rows, nodeId);
    SortDistinct(FavBefore, Under(rows, nodeId));
    FavOrder();
    SortSorted(FavBefore, Under(rows, nodeId));
    forall x ensures multiset(listing)[x] == multiset(arranged)[x] {
      DistinctCounts(listing, x);
      DistinctCounts(arranged, x);
    }
    forall x, y | x in listing && y in listing && FavBefore(x, y) && FavBefore(y, x) ensures x == y {
      SameIdSameRow(listing, x, y);
    }
    SortedUnique(FavBefore, listing, arranged);
  }

  lemma ListingSorted(rows: seq<FavRow>, nodeId: nat)
    requires DistinctIds(rows)
    ensures Sorted(FavBefore, Listing(rows, nodeId)) && DistinctIds(Listing(rows, nodeId))
  {
    UnderDistinct(rows, nodeId);
    SortDistinct(FavBefore, Under(rows, nodeId));
    FavOrder();
    SortSorted(FavBefore, Under(rows, nodeId));
  }

  /** A listing is ordered by position, and rows of one position by id. */
  lemma ListedByPosition(rows: seq<FavRow>, nodeId: nat)
    requires DistinctIds(rows)
    ensures var l := Listing(rows, nodeId);
      forall i, j :: 0 <= i < j < |l| ==>
        l[i].value.position < l[j].value.position || (l[i].value.position == l[j].value.position && l[i].id < l[j].id)
  {
    hide Listing;
    ListingSorted(rows, nodeId);
  }

  // ------------------------------------------------------------ appending

  /** The row an INSERT INTO favorites adds. */
  function NewRow(t: Table<FavKey, Fav>, key: FavKey, f: Fav): FavRow {
    Row(t.next, key, f.(position := NextPosition(t.rows, key.nodeId)))
  }

  function Append(t: Table<FavKey, Fav>, key: FavKey, f: Fav): Table<FavKey, Fav> {
    Insert(t, key, NewRow(t, key, f).value)
  }

  /** A created favorite is last in its node's listing, and no other listing changes. */
  lemma CreatedIsLast(t: Table<FavKey, Fav>, key: FavKey, f: Fav, nodeId: nat)
    requires Valid(t)
    ensures Valid(Append(t, key, f))
    ensures Listing(Append(t, key, f).rows, nodeId)
         == Listing(t.rows, nodeId) + if nodeId == key.nodeId then [NewRow(t, key, f)] else []
  {
    var row, t' := NewRow(t, key, f), Append(t, key, f);
    InsertMembers(t, key, row.value);
    var listing := Listing(t.rows, nodeId);
    ListingSorted(t.rows, nodeId);
    ListingHolds(t.rows, nodeId);
    if nodeId == key.nodeId {
      NewRowLast(t, key, f);
      hide Listing, NextPosition, Insert, NewRow, FavBefore, Append;
      SortedSnoc(listing, row);
      ListingIs(t'.rows, nodeId, listing + [row]);
    } else {
      assert listing + [] == listing;
      hide Listing, NextPosition, Insert, FavBefore, Append;
      ListingIs(t'.rows, nodeId, listing);
    }
  }

  /** Its position is 0 below a node without favorites, and otherwise one more than the largest there. */
  lemma CreatedPosition(t: Table<FavKey, Fav>, key: FavKey, f: Fav)
    ensures var p := NewRow(t, key, f).value.position;
      if forall x :: x in t.rows ==> x.key.nodeId != key.nodeId then p == 0
      else exists x :: x in t.rows && x.key.nodeId == key.nodeId && x.value.position == p - 1
    ensures forall x :: x in t.rows && x.key.nodeId == key.nodeId ==> x.value.position < NewRow(t, key, f).value.position
  {
    var mine := Under(t.rows, key.nodeId);
    if mine == [] {
      assert forall x :: x in t.rows && x.key.nodeId == key.nodeId ==> x in mine;
    } else {
      assert mine[0] in mine;
      var x :| x in mine && x.value.position == MaxPosition(mine);
    }
  }

  lemma ListingHolds(rows: seq<FavRow>, nodeId: nat)
    ensures forall x :: x in Listing(rows, nodeId) <==> x in rows && x.key.nodeId == nodeId
  {
  }

  /** A new row comes behind every row of its node. */
  lemma NewRowLast(t: Table<FavKey, Fav>, key: FavKey, f: Fav)
    requires Valid(t)
    ensures forall x :: x in Listing(t.rows, key.nodeId) ==>
      FavBefore(x, NewRow(t, key, f)) && x.id != NewRow(t, key, f).id
  {
    hide Listing;
    ListingHolds(t.rows, key.nodeId);
  }

  lemma SortedSnoc(rows: seq<FavRow>, last: FavRow)
    requires Sorted(FavBefore, rows) && DistinctIds(rows)
    requires forall x :: x in rows ==> FavBefore(x, last) && x.id != last.id
    ensures Sorted(FavBefore, rows + [last]) && DistinctIds(rows + [last])
  {
    hide FavBefore;
    var longer := rows + [last];
    assert forall i :: 0 <= i < |rows| ==> longer[i] in rows;
  }

  function AppendAll(t: Table<FavKey, Fav>, nodeId: nat, items: seq<FavRow>): Table<FavKey, Fav>
    decreases items
  {
    if items == [] then t
    else AppendAll(Append(t, FavKey(nodeId, items[0].key.number), items[0].value), nodeId, items[1..])
  }

  /** The rows those appends add. */
  function AddedRows(t: Table<FavKey, Fav>, nodeId: nat, items: seq<FavRow>): (r: seq<FavRow>)
    ensures |r| == |items|
    decreases items
  {
    if items == [] then []
    else
      var key := FavKey(nodeId, items[0].key.number);
      [NewRow(t, key, items[0].value)] + AddedRows(Append(t, key, items[0].value), nodeId, items[1..])
  }

  /** A copy of a favorite below another node: only owner, id and position differ. */
  ghost predicate CopyOf(item: FavRow, row: FavRow, nodeId: nat) {
    row.key == FavKey(nodeId, item.key.number) && row.value.(position := item.value.position) == item.value
  }

  lemma {:induction false} AddedAreCopies(t: Table<FavKey, Fav>, nodeId: nat, items: seq<FavRow>, i: nat)
    requires i < |items|
    ensures CopyOf(items[i], AddedRows(t, nodeId, items)[i], nodeId)
    decreases items
  {
    if i > 0 {
      AddedAreCopies(Append(t, FavKey(nodeId, items[0].key.number), items[0].value), nodeId, items[1..], i - 1);
    }
  }

  lemma {:induction false} AppendAllLength(t: Table<FavKey, Fav>, nodeId: nat, items: seq<FavRow>)
    ensures |AppendAll(t, nodeId, items).rows| == |t.rows| + |items|
    decreases items
  {
    if items != [] {
      AppendAllLength(Append(t, FavKey(nodeId, items[0].key.number), items[0].value), nodeId, items[1..]);
    }
  }

  /** Appending several favorites lengthens the node's listing by them, in order. */
  lemma {:induction false} AppendAllLists(t: Table<FavKey, Fav>, nodeId: nat, items: seq<FavRow>)
    requires Valid(t)
    ensures Listing(AppendAll(t, nodeId, items).rows, nodeId) == Listing(t.rows, nodeId) + AddedRows(t, nodeId, items)
    decreases items
  {
    if items == [] {
      assert Listing(t.rows, nodeId) + [] == Listing(t.rows, nodeId);
    } else {
      var key, f := FavKey(nodeId, items[0].key.number), items[0].value;
      var t1, row := Append(t, key, f), NewRow(t, key, f);
      CreatedIsLast(t, key, f, nodeId);
      hide Listing, Append, Valid, NewRow;
      AppendAllLists(t1, nodeId, items[1..]);
      var rest := AddedRows(t1, nodeId, items[1..]);
      ConcatAssociative(Listing(t.rows, nodeId), [row], rest);
      assert AddedRows(t, nodeId, items) == [row] + rest;
      assert AppendAll(t, nodeId, items) == AppendAll(t1, nodeId, items[1..]);
      assert Listing(t1.rows, nodeId) == Listing(t.rows, nodeId) + [row];
    }
  }

  lemma ConcatAssociative<T>(a: seq<T>, b: seq<T>, c: seq<T>)
    ensures a + b + c == a + (b + c)
  {
  }

  /** It leaves every other listing alone. */
  lemma {:induction false} AppendAllElsewhere(t: Table<FavKey, Fav>, nodeId: nat, items: seq<FavRow>, id: nat)
    requires Valid(t)
    ensures Valid(AppendAll(t, nodeId, items))
    ensures id != nodeId ==> Listing(AppendAll(t, nodeId, items).rows, id) == Listing(t.rows, id)
    decreases items
  {
    if items != [] {
      var key, f := FavKey(nodeId, items[0].key.number), items[0].value;
      CreatedIsLast(t, key, f, id);
      hide Listing, Append, Valid;
      assert Listing(t.rows, id) + [] == Listing(t.rows, id);
      AppendAllElsewhere(Append(t, key, f), nodeId, items[1..], id);
    }
  }

  // ----------------------------------------------------------- reordering

  /** UPDATE favorites SET position = ? WHERE id = ? AND node_id = ?. */
  function MoveRow(rows: seq<FavRow>, id: nat, nodeId: nat, position: int): (r: seq<FavRow>)
    ensures |r| == |rows|
    ensures forall k :: 0 <= k < |r| ==> r[k] == Moved(rows[k], id, nodeId, position)
  {
    seq(|rows|, k requires 0 <= k < |rows| => Moved(rows[k], id, nodeId, position))
  }

  function Moved(x: FavRow, id: nat, nodeId: nat, position: int): FavRow {
    if x.id == id && x.key.nodeId == nodeId then x.(value := x.value.(position := position)) else x
  }

  /** The updates of one reorder, from the `i`-th on. */
  function MoveAll(env: Env, db: Db, nodeId: nat, ids: seq<nat>, i: nat): Reply<()>
    requires i <= |ids|
    decreases |ids| - i
  {
    if i == |ids| then Reply(db, Ok(()))
    else if Down(env, db) then Failed(db)
    else MoveAll(env, Tick(db).(favs := db.favs.(rows := MoveRow(db.favs.rows, ids[i], nodeId, i))), nodeId, ids, i + 1)
  }

  /** The state a rolled-back transaction leaves: the tables at its start. */
  function RolledBack(start: Db, end: Db): Db {
    start.(clock := end.clock)
  }

  /** BEGIN, PREPARE, one UPDATE per id, COMMIT. */
  function ReorderFavorites(env: Env, db: Db, nodeId: nat, ids: seq<nat>): Reply<()> {
    if Down(env, db) then Failed(db)
    else if Down(env, Tick(db)) then Failed(Tick(db))
    else
      var moved := MoveAll(env, Tick(Tick(db)), nodeId, ids, 0);
      if moved.result.Err? then Reply(RolledBack(db, moved.db), moved.result)
      else if Down(env, moved.db) then Reply(RolledBack(db, Tick(moved.db)), Err(StatementFailed))
      else Reply(Tick(moved.db), Ok(()))
  }

  method Reorder(db: Database, nodeId: nat, ids: seq<nat>) returns (r: Result<(), SqlError>)
    modifies db`clock, db`favs
    ensures Reply(db.State(), r) == ReorderFavorites(db.env, old(db.State()), nodeId, ids)
  {
    var begun := db.Exec();
    if !begun { return Err(StatementFailed); }
    var saved := db.favs;
    var prepared := db.Exec();
    if !prepared { return Err(StatementFailed); }
    ghost var start := db.State();
    for i := 0 to |ids|
      invariant MoveAll(db.env, start, nodeId, ids, 0) == MoveAll(db.env, db.State(), nodeId, ids, i)
      invariant db.users == old(db.users) && db.nodes == old(db.nodes)
    {
      var ok := db.Exec();
      if !ok {
        db.favs := saved;
        return Err(StatementFailed);
      }
      db.favs := db.favs.(rows := MoveRow(db.favs.rows, ids[i], nodeId, i));
    }
    var committed := db.Exec();
    if !committed {
      db.favs := saved;
      return Err(StatementFailed);
    }
    r := Ok(());
  }

  /** The last place of an id in the request, from the `i`-th on. */
  function LastPlace(ids: seq<nat>, i: nat, id: nat): (r: Option<nat>)
    requires i <= |ids|
    ensures r.Some? ==> i <= r.value < |ids| && ids[r.value] == id
    ensures r.None? ==> forall j :: i <= j < |ids| ==> ids[j] != id
    decreases |ids| - i
  {
    if i == |ids| then None
    else match LastPlace(ids, i + 1, id)
      case Some(j) => Some(j)
      case None => if ids[i] == id then Some(i) else None
  }

  function Placed(x: FavRow, nodeId: nat, ids: seq<nat>, i: nat): FavRow
    requires i <= |ids|
  {
    var p := LastPlace(ids, i, x.id);
    if x.key.nodeId == nodeId && p.Some? then x.(value := x.value.(position := p.value)) else x
  }

  /** A reorder moves each requested row of the node to its last place in the request, and nothing else. */
  lemma {:induction false} MoveAllPlaces(env: Env, db: Db, nodeId: nat, ids: seq<nat>, i: nat)
    requires i <= |ids|
    ensures var r := MoveAll(env, db, nodeId, ids, i);
      && r.db.users == db.users && r.db.nodes == db.nodes && r.db.favs.next == db.favs.next
      && |r.db.favs.rows| == |db.favs.rows|
      && (r.result.Ok? ==> forall k :: 0 <= k < |db.favs.rows| ==>
            r.db.favs.rows[k] == Placed(db.favs.rows[k], nodeId, ids, i))
    decreases |ids| - i
  {
    if i < |ids| && !Down(env, db) {
      var rows1 := MoveRow(db.favs.rows, ids[i], nodeId, i);
      var db1 := Tick(db).(favs := db.favs.(rows := rows1));
      MoveAllPlaces(env, db1, nodeId, ids, i + 1);
      forall k | 0 <= k < |rows1|
        ensures Placed(rows1[k], nodeId, ids, i + 1) == Placed(db.favs.rows[k], nodeId, ids, i) { }
    }
  }

  lemma {:induction false} MoveAllWorks(env: Env, db: Db, nodeId: nat, ids: seq<nat>, i: nat)
    requires i <= |ids|
    ensures var r := MoveAll(env, db, nodeId, ids, i);
      && (r.result.Ok? <==> forall n :: db.clock <= n < db.clock + |ids| - i ==> !env.fails(n))
      && (r.result.Ok? ==> r.db.clock == db.clock + |ids| - i)
    decreases |ids| - i
  {
    if i < |ids| && !Down(env, db) {
      MoveAllWorks(env, Tick(db).(favs := db.favs.(rows := MoveRow(db.favs.rows, ids[i], nodeId, i))), nodeId, ids, i + 1);
    }
  }

  /** None of the statements of a reorder fails: BEGIN, PREPARE, one for each id, COMMIT. */
  ghost predicate StatementsWork(env: Env, db: Db, count: nat) {
    forall n :: db.clock <= n <= db.clock + count + 2 ==> !env.fails(n)
  }

  /** A reorder succeeds if and only if all its statements do, whatever ids it is given. */
  lemma ReorderSucceedsExactly(env: Env, db: Db, nodeId: nat, ids: seq<nat>)
    ensures ReorderFavorites(env, db, nodeId, ids).result.Ok? <==> StatementsWork(env, db, |ids|)
  {
    hide MoveAll;
    MoveAllWorks(env, Tick(Tick(db)), nodeId, ids, 0);
  }

  /** A failed reorder leaves every table as it was. */
  lemma FailedReorderChangesNothing(env: Env, db: Db, nodeId: nat, ids: seq<nat>)
    ensures var r := ReorderFavorites(env, db, nodeId, ids); r.result.Err? ==> SameTables(db, r.db)
  {
    MoveAllPlaces(env, Tick(Tick(db)), nodeId, ids, 0);
  }

  ghost predicate Owned(rows: seq<FavRow>, nodeId: nat, id: nat) {
    exists x :: x in rows && x.key.nodeId == nodeId && x.id == id
  }

  /** The request names each favorite of the node once, and nothing else. */
  ghost predicate IsOrderOf(ids: seq<nat>, rows: seq<FavRow>, nodeId: nat) {
    && NoRepeats(ids)
    && (forall i :: 0 <= i < |ids| ==> Owned(rows, nodeId, ids[i]))
    && (forall x :: x in rows && x.key.nodeId == nodeId ==> x.id in ids)
  }

  /** The node's row before, and the same row with the position after. */
  ghost predicate IsPlaced(before: Option<FavRow>, after: Option<FavRow>, nodeId: nat, position: int) {
    && before.Some? && after.Some? && before.value.key.nodeId == nodeId
    && after.value == before.value.(value := before.value.value.(position := position))
  }

  /**
   After a reorder by a permutation of its ids, the node lists in exactly that order, with the
   positions from 0 on and every other column as before.
   */
  lemma ReorderLists(env: Env, db: Db, nodeId: nat, ids: seq<nat>)
    requires Valid(db.favs) && IsOrderOf(ids, db.favs.rows, nodeId) && StatementsWork(env, db, |ids|)
    ensures var l := Listing(ReorderFavorites(env, db, nodeId, ids).db.favs.rows, nodeId);
      && Ids(l) == ids
      && forall i :: 0 <= i < |l| ==> IsPlaced(FindId(db.favs.rows, ids[i]), Some(l[i]), nodeId, i)
  {
    ReorderSucceedsExactly(env, db, nodeId, ids);
    MoveAllPlaces(env, Tick(Tick(db)), nodeId, ids, 0);
    var rows, rows' := db.favs.rows, ReorderFavorites(env, db, nodeId, ids).db.favs.rows;
    assert PlacedAll(rows, rows', nodeId, ids);
    hide ReorderFavorites, Listing, PlacedAll;
    ArrangedListing(rows, rows', nodeId, ids);
  }

  lemma ArrangedListing(rows: seq<FavRow>, rows': seq<FavRow>, nodeId: nat, ids: seq<nat>)
    requires DistinctIds(rows) && IsOrderOf(ids, rows, nodeId) && PlacedAll(rows, rows', nodeId, ids)
    ensures var l := Listing(rows', nodeId);
      Ids(l) == ids && forall i :: 0 <= i < |l| ==> IsPlaced(FindId(rows, ids[i]), Some(l[i]), nodeId, i)
  {
    PlacedDistinct(rows, rows', nodeId, ids);
    forall i | 0 <= i < |ids| ensures IsPlaced(FindId(rows, ids[i]), FindId(rows', ids[i]), nodeId, i) {
      PlacedAt(rows, rows', nodeId, ids, i);
    }
    var arranged := RowsOf(rows', ids);
    forall x ensures x in arranged <==> x in rows' && x.key.nodeId == nodeId {
      if x in rows' && x.key.nodeId == nodeId {
        PlacedOnly(rows, rows', nodeId, ids, x);
        var i :| 0 <= i < |ids| && ids[i] == x.id;
        assert arranged[i] == x;
      }
      if x in arranged {
        var i :| 0 <= i < |ids| && arranged[i] == x;
        assert IsPlaced(FindId(rows, ids[i]), FindId(rows', ids[i]), nodeId, i);
      }
    }
    hide Listing, PlacedAll, IsOrderOf;
    ListingIs(rows', nodeId, arranged);
  }

  function RowsOf(rows: seq<FavRow>, ids: seq<nat>): (r: seq<FavRow>)
    requires forall i :: 0 <= i < |ids| ==> FindId(rows, ids[i]).Some?
    ensures |r| == |ids| && forall i :: 0 <= i < |ids| ==> r[i] == FindId(rows, ids[i]).value
  {
    seq(|ids|, i requires 0 <= i < |ids| && FindId(rows, ids[i]).Some? => FindId(rows, ids[i]).value)
  }

  ghost predicate PlacedAll(rows: seq<FavRow>, rows': seq<FavRow>, nodeId: nat, ids: seq<nat>) {
    |rows'| == |rows| && forall k :: 0 <= k < |rows| ==> rows'[k] == Placed(rows[k], nodeId, ids, 0)
  }

  lemma PlacedDistinct(rows: seq<FavRow>, rows': seq<FavRow>, nodeId: nat, ids: seq<nat>)
    requires DistinctIds(rows) && PlacedAll(rows, rows', nodeId, ids)
    ensures DistinctIds(rows')
  {
  }

  lemma LastPlaceIs(ids: seq<nat>, i: nat)
    requires NoRepeats(ids) && i < |ids|
    ensures LastPlace(ids, 0, ids[i]) == Some(i)
  {
    var p := LastPlace(ids, 0, ids[i]);
  }

  /** Each requested id is found at its place. */
  lemma PlacedAt(rows: seq<FavRow>, rows': seq<FavRow>, nodeId: nat, ids: seq<nat>, i: nat)
    requires DistinctIds(rows) && IsOrderOf(ids, rows, nodeId) && PlacedAll(rows, rows', nodeId, ids) && i < |ids|
    ensures IsPlaced(FindId(rows, ids[i]), FindId(rows', ids[i]), nodeId, i)
  {
    hide LastPlace, NoRepeats, FindId, DistinctIds;
    PlacedDistinct(rows, rows', nodeId, ids);
    LastPlaceIs(ids, i);
    assert Owned(rows, nodeId, ids[i]);
    var x :| x in rows && x.key.nodeId == nodeId && x.id == ids[i];
    var k :| 0 <= k < |rows| && rows[k] == x;
    assert rows'[k] in rows';
    FindIdOfRow(rows, x);
    FindIdOfRow(rows', rows'[k]);
  }

  /** Each row of the node is one of those. */
  lemma PlacedOnly(rows: seq<FavRow>, rows': seq<FavRow>, nodeId: nat, ids: seq<nat>, x: FavRow)
    requires DistinctIds(rows) && IsOrderOf(ids, rows, nodeId) && PlacedAll(rows, rows', nodeId, ids)
    requires x in rows' && x.key.nodeId == nodeId
    ensures x.id in ids && FindId(rows', x.id) == Some(x)
  {
    PlacedDistinct(rows, rows', nodeId, ids);
    var k :| 0 <= k < |rows'| && rows'[k] == x;
    assert rows[k] in rows;
    FindIdOfRow(rows', x);
  }

  lemma PlacedElsewhere(rows: seq<FavRow>, rows': seq<FavRow>, nodeId: nat, ids: seq<nat>, x: FavRow)
    requires PlacedAll(rows, rows', nodeId, ids) && x.key.nodeId != nodeId
    ensures x in rows' <==> x in rows
  {
    if x in rows { var k :| 0 <= k < |rows| && rows[k] == x; assert rows'[k] == x; }
    if x in rows' { var k :| 0 <= k < |rows'| && rows'[k] == x; assert rows[k] == x; }
  }

  /** Whatever ids a reorder is given, and whether or not it fails, no other node's listing changes. */
  lemma ReorderElsewhere(env: Env, db: Db, nodeId: nat, ids: seq<nat>, other: nat)
    requires Valid(db.favs) && other != nodeId
    ensures var db' := ReorderFavorites(env, db, nodeId, ids).db;
      && Listing(db'.favs.rows, other) == Listing(db.favs.rows, other)
      && db'.users == db.users && db'.nodes == db.nodes
  {
    hide Listing;
    MoveAllPlaces(env, Tick(Tick(db)), nodeId, ids, 0);
    var r := ReorderFavorites(env, db, nodeId, ids);
    if r.result.Ok? {
      ListedElsewhere(db.favs.rows, r.db.favs.rows, nodeId, ids, other);
    } else {
      FailedReorderChangesNothing(env, db, nodeId, ids);
    }
  }

  lemma ListedElsewhere(rows: seq<FavRow>, rows': seq<FavRow>, nodeId: nat, ids: seq<nat>, other: nat)
    requires DistinctIds(rows) && PlacedAll(rows, rows', nodeId, ids) && other != nodeId
    ensures Listing(rows', other) == Listing(rows, other)
  {
    PlacedDistinct(rows, rows', nodeId, ids);
    hide Listing, PlacedAll;
    forall x: FavRow | x.key.nodeId == other { PlacedElsewhere(rows, rows', nodeId, ids, x); }
    ListingSorted(rows, other);
    ListingIs(rows', other, Listing(rows, other));
  }
}
