/** What applying one node's favorites does to the favorites table and to the report. */
module FavLaws {
  import opened Wrappers
  import opened Tables
  import opened Sorting
  import opened Sql
  import opened ApplySpec
  import opened UserPurgeLaws

  // ------------------------------------------- a node's share of the table

  lemma {:induction false} UnderAppend(a: seq<FavRow>, b: seq<FavRow>, id: nat)
    ensures Under(a + b, id) == Under(a, id) + Under(b, id)
  {
    if a == [] {
      assert a + b == b;
    } else {
      assert (a + b)[1..] == a[1..] + b;
      UnderAppend(a[1..], b, id);
    }
  }

  lemma {:induction false} UnderPut(rows: seq<FavRow>, row: FavRow, id: nat)
    requires forall i :: 0 <= i < |rows| && rows[i].id == row.id ==> rows[i].key.nodeId == row.key.nodeId
    ensures Under(PutRow(rows, row), id) == PutRow(Under(rows, id), row)
  {
    if rows != [] {
      UnderPut(rows[1..], row, id);
      var put := PutRow(rows, row);
      assert put[1..] == PutRow(rows[1..], row);
      if rows[0].key.nodeId == id {
        var mine := Under(rows, id);
        assert mine[1..] == Under(rows[1..], id);
        assert Under(put, id) == [put[0]] + Under(put[1..], id);
      }
    }
  }

  lemma {:induction false} UnderPutOther(rows: seq<FavRow>, row: FavRow, id: nat)
    requires forall i :: 0 <= i < |rows| && rows[i].id == row.id ==> rows[i].key.nodeId == row.key.nodeId
    requires id != row.key.nodeId
    ensures Under(PutRow(rows, row), id) == Under(rows, id)
  {
    UnderPut(rows, row, id);
    var mine := Under(rows, id);
    forall i | 0 <= i < |mine| ensures mine[i].id != row.id {
      assert mine[i] in mine;
    }
  }

  lemma {:induction false} UnderWithout(rows: seq<FavRow>, x: nat, id: nat)
    ensures Under(Without(rows, x), id) == Without(Under(rows, id), x)
  {
    if rows != [] {
      UnderWithout(rows[1..], x, id);
      if rows[0].key.nodeId == id {
        var mine := Under(rows, id);
        assert mine[1..] == Under(rows[1..], id);
      }
      if rows[0].id != x {
        assert Without(rows, x)[1..] == Without(rows[1..], x);
      }
    }
  }

  lemma {:induction false} UnderNotUnder(rows: seq<FavRow>, a: nat, id: nat)
    ensures Under(NotUnder(rows, a), id) == if a == id then [] else Under(rows, id)
  {
    if rows != [] {
      UnderNotUnder(rows[1..], a, id);
      if rows[0].key.nodeId != a {
        assert ([rows[0]] + NotUnder(rows[1..], a))[1..] == NotUnder(rows[1..], a);
      }
    }
  }

  lemma {:induction false} FindUnder(rows: seq<FavRow>, id: nat, number: string)
    ensures Find(rows, FavKey(id, number)) == Find(Under(rows, id), FavKey(id, number))
  {
    if rows != [] {
      FindUnder(rows[1..], id, number);
      if rows[0].key.nodeId == id {
        assert ([rows[0]] + Under(rows[1..], id))[1..] == Under(rows[1..], id);
      }
    }
  }

  lemma {:induction false} UnderDistinct(rows: seq<FavRow>, id: nat)
    requires DistinctIds(rows)
    ensures DistinctIds(Under(rows, id)) && DistinctIds(NotUnder(rows, id))
  {
    if rows != [] {
      TailRows(rows);
      UnderDistinct(rows[1..], id);
      var a, b := Under(rows[1..], id), NotUnder(rows[1..], id);
      assert forall j :: 0 <= j < |a| ==> a[j] in rows[1..];
      assert forall j :: 0 <= j < |b| ==> b[j] in rows[1..];
    }
  }

  // ----------------------------------------------------------- vocabulary

  function FavBalance(run: Run): int {
    |run.db.favs.rows| - run.report.favs.created + run.report.favs.deleted
  }

  /** Only the favorites table, the favorite counts, the clock and the error differ. */
  ghost predicate OnlyFavs(a: Run, b: Run) {
    && a.db.nodes == b.db.nodes && a.db.users == b.db.users
    && b.report.users == a.report.users && b.report.nodes == a.report.nodes
  }

  /** Everything a favorites pass may rely on, and keeps. */
  ghost predicate Sound(db: Db) {
    Consistent(db) && NoDuplicates(db)
  }

  /** From `run` to `r`, only favorites of one node changed. */
  ghost predicate OnlyNode(run: Run, r: Run, nodeId: nat) {
    && Sound(r.db) && OnlyFavs(run, r)
    && (forall k: FavKey :: k.nodeId != nodeId ==> Find(r.db.favs.rows, k) == Find(run.db.favs.rows, k))
    && (forall id :: id != nodeId ==> Under(r.db.favs.rows, id) == Under(run.db.favs.rows, id))
  }

  /** The group an entry asks for. */
  function GroupNamed(f: FavoriteSpec): string {
    if f.groupName == "" then "default" else f.groupName
  }

  /** A favorite is as its entry says. */
  predicate Matches(f: FavoriteSpec, v: Fav) {
    && v.callsign == f.callsign && v.description == f.description && v.location == f.location
    && v.groupName == GroupNamed(f)
  }

  /** What an entry leaves of a favorite: its fields, on the old row if there was one. */
  ghost predicate FavSynced(f: FavoriteSpec, before: Option<FavRow>, after: Option<FavRow>) {
    && after.Some? && after.value.key.number == f.number && Matches(f, after.value.value)
    && (before.Some? ==>
          && after.value.id == before.value.id
          && after.value.value.position == before.value.value.position
          && after.value.value.sortOrder == before.value.value.sortOrder
          && (if Matches(f, before.value.value) then after == before else after.value.value.cmd == ""))
    && (before.None? ==> after.value.value.sortOrder == 0 && after.value.value.cmd == "")
  }

  function FavDelta(f: FavoriteSpec, before: Option<FavRow>): (d: Tally)
    ensures d.deleted == 0
  {
    if before.None? then ZERO.OneCreated()
    else if Matches(f, before.value.value) then ZERO
    else ZERO.OneUpdated()
  }

  function UnlistedFav(specs: seq<FavoriteSpec>): FavRow -> bool {
    (x: FavRow) => !ListsFav(specs, x.key.number)
  }

  /** The share of every node after an insertion. */
  lemma UnderInsert(t: Table<FavKey, Fav>, key: FavKey, fav: Fav, id: nat)
    ensures Under(Insert(t, key, fav).rows, id)
         == if id == key.nodeId then Under(t.rows, id) + [Row(t.next, key, fav)] else Under(t.rows, id)
  {
    var row := Row(t.next, key, fav);
    UnderAppend(t.rows, [row], id);
    assert [row][1..] == [];
  }

  /** Counting rows of other keys ignores what happens to one key. */
  ghost predicate Ignores(p: FavRow -> bool, key: FavKey) {
    forall x: FavRow :: x.key == key ==> !p(x)
  }

  ghost predicate SameCounts(run: Run, r: Run, key: FavKey) {
    forall p: FavRow -> bool :: Ignores(p, key) ==>
      Count(p, Under(r.db.favs.rows, key.nodeId)) == Count(p, Under(run.db.favs.rows, key.nodeId))
  }

  /** From `run` to `r`, only the favorite with this key changed. */
  ghost predicate OnlyKey(run: Run, r: Run, key: FavKey) {
    && OnlyNode(run, r, key.nodeId) && SameCounts(run, r, key)
    && (forall k :: k != key ==> Find(r.db.favs.rows, k) == Find(run.db.favs.rows, k))
  }

  // ------------------------------------------------------- one list entry

  lemma UntouchedFavs(run: Run, r: Run, key: FavKey)
    requires Sound(run.db) && OnlyFavs(run, r) && r.db.favs == run.db.favs
    ensures OnlyKey(run, r, key)
  {
  }

  lemma InsertedFav(run: Run, r: Run, key: FavKey, fav: Fav)
    requires Sound(run.db) && Find(run.db.favs.rows, key) == None && FindId(run.db.nodes.rows, key.nodeId).Some?
    requires r.db == Tick(run.db).(favs := Insert(run.db.favs, key, fav)) && OnlyFavs(run, r)
    ensures OnlyKey(run, r, key) && Find(r.db.favs.rows, key) == Some(Row(run.db.favs.next, key, fav))
  {
    InsertMembers(run.db.favs, key, fav);
    InsertFacts(run.db.favs, key, fav);
    forall id { UnderInsert(run.db.favs, key, fav, id); }
    var mine, row := Under(run.db.favs.rows, key.nodeId), Row(run.db.favs.next, key, fav);
    forall p: FavRow -> bool | Ignores(p, key) ensures Count(p, mine + [row]) == Count(p, mine) {
      CountAppend(p, mine, [row]);
    }
  }

  lemma AddFavFacts(env: Env, opts: Options, nodeId: nat, f: FavoriteSpec, run: Run)
    requires Sound(run.db) && run.error == None && !opts.dryRun
    requires Find(run.db.favs.rows, FavKey(nodeId, f.number)) == None && FindId(run.db.nodes.rows, nodeId).Some?
    ensures var r := AddFav(env, opts, nodeId, f, run); var key := FavKey(nodeId, f.number);
      && OnlyKey(run, r, key) && FavBalance(r) == FavBalance(run)
      && (if r.error.Some? then r.report == run.report && r.db.favs == run.db.favs && env.fails(run.db.clock)
          else r.report.favs == run.report.favs.Plus(FavDelta(f, None)) && FavSynced(f, None, Find(r.db.favs.rows, key)))
  {
    var fav := Fav(f.callsign, f.description, f.location, "", 0, GroupOf(f), NextPosition(run.db.favs.rows, nodeId));
    var r := AddFav(env, opts, nodeId, f, run);
    if r.error.None? {
      InsertedFav(run, r, FavKey(nodeId, f.number), fav);
    } else {
      UntouchedFavs(run, r, FavKey(nodeId, f.number));
    }
  }

  /** The share of every node after an update that keeps the key. */
  lemma PutShares(t: Table<FavKey, Fav>, row: FavRow, fav: Fav)
    requires Valid(t) && row in t.rows
    ensures var rows' := PutRow(t.rows, Row(row.id, row.key, fav));
      && (forall id :: id != row.key.nodeId ==> Under(rows', id) == Under(t.rows, id))
      && (forall p: FavRow -> bool :: Ignores(p, row.key) ==>
            Count(p, Under(rows', row.key.nodeId)) == Count(p, Under(t.rows, row.key.nodeId)))
  {
    var rows, new_ := t.rows, Row(row.id, row.key, fav);
    forall i | 0 <= i < |rows| && rows[i].id == row.id ensures rows[i] == row { SameIdSameRow(rows, rows[i], row); }
    forall id | id != row.key.nodeId { UnderPutOther(rows, new_, id); }
    UnderPut(rows, new_, row.key.nodeId);
    UnderDistinct(rows, row.key.nodeId);
    forall p: FavRow -> bool | Ignores(p, row.key)
      ensures Count(p, PutRow(Under(rows, row.key.nodeId), new_)) == Count(p, Under(rows, row.key.nodeId))
    {
      CountPut(p, Under(rows, row.key.nodeId), row, new_);
    }
  }

  lemma ReplacedFav(run: Run, r: Run, row: FavRow, fav: Fav)
    requires Sound(run.db) && Find(run.db.favs.rows, row.key) == Some(row)
    requires r.db == Tick(run.db).(favs := Put(run.db.favs, Row(row.id, row.key, fav))) && OnlyFavs(run, r)
    ensures OnlyKey(run, r, row.key) && Find(r.db.favs.rows, row.key) == Some(Row(row.id, row.key, fav))
    ensures |r.db.favs.rows| == |run.db.favs.rows|
  {
    PutMembers(run.db.favs, row, Row(row.id, row.key, fav));
    PutFacts(run.db.favs, row, Row(row.id, row.key, fav));
    PutShares(run.db.favs, row, fav);
    assert NoOrphans(r.db) by {
      forall x | x in r.db.favs.rows ensures FindId(r.db.nodes.rows, x.key.nodeId).Some? {
        if x.id == row.id { assert row in run.db.favs.rows; }
      }
    }
  }

  lemma SyncFavFacts(env: Env, opts: Options, f: FavoriteSpec, row: FavRow, run: Run)
    requires Sound(run.db) && run.error == None && !opts.dryRun
    requires row.key.number == f.number && Find(run.db.favs.rows, row.key) == Some(row)
    ensures var r := SyncFav(env, opts, f, row, run);
      && OnlyKey(run, r, row.key) && FavBalance(r) == FavBalance(run)
      && (if r.error.Some? then r.report == run.report && r.db.favs == run.db.favs && env.fails(run.db.clock)
          else r.report.favs == run.report.favs.Plus(FavDelta(f, Some(row)))
               && FavSynced(f, Some(row), Find(r.db.favs.rows, row.key))
               && (Matches(f, row.value) ==> r.db.favs == run.db.favs))
  {
    hide FindId, Find, Put, UniqueKeys, DistinctIds, OnlyKey, NoOrphans;
    FindIdOfRow(run.db.favs.rows, row);
    var r := SyncFav(env, opts, f, row, run);
    if !FavChanged(f, row.value) {
      assert r == run;
      UntouchedFavs(run, r, row.key);
    } else if Down(env, run.db) {
      assert r == Stop(run.(db := Tick(run.db)), DatabaseError(StatementFailed));
      UntouchedFavs(run, r, row.key);
    } else {
      var fav := Fav(f.callsign, f.description, f.location, "", row.value.sortOrder, GroupOf(f), row.value.position);
      assert r.db == Tick(run.db).(favs := Put(run.db.favs, Row(row.id, row.key, fav)));
      ReplacedFav(run, r, row, fav);
    }
  }

  lemma UpsertFavFacts(env: Env, opts: Options, nodeId: nat, f: FavoriteSpec, run: Run)
    requires Sound(run.db) && run.error == None && !opts.dryRun && FindId(run.db.nodes.rows, nodeId).Some?
    ensures var r := UpsertFav(env, opts, nodeId, f, run);
      var key := FavKey(nodeId, f.number); var before := Find(run.db.favs.rows, key);
      && OnlyKey(run, r, key) && FavBalance(r) == FavBalance(run)
      && (if r.error.Some? then r.report == run.report && r.db.favs == run.db.favs && !Reliable(env)
          else r.report.favs == run.report.favs.Plus(FavDelta(f, before))
               && FavSynced(f, before, Find(r.db.favs.rows, key))
               && (FavDelta(f, before) == ZERO ==> r.db.favs == run.db.favs))
  {
    var key := FavKey(nodeId, f.number);
    var reply := GetFavoriteByNodeNumber(env, run.db, nodeId, f.number);
    var run1 := run.(db := reply.db);
    match reply.result
    case Ok(row) =>
      SyncFavFacts(env, opts, f, row, run1);
    case Err(NotFound) =>
      AddFavFacts(env, opts, nodeId, f, run1);
    case Err(e) =>
      UntouchedFavs(run, Stop(run1, DatabaseError(e)), key);
  }
}
