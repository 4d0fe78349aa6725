/**
 Conservation: the change report accounts for every row.  This holds for any state
 file and any run, also one that an error stops midway, and it does not need node or
 favorite numbers to be unique.
 */
module Conservation {
  import opened Wrappers
  import opened Tables
  import opened Sorting
  import opened Sql
  import opened ApplySpec
  import opened UserLaws
  import opened UserPurgeLaws
  import opened FavLaws
  import opened NodeLaws
  import opened NodePurgeLaws

  /** A step that keeps users, and the balance of nodes and of favorites. */
  ghost predicate Kept(run: Run, r: Run) {
    && Consistent(r.db) && r.db.users == run.db.users && r.report.users == run.report.users
    && NodeBalance(r) == NodeBalance(run) && FavBalance(r) == FavBalance(run)
    && r.report.nodes.deleted == run.report.nodes.deleted
    && (forall id :: FindId(run.db.nodes.rows, id).Some? ==> FindId(r.db.nodes.rows, id).Some?)
  }

  lemma KeptFavWrite(run: Run, r: Run, favs: Table<FavKey, Fav>)
    requires Consistent(run.db) && Valid(favs)
    requires forall x :: x in favs.rows ==> FindId(run.db.nodes.rows, x.key.nodeId).Some?
    requires r.db == Tick(run.db).(favs := favs) && OnlyFavs(run, r) && FavBalance(r) == FavBalance(run)
    ensures Kept(run, r)
  {
  }

  lemma KeptSame(run: Run, r: Run)
    requires Consistent(run.db) && SameTables(run.db, r.db) && r.report == run.report
    ensures Kept(run, r)
  {
  }

  lemma KeepsAddFav(env: Env, opts: Options, nodeId: nat, f: FavoriteSpec, run: Run)
    requires Consistent(run.db) && run.error == None && !opts.dryRun
    ensures Kept(run, AddFav(env, opts, nodeId, f, run))
  {
    var key, r := FavKey(nodeId, f.number), AddFav(env, opts, nodeId, f, run);
    if r.error == None {
      var fav := Fav(f.callsign, f.description, f.location, "", 0, GroupOf(f), NextPosition(run.db.favs.rows, nodeId));
      InsertMembers(run.db.favs, key, fav);
      KeptFavWrite(run, r, Insert(run.db.favs, key, fav));
    } else {
      KeptSame(run, r);
    }
  }

  lemma KeepsSyncFav(env: Env, opts: Options, f: FavoriteSpec, row: FavRow, run: Run)
    requires Consistent(run.db) && run.error == None && !opts.dryRun && row in run.db.favs.rows && row.key.number == f.number
    ensures Kept(run, SyncFav(env, opts, f, row, run))
  {
    FindIdOfRow(run.db.favs.rows, row);
    var r := SyncFav(env, opts, f, row, run);
    if r.error == None && FavChanged(f, row.value) {
      var fav := Fav(f.callsign, f.description, f.location, "", row.value.sortOrder, GroupOf(f), row.value.position);
      PutMembers(run.db.favs, row, Row(row.id, row.key, fav));
      KeptFavWrite(run, r, Put(run.db.favs, Row(row.id, row.key, fav)));
    } else {
      KeptSame(run, r);
    }
  }

  lemma KeepsUpsertFav(env: Env, opts: Options, nodeId: nat, f: FavoriteSpec, run: Run)
    requires Consistent(run.db) && run.error == None && !opts.dryRun
    ensures Kept(run, UpsertFav(env, opts, nodeId, f, run))
  {
    hide SyncFav, AddFav;
    var run1 := run.(db := Tick(run.db));
    var found := Find(run.db.favs.rows, FavKey(nodeId, f.number));
    if Down(env, run.db) {
      KeptSame(run, UpsertFav(env, opts, nodeId, f, run));
    } else if found.Some? {
      KeepsSyncFav(env, opts, f, found.value, run1);
    } else {
      KeepsAddFav(env, opts, nodeId, f, run1);
    }
  }

  lemma {:induction false} KeepsUpsertFavs(env: Env, opts: Options, nodeId: nat, specs: seq<FavoriteSpec>, run: Run)
    requires Consistent(run.db) && run.error == None && !opts.dryRun
    ensures Kept(run, UpsertFavs(env, opts, nodeId, specs, run))
    decreases specs
  {
    hide UpsertFav, Consistent;
    if specs != [] {
      var run1 := UpsertFav(env, opts, nodeId, specs[0], run);
      KeepsUpsertFav(env, opts, nodeId, specs[0], run);
      if run1.error == None { KeepsUpsertFavs(env, opts, nodeId, specs[1..], run1); }
    }
  }

  lemma {:induction false} KeepsPurgeFavs(env: Env, opts: Options, specs: seq<FavoriteSpec>, listing: seq<FavRow>, run: Run)
    requires Consistent(run.db) && run.error == None && !opts.dryRun
    requires DistinctIds(listing) && forall x :: x in listing ==> x in run.db.favs.rows
    ensures Kept(run, PurgeFavs(env, opts, specs, listing, run))
    decreases listing
  {
    hide Delete, Valid, FindId, UniqueKeys, DistinctIds, ListsFav;
    if listing != [] {
      DeleteFacts(run.db.favs, listing[0]);
      TailRows(listing);
      var run1 := PurgeFav(env, opts, specs, listing[0], run);
      if run1.error == None { KeepsPurgeFavs(env, opts, specs, listing[1..], run1); }
    }
  }

  lemma KeepsPurgeAllFavs(env: Env, opts: Options, nodeId: nat, specs: seq<FavoriteSpec>, run: Run)
    requires Consistent(run.db) && run.error == None && !opts.dryRun
    ensures Kept(run, PurgeAllFavs(env, opts, nodeId, specs, run))
  {
    UnderDistinct(run.db.favs.rows, nodeId);
    SortDistinct(FavBefore, Under(run.db.favs.rows, nodeId));
    FavPurgeIs(env, opts, nodeId, specs, run);
    hide PurgeAllFavs, PurgeFavs, Sort, Under, Kept;
    if Down(env, run.db) {
      KeptSame(run, PurgeAllFavs(env, opts, nodeId, specs, run));
    } else {
      KeepsPurgeFavs(env, opts, specs, Listing(run.db.favs.rows, nodeId), run.(db := Tick(run.db)));
    }
  }

  lemma KeepsApplyFavorites(env: Env, opts: Options, purge: bool, nodeId: nat, specs: seq<FavoriteSpec>, run: Run)
    requires Consistent(run.db) && run.error == None && !opts.dryRun
    ensures Kept(run, ApplyFavorites(env, opts, purge, nodeId, specs, run))
  {
    hide UpsertFavs, PurgeAllFavs;
    var run1 := UpsertFavs(env, opts, nodeId, specs, run);
    KeepsUpsertFavs(env, opts, nodeId, specs, run);
    if run1.error == None && purge { KeepsPurgeAllFavs(env, opts, nodeId, specs, run1); }
  }

  lemma KeepsRow(env: Env, opts: Options, spec: NodeSpec, run: Run)
    requires Consistent(run.db) && run.error == None && !opts.dryRun
    ensures Kept(run, RowRun(env, opts, spec, run))
  {
    hide Put, Insert, FindId, Find, Wanted, NodeChanged, DistinctIds, UniqueKeys;
    var found := Find(run.db.nodes.rows, spec.number);
    if found.Some? {
      FindIdOfRow(run.db.nodes.rows, found.value);
      PutNodeConsistent(run.db, found.value, Wanted(spec));
    } else {
      InsertNodeConsistent(run.db, spec.number, Wanted(spec));
    }
  }

  lemma {:induction false} KeepsUpsertNodes(env: Env, opts: Options, purge: bool, specs: seq<NodeSpec>, run: Run)
    requires Consistent(run.db) && run.error == None && !opts.dryRun
    ensures Kept(run, UpsertNodes(env, opts, purge, specs, run))
    decreases specs
  {
    hide UpsertNode, RowRun, ApplyFavorites, Consistent;
    if specs != [] {
      var run1 := RowRun(env, opts, specs[0], run);
      KeepsRow(env, opts, specs[0], run);
      UpsertNodeSplit(env, opts, purge, specs[0], run);
      if run1.error == None {
        KeepsApplyFavorites(env, opts, purge, IdOf(run.db, specs[0].number), specs[0].favorites, run1);
      }
      var run2 := UpsertNode(env, opts, purge, specs[0], run);
      if run2.error == None { KeepsUpsertNodes(env, opts, purge, specs[1..], run2); }
    }
  }

  // -------------------------------------------------------------- theorems

  /** The users phase accounts for every user and touches nothing else. */
  lemma UsersConserved(env: Env, sf: StateFile, opts: Options, run: Run)
    requires Consistent(run.db) && run.error == None && !opts.dryRun
    ensures var r := ApplyUsers(env, sf, opts, run);
      Consistent(r.db) && OnlyUsers(run, r) && UserBalance(r) == UserBalance(run)
  {
    UpsertUsersFacts(env, opts, sf.users, run);
    var run1 := UpsertUsers(env, opts, sf.users, run);
    hide UpsertUsers, PurgeUsers, CheckUsers, Sort;
    if run1.error == None && sf.purge.users && !Down(env, run1.db) {
      SortDistinct(UserBefore, run1.db.users.rows);
      PurgeUsersFacts(env, opts, sf.users, Sort(UserBefore, run1.db.users.rows), run1.(db := Tick(run1.db)));
    }
  }

  /** The favorites table just before the node purge, the only step that loses favorites without counting them. */
  function BeforeNodePurge(env: Env, sf: StateFile, opts: Options, db: Db): Run {
    var run := ApplyUsers(env, sf, opts, Start(db));
    if run.error.Some? || CheckNodes(sf.nodes).Some? then run
    else UpsertNodes(env, opts, sf.purge.favorites, sf.nodes, run)
  }

  lemma NodePurgeConserved(env: Env, opts: Options, specs: seq<NodeSpec>, run: Run)
    requires Consistent(run.db) && run.error == None && !opts.dryRun
    ensures var r := PurgeAllNodes(env, opts, specs, run);
      Purged(run.db, r.db) && NodeBalance(r) == NodeBalance(run)
      && r.report.users == run.report.users && r.report.favs == run.report.favs
  {
    hide PurgeNodes, Sort, Purged;
    if Down(env, run.db) {
      PurgedRefl(run.db, Tick(run.db));
    } else {
      SortDistinct(NodeBefore, run.db.nodes.rows);
      PurgeNodesFacts(env, opts, specs, Sort(NodeBefore, run.db.nodes.rows), run.(db := Tick(run.db)));
      PurgedAfterTick(run.db, PurgeAllNodes(env, opts, specs, run).db);
    }
  }

  lemma PurgedAfterTick(a: Db, b: Db)
    requires Purged(Tick(a), b)
    ensures Purged(a, b)
  {
  }

  /**
   Any real run, from any consistent database, finished or stopped by an error: users,
   nodes and favorites are what they were, plus those reported created, less those
   reported deleted, less - for favorites - those whose node the purge deleted.
   */
  lemma RowsConserved(env: Env, sf: StateFile, opts: Options, db: Db)
    requires Consistent(db) && !opts.dryRun
    ensures var r := ApplyRun(env, sf, opts, db); var mid := BeforeNodePurge(env, sf, opts, db);
      && Consistent(r.db)
      && |r.db.users.rows| == |db.users.rows| + r.report.users.created - r.report.users.deleted
      && |r.db.nodes.rows| == |db.nodes.rows| + r.report.nodes.created - r.report.nodes.deleted
      && |r.db.favs.rows| == |db.favs.rows| + r.report.favs.created - r.report.favs.deleted
                             - Count(Orphaned(r.db.nodes.rows), mid.db.favs.rows)
      && (forall f :: f in r.db.favs.rows <==> f in mid.db.favs.rows && FindId(r.db.nodes.rows, f.key.nodeId).Some?)
      && (!sf.purge.nodes ==> r == mid.(error := r.error))
  {
    var run := ApplyUsers(env, sf, opts, Start(db));
    UsersConserved(env, sf, opts, Start(db));
    var mid := BeforeNodePurge(env, sf, opts, db);
    var r := ApplyRun(env, sf, opts, db);
    if run.error == None { KeepsUpsertNodes(env, opts, sf.purge.favorites, sf.nodes, run); }
    hide ApplyUsers, UpsertNodes, PurgeAllNodes, CheckNodes;
    assert Consistent(mid.db) && NodeBalance(mid) == |db.nodes.rows| && FavBalance(mid) == |db.favs.rows|
        && UserBalance(mid) == |db.users.rows|;
    if mid.error == None && CheckNodes(sf.nodes) == None && sf.purge.nodes {
      NodePurgeConserved(env, opts, sf.nodes, mid);
    } else {
      PurgedRefl(mid.db, r.db);
    }
  }
}
