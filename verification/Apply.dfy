/** `yaamon apply`: the loops over the state file and over the rows to purge. */
module Apply {
  import opened Wrappers
  import opened Sql
  import opened Databases
  import opened ApplySpec

  /** The run a database, a report and an error amount to. */
  ghost function RunOf(db: Database, report: Report, error: Option<Error>): Run
    reads db
  {
    Run(db.State(), report, error)
  }

  method Apply(db: Database, sf: StateFile, opts: Options) returns (report: Report, error: Option<Error>)
    modifies db
    ensures RunOf(db, report, error) == ApplyRun(db.env, sf, opts, old(db.State()))
  {
    report, error := ApplyUsers(db, sf, opts, NO_CHANGES);
    if error.Some? { return; }
    report, error := ApplyNodes(db, sf, opts, report);
  }

  method ApplyUsers(db: Database, sf: StateFile, opts: Options, r: Report)
    returns (report: Report, error: Option<Error>)
    modifies db
    ensures RunOf(db, report, error) == ApplySpec.ApplyUsers(db.env, sf, opts, Run(old(db.State()), r, None))
  {
    report, error := r, None;
    ghost var run0 := Run(old(db.State()), r, None);
    var wanted: set<string> := {};
    for i := 0 to |sf.users|
      invariant error == None && db.State() == old(db.State()) && report == r
      invariant CheckUsers(sf.users) == CheckUsers(sf.users[i..])
      invariant forall n :: n in wanted <==> ListsUser(sf.users[..i], n)
    {
      var u := sf.users[i];
      if u.username == "" { return r, Some(MissingUsername); }
      if !ValidPermission(u.permission) { return r, Some(InvalidPermission); }
      assert sf.users[..i+1] == sf.users[..i] + [u];
      wanted := wanted + {u.username};
    }
    assert sf.users[..|sf.users|] == sf.users;

    for i := 0 to |sf.users|
      invariant error == None
      invariant UpsertUsers(db.env, opts, sf.users, run0)
             == UpsertUsers(db.env, opts, sf.users[i..], RunOf(db, report, None))
    {
      var spec := sf.users[i];
      UpsertUsersStep(db.env, opts, sf.users, i, RunOf(db, report, None));
      report, error := UpsertUser(db, opts, spec, report);
      if error.Some? { return; }
    }

    if sf.purge.users {
      ghost var run1 := RunOf(db, report, None);
      var existing := db.ListUsers();
      if existing.Err? { return report, Some(DatabaseError(existing.error)); }
      var listing := existing.value;
      ghost var run2 := RunOf(db, report, None);
      for i := 0 to |listing|
        invariant error == None
        invariant PurgeUsers(db.env, opts, sf.users, listing, run2)
               == PurgeUsers(db.env, opts, sf.users, listing[i..], RunOf(db, report, None))
      {
        PurgeUsersStep(db.env, opts, sf.users, listing, i, RunOf(db, report, None));
        if listing[i].key !in wanted {
          report, error := PurgeUnlistedUser(db, opts, sf.users, listing[i], report);
        }
        if error.Some? { return; }
      }
    }
  }

  /** One pass of the loop over the listed users. */
  method UpsertUser(db: Database, opts: Options, spec: UserSpec, r: Report)
    returns (report: Report, error: Option<Error>)
    modifies db
    ensures RunOf(db, report, error) == ApplySpec.UpsertUser(db.env, opts, spec, Run(old(db.State()), r, None))
  {
    report, error := r, None;
    var existing := db.GetUser(spec.username);
    if existing == Err(NotFound) {
      if opts.dryRun {
        report := report.(users := report.users.OneCreated());
        return;
      }
      var hash := HashPassword(db.env, spec.password, db.clock);
      if hash.None? { return report, Some(HashFailed); }
      var created := db.CreateUser(spec.username, hash.value, spec.permission);
      if created.Err? { return report, Some(DatabaseError(created.error)); }
      report := report.(users := report.users.OneCreated());
      return;
    }
    if existing.Err? { return report, Some(DatabaseError(existing.error)); }

    var row := existing.value;
    var changed := false;
    if row.value.permission != spec.permission {
      if !opts.dryRun {
        var done := db.UpdateUserPermission(row.id, spec.permission);
        if done.Err? { return report, Some(DatabaseError(done.error)); }
      }
      changed := true;
    }
    if opts.resetPasswords {
      if !opts.dryRun {
        var hash := HashPassword(db.env, spec.password, db.clock);
        if hash.None? { return report, Some(HashFailed); }
        var done := db.UpdateUserPassword(row.id, hash.value);
        if done.Err? { return report, Some(DatabaseError(done.error)); }
      }
      changed := true;
    }
    if changed {
      report := report.(users := report.users.OneUpdated());
    }
  }

  /** One pass of the purge loop, for a user the state file does not list. */
  method PurgeUnlistedUser(db: Database, opts: Options, ghost specs: seq<UserSpec>, u: UserRow, r: Report)
    returns (report: Report, error: Option<Error>)
    requires !ListsUser(specs, u.key)
    modifies db
    ensures RunOf(db, report, error) == PurgeUser(db.env, opts, specs, u, Run(old(db.State()), r, None))
  {
    report, error := r, None;
    if u.value.permission == SUPERUSER {
      var count := db.CountSuperusers();
      var n := match count case Ok(n) => n case Err(_) => 0;
      if n <= 1 { return; }
    }
    if !opts.dryRun {
      var done := db.DeleteUser(u.id);
      if done.Err? { return report, Some(DatabaseError(done.error)); }
    }
    report := report.(users := report.users.OneDeleted());
  }

  method ApplyNodes(db: Database, sf: StateFile, opts: Options, r: Report)
    returns (report: Report, error: Option<Error>)
    modifies db
    ensures RunOf(db, report, error) == ApplySpec.ApplyNodes(db.env, sf, opts, Run(old(db.State()), r, None))
  {
    report, error := r, None;
    ghost var run0 := Run(old(db.State()), r, None);
    var wanted: set<string> := {};
    for i := 0 to |sf.nodes|
      invariant error == None && db.State() == old(db.State()) && report == r
      invariant CheckNodes(sf.nodes) == CheckNodes(sf.nodes[i..])
      invariant forall n :: n in wanted <==> ListsNode(sf.nodes[..i], n)
    {
      var n := sf.nodes[i];
      if n.number == "" { return r, Some(MissingNodeNumber); }
      assert sf.nodes[..i+1] == sf.nodes[..i] + [n];
      wanted := wanted + {n.number};
    }
    assert sf.nodes[..|sf.nodes|] == sf.nodes;

    for i := 0 to |sf.nodes|
      invariant error == None
      invariant UpsertNodes(db.env, opts, sf.purge.favorites, sf.nodes, run0)
             == UpsertNodes(db.env, opts, sf.purge.favorites, sf.nodes[i..], RunOf(db, report, None))
    {
      UpsertNodesStep(db.env, opts, sf.purge.favorites, sf.nodes, i, RunOf(db, report, None));
      report, error := UpsertNode(db, opts, sf.purge.favorites, sf.nodes[i], report);
      if error.Some? { return; }
    }

    if sf.purge.nodes {
      var existing := db.ListNodes();
      if existing.Err? { return report, Some(DatabaseError(existing.error)); }
      var listing := existing.value;
      ghost var run2 := RunOf(db, report, None);
      for i := 0 to |listing|
        invariant error == None
        invariant PurgeNodes(db.env, opts, sf.nodes, listing, run2)
               == PurgeNodes(db.env, opts, sf.nodes, listing[i..], RunOf(db, report, None))
      {
        PurgeNodesStep(db.env, opts, sf.nodes, listing, i, RunOf(db, report, None));
        if listing[i].key !in wanted {
          report, error := PurgeUnlistedNode(db, opts, sf.nodes, listing[i], report);
        }
        if error.Some? { return; }
      }
    }
  }

  /** One pass of the purge loop, for a node the state file does not list. */
  method PurgeUnlistedNode(db: Database, opts: Options, ghost specs: seq<NodeSpec>, row: NodeRow, r: Report)
    returns (report: Report, error: Option<Error>)
    requires !ListsNode(specs, row.key)
    modifies db
    ensures RunOf(db, report, error) == PurgeNode(db.env, opts, specs, row, Run(old(db.State()), r, None))
  {
    report, error := r, None;
    if !opts.dryRun {
      var done := db.DeleteNode(row.id);
      if done.Err? { return report, Some(DatabaseError(done.error)); }
    }
    report := report.(nodes := report.nodes.OneDeleted());
  }

  /** One pass of the loop over the listed nodes. */
  method UpsertNode(db: Database, opts: Options, purgeFavs: bool, spec: NodeSpec, r: Report)
    returns (report: Report, error: Option<Error>)
    modifies db
    ensures RunOf(db, report, error)
         == ApplySpec.UpsertNode(db.env, opts, purgeFavs, spec, Run(old(db.State()), r, None))
  {
    report, error := r, None;
    var existing := db.GetNodeByNumber(spec.number);
    if existing == Err(NotFound) {
      if opts.dryRun {
        report := report.(nodes := report.nodes.OneCreated());
      } else {
        var n := db.CreateNode(spec.number, Wanted(spec));
        if n.Err? { return report, Some(DatabaseError(n.error)); }
        report := report.(nodes := report.nodes.OneCreated());
        report, error := ApplyFavorites(db, opts, purgeFavs, n.value, spec.favorites, report);
      }
      return;
    }
    if existing.Err? { return report, Some(DatabaseError(existing.error)); }

    var row := existing.value;
    if NodeChanged(row.value, Wanted(spec)) {
      if !opts.dryRun {
        var done := db.UpdateNode(row.id, spec.number, Wanted(spec));
        if done.Err? { return report, Some(DatabaseError(done.error)); }
      }
      report := report.(nodes := report.nodes.OneUpdated());
    }
    report, error := ApplyFavorites(db, opts, purgeFavs, row.id, spec.favorites, report);
  }

  method ApplyFavorites(db: Database, opts: Options, purge: bool, nodeId: nat, specs: seq<FavoriteSpec>, r: Report)
    returns (report: Report, error: Option<Error>)
    modifies db
    ensures RunOf(db, report, error)
         == ApplySpec.ApplyFavorites(db.env, opts, purge, nodeId, specs, Run(old(db.State()), r, None))
  {
    report, error := r, None;
    ghost var run0 := Run(old(db.State()), r, None);
    var wanted: set<string> := {};
    for i := 0 to |specs|
      invariant error == None && db.State() == old(db.State()) && report == r
      invariant CheckFavs(specs) == CheckFavs(specs[i..])
      invariant forall n :: n in wanted <==> ListsFav(specs[..i], n)
    {
      if specs[i].number == "" { return r, Some(MissingFavoriteNumber); }
      assert specs[..i+1] == specs[..i] + [specs[i]];
      wanted := wanted + {specs[i].number};
    }
    assert specs[..|specs|] == specs;

    for i := 0 to |specs|
      invariant error == None
      invariant UpsertFavs(db.env, opts, nodeId, specs, run0)
             == UpsertFavs(db.env, opts, nodeId, specs[i..], RunOf(db, report, None))
    {
      UpsertFavsStep(db.env, opts, nodeId, specs, i, RunOf(db, report, None));
      report, error := UpsertFav(db, opts, nodeId, specs[i], report);
      if error.Some? { return; }
    }
    if purge {
      report, error := PurgeUnlistedFavs(db, opts, nodeId, specs, wanted, report);
    }
  }

  /** The purge loop over a node's favorites. */
  method PurgeUnlistedFavs(db: Database, opts: Options, nodeId: nat, ghost specs: seq<FavoriteSpec>,
                           wanted: set<string>, r: Report)
    returns (report: Report, error: Option<Error>)
    requires forall n :: n in wanted <==> ListsFav(specs, n)
    modifies db
    ensures RunOf(db, report, error) == PurgeAllFavs(db.env, opts, nodeId, specs, Run(old(db.State()), r, None))
  {
    report, error := r, None;
    var _, existing := db.ListFavoritesByNode(nodeId);
    if existing.Err? { return report, Some(DatabaseError(existing.error)); }
    var listing := existing.value;
    ghost var run2 := RunOf(db, report, None);
    for i := 0 to |listing|
      invariant error == None
      invariant PurgeFavs(db.env, opts, specs, listing, run2)
             == PurgeFavs(db.env, opts, specs, listing[i..], RunOf(db, report, None))
    {
      PurgeFavsStep(db.env, opts, specs, listing, i, RunOf(db, report, None));
      if listing[i].key.number !in wanted {
        report, error := PurgeUnlistedFav(db, opts, specs, listing[i], report);
      }
      if error.Some? { return; }
    }
  }

  /** One pass of that loop, for a favorite the state file does not list. */
  method PurgeUnlistedFav(db: Database, opts: Options, ghost specs: seq<FavoriteSpec>, row: FavRow, r: Report)
    returns (report: Report, error: Option<Error>)
    requires !ListsFav(specs, row.key.number)
    modifies db
    ensures RunOf(db, report, error) == PurgeFav(db.env, opts, specs, row, Run(old(db.State()), r, None))
  {
    report, error := r, None;
    if !opts.dryRun {
      var done := db.DeleteFavorite(row.id);
      if done.Err? { return report, Some(DatabaseError(done.error)); }
    }
    report := report.(favs := report.favs.OneDeleted());
  }

  /** One pass of the loop over a node's listed favorites. */
  method UpsertFav(db: Database, opts: Options, nodeId: nat, f: FavoriteSpec, r: Report)
    returns (report: Report, error: Option<Error>)
    modifies db
    ensures RunOf(db, report, error) == ApplySpec.UpsertFav(db.env, opts, nodeId, f, Run(old(db.State()), r, None))
  {
    report, error := r, None;
    var existing := db.GetFavoriteByNodeNumber(nodeId, f.number);
    if existing == Err(NotFound) {
      if opts.dryRun {
        report := report.(favs := report.favs.OneCreated());
        return;
      }
      var created := db.CreateFavorite(FavKey(nodeId, f.number),
                                       Fav(f.callsign, f.description, f.location, "", 0, GroupOf(f), 0));
      if created.Err? { return report, Some(DatabaseError(created.error)); }
      report := report.(favs := report.favs.OneCreated());
      return;
    }
    if existing.Err? { return report, Some(DatabaseError(existing.error)); }

    var row := existing.value;
    if FavChanged(f, row.value) {
      if !opts.dryRun {
        var done := db.UpdateFavorite(row.id, f.number,
          Fav(f.callsign, f.description, f.location, "", row.value.sortOrder, GroupOf(f), 0));
        if done.Err? { return report, Some(DatabaseError(done.error)); }
      }
      report := report.(favs := report.favs.OneUpdated());
    }
  }
}
