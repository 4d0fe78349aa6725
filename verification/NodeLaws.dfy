/** One listed node of an apply run: its row, and its favorites. */
module NodeLaws {
  import opened Wrappers
  import opened Tables
  import opened Sql
  import opened ApplySpec
  import opened UserPurgeLaws
  import opened FavLaws
  import opened FavPhaseLaws

  function NodeBalance(run: Run): int {
    |run.db.nodes.rows| - run.report.nodes.created + run.report.nodes.deleted
  }

  /** The id a listed number has, or gets. */
  function IdOf(db: Db, number: string): nat {
    match Find(db.nodes.rows, number) case Some(row) => row.id case None => db.nodes.next
  }

  /** A row is as its entry says, in the six fields the state file declares. */
  predicate NodeMatches(spec: NodeSpec, v: Node) {
    && v.name == spec.name
    && v.amiHost == (if spec.amiHost == "" then "localhost" else spec.amiHost)
    && v.amiPort == (if spec.amiPort == 0 then 5038 else spec.amiPort)
    && v.amiUser == spec.amiUser
    && v.amiPass == spec.amiPass
    && v.enabled == spec.enabled
  }

  lemma WantedMatches(spec: NodeSpec, v: Node)
    ensures NodeMatches(spec, v) <==> !NodeChanged(v, Wanted(spec))
    ensures NodeMatches(spec, Wanted(spec)) && Wanted(spec).description == "" && Wanted(spec).location == ""
  {
  }

  /** The row an entry leaves: a matching one stays, any other gets the entry's fields and blanks the rest. */
  ghost predicate RowDeclared(spec: NodeSpec, id: nat, before: Option<NodeRow>, after: Option<NodeRow>) {
    && after.Some? && after.value.id == id && after.value.key == spec.number && NodeMatches(spec, after.value.value)
    && if before.Some? && NodeMatches(spec, before.value.value) then after.value.value == before.value.value
       else after.value.value.description == "" && after.value.value.location == ""
  }

  function NodeDelta(spec: NodeSpec, before: Option<NodeRow>): (d: Tally)
    ensures d.deleted == 0
  {
    if before.None? then ZERO.OneCreated()
    else if NodeMatches(spec, before.value.value) then ZERO
    else ZERO.OneUpdated()
  }

  /** The favorites outside one node are as they were. */
  ghost predicate SameElsewhere(a: Db, b: Db, nodeId: nat) {
    && (forall k: FavKey :: k.nodeId != nodeId ==> Find(b.favs.rows, k) == Find(a.favs.rows, k))
    && (forall id :: id != nodeId ==> Under(b.favs.rows, id) == Under(a.favs.rows, id))
  }

  /** From `run` to `r`, one node's row was created, updated or left alone, and nothing else. */
  ghost predicate RowSet(spec: NodeSpec, run: Run, r: Run) {
    var before := Find(run.db.nodes.rows, spec.number);
    && Sound(r.db) && r.db.users == run.db.users && r.db.favs == run.db.favs
    && r.report.users == run.report.users && r.report.favs == run.report.favs
    && r.report.nodes == run.report.nodes.Plus(NodeDelta(spec, before))
    && NodeBalance(r) == NodeBalance(run)
    && (forall k :: k != spec.number ==> Find(r.db.nodes.rows, k) == Find(run.db.nodes.rows, k))
    && RowDeclared(spec, IdOf(run.db, spec.number), before, Find(r.db.nodes.rows, spec.number))
    && (before.Some? && NodeMatches(spec, before.value.value) ==> r.db.nodes == run.db.nodes)
  }

  lemma PutKeepsIds(t: Table<string, Node>, before: NodeRow, row: NodeRow, id: nat)
    requires Valid(t) && before in t.rows && before.id == row.id && FindId(t.rows, id).Some?
    ensures FindId(Put(t, row).rows, id).Some?
  {
    PutMembers(t, before, row);
    hide Put, FindId, Valid;
    var x := FindId(t.rows, id).value;
    assert (if x == before then row else x) in Put(t, row).rows;
  }

  lemma InsertKeepsIds(t: Table<string, Node>, number: string, node: Node, id: nat)
    requires Valid(t) && FindId(t.rows, id).Some?
    ensures FindId(Insert(t, number, node).rows, id).Some?
  {
    InsertMembers(t, number, node);
    hide Insert, FindId, Valid;
    assert FindId(t.rows, id).value in Insert(t, number, node).rows;
  }

  /** Replacing a node's row keeps the constraints: its favorites still have their node. */
  lemma PutNodeConsistent(db: Db, row: NodeRow, node: Node)
    requires Consistent(db) && row in db.nodes.rows
    ensures Consistent(Tick(db).(nodes := Put(db.nodes, Row(row.id, row.key, node))))
    ensures |Put(db.nodes, Row(row.id, row.key, node)).rows| == |db.nodes.rows|
    ensures forall id :: FindId(db.nodes.rows, id).Some? ==>
              FindId(Put(db.nodes, Row(row.id, row.key, node)).rows, id).Some?
  {
    hide Put, FindId, DistinctIds, UniqueKeys;
    PutMembers(db.nodes, row, Row(row.id, row.key, node));
    forall id | FindId(db.nodes.rows, id).Some?
      ensures FindId(Put(db.nodes, Row(row.id, row.key, node)).rows, id).Some?
    {
      PutKeepsIds(db.nodes, row, Row(row.id, row.key, node), id);
    }
  }

  lemma InsertNodeConsistent(db: Db, number: string, node: Node)
    requires Consistent(db)
    ensures Consistent(Tick(db).(nodes := Insert(db.nodes, number, node)))
    ensures |Insert(db.nodes, number, node).rows| == |db.nodes.rows| + 1
    ensures forall id :: FindId(db.nodes.rows, id).Some? ==> FindId(Insert(db.nodes, number, node).rows, id).Some?
  {
    InsertMembers(db.nodes, number, node);
    assert |Insert(db.nodes, number, node).rows| == |db.nodes.rows| + 1;
    hide Insert, FindId, Valid, UniqueKeys;
    forall id | FindId(db.nodes.rows, id).Some? ensures FindId(Insert(db.nodes, number, node).rows, id).Some? {
      InsertKeepsIds(db.nodes, number, node, id);
    }
  }

  lemma PutNodeSound(db: Db, row: NodeRow, node: Node)
    requires Sound(db) && row in db.nodes.rows
    ensures Sound(Tick(db).(nodes := Put(db.nodes, Row(row.id, row.key, node))))
    ensures |Put(db.nodes, Row(row.id, row.key, node)).rows| == |db.nodes.rows|
    ensures forall k :: Find(Put(db.nodes, Row(row.id, row.key, node)).rows, k)
                     == if k == row.key then Some(Row(row.id, row.key, node)) else Find(db.nodes.rows, k)
  {
    hide Put, Find, FindId, UniqueKeys, NoOrphans;
    PutFacts(db.nodes, row, Row(row.id, row.key, node));
    PutNodeConsistent(db, row, node);
  }

  lemma InsertNodeSound(db: Db, number: string, node: Node)
    requires Sound(db) && Find(db.nodes.rows, number).None?
    ensures var t := Insert(db.nodes, number, node);
      && Sound(Tick(db).(nodes := t)) && |t.rows| == |db.nodes.rows| + 1
      && forall k :: Find(t.rows, k) ==
                     if k == number then Some(Row(db.nodes.next, number, node)) else Find(db.nodes.rows, k)
  {
    hide Insert, Find, FindId, UniqueKeys, NoOrphans;
    InsertFacts(db.nodes, number, node);
    InsertNodeConsistent(db, number, node);
  }

  lemma CreatedRow(spec: NodeSpec, run: Run, r: Run)
    requires Sound(run.db) && Find(run.db.nodes.rows, spec.number) == None
    requires r == Run(Tick(run.db).(nodes := Insert(run.db.nodes, spec.number, Wanted(spec))),
                      run.report.(nodes := run.report.nodes.OneCreated()), None)
    ensures RowSet(spec, run, r)
  {
    hide Insert, Find, Sound, NodeChanged, Wanted, NodeMatches;
    WantedMatches(spec, Wanted(spec));
    InsertNodeSound(run.db, spec.number, Wanted(spec));
  }

  lemma UpdatedRow(spec: NodeSpec, run: Run, r: Run, row: NodeRow)
    requires Sound(run.db) && Find(run.db.nodes.rows, spec.number) == Some(row) && NodeChanged(row.value, Wanted(spec))
    requires r == Run(Tick(run.db).(nodes := Put(run.db.nodes, Row(row.id, spec.number, Wanted(spec)))),
                      run.report.(nodes := run.report.nodes.OneUpdated()), None)
    ensures RowSet(spec, run, r)
  {
    hide Put, Find, Sound, NodeChanged, Wanted, NodeMatches;
    WantedMatches(spec, Wanted(spec));
    WantedMatches(spec, row.value);
    PutNodeSound(run.db, row, Wanted(spec));
  }

  /** The run just before the favorites of a listed node are applied, when it gets there. */
  function RowRun(env: Env, opts: Options, spec: NodeSpec, run: Run): Run {
    var reply := GetNodeByNumber(env, run.db, spec.number);
    var run1 := run.(db := reply.db);
    match reply.result
    case Ok(row) => SyncNodeRow(env, opts, spec, row, run1)
    case Err(NotFound) =>
      var run2 := After(run1, CreateNode(env, run1.db, spec.number, Wanted(spec)));
      if run2.error.Some? then run2 else run2.(report := run2.report.(nodes := run2.report.nodes.OneCreated()))
    case Err(e) => Stop(run1, DatabaseError(e))
  }

  lemma RowRunFacts(env: Env, opts: Options, spec: NodeSpec, run: Run)
    requires Sound(run.db) && run.error == None && !opts.dryRun
    ensures var r := RowRun(env, opts, spec, run);
      && (if r.error == None then RowSet(spec, run, r)
          else SameTables(run.db, r.db) && r.report == run.report && !Reliable(env))
  {
    var run1 := run.(db := Tick(run.db));
    var before := Find(run.db.nodes.rows, spec.number);
    var r := RowRun(env, opts, spec, run);
    if before.Some? { WantedMatches(spec, before.value.value); }
    if r.error == None {
      if before.None? {
        CreatedRow(spec, run1, r);
      } else if NodeChanged(before.value.value, Wanted(spec)) {
        UpdatedRow(spec, run1, r, before.value);
      }
    }
  }

  /** A real pass is the row statement followed by the favorites of that row's id. */
  lemma UpsertNodeSplit(env: Env, opts: Options, purgeFavs: bool, spec: NodeSpec, run: Run)
    requires run.error == None && !opts.dryRun
    ensures var run1 := RowRun(env, opts, spec, run);
      UpsertNode(env, opts, purgeFavs, spec, run) ==
        if run1.error.Some? then run1
        else ApplyFavorites(env, opts, purgeFavs, IdOf(run.db, spec.number), spec.favorites, run1)
  {
    hide ApplyFavorites, NodeChanged, Wanted, Find;
  }

  /** Any real pass, stopped early or not. */
  lemma UpsertNodeFacts(env: Env, opts: Options, purgeFavs: bool, spec: NodeSpec, run: Run)
    requires Sound(run.db) && run.error == None && !opts.dryRun
    ensures var r := UpsertNode(env, opts, purgeFavs, spec, run);
      && Sound(r.db) && r.db.users == run.db.users && r.report.users == run.report.users
      && NodeBalance(r) == NodeBalance(run) && FavBalance(r) == FavBalance(run)
      && r.report.nodes.deleted == run.report.nodes.deleted
      && (!purgeFavs ==> r.report.favs.deleted == run.report.favs.deleted)
      && run.report.Total() <= r.report.Total()
      && (forall k :: k != spec.number ==> Find(r.db.nodes.rows, k) == Find(run.db.nodes.rows, k))
      && (Find(run.db.nodes.rows, spec.number).Some? ==> Find(r.db.nodes.rows, spec.number).Some?)
      && (Find(run.db.nodes.rows, spec.number).Some? ==> IdOf(r.db, spec.number) == IdOf(run.db, spec.number))
      && SameElsewhere(run.db, r.db, IdOf(run.db, spec.number))
      && (Reliable(env) && CheckFavs(spec.favorites) == None ==> r.error == None)
  {
    hide RowRun, ApplyFavorites, UpsertNode, Sound, Under, NodeChanged, Wanted, NodeMatches;
    var run1 := RowRun(env, opts, spec, run);
    RowRunFacts(env, opts, spec, run);
    UpsertNodeSplit(env, opts, purgeFavs, spec, run);
    if run1.error == None {
      RowExists(spec, run, run1);
      ApplyFavoritesFacts(env, opts, purgeFavs, IdOf(run.db, spec.number), spec.favorites, run1);
    } else {
      SameTablesSound(run.db, run1.db);
    }
  }

  lemma SameTablesSound(a: Db, b: Db)
    requires Sound(a) && SameTables(a, b)
    ensures Sound(b)
  {
  }

  lemma RowExists(spec: NodeSpec, run: Run, run1: Run)
    requires RowSet(spec, run, run1)
    ensures FindId(run1.db.nodes.rows, IdOf(run.db, spec.number)).Some?
    ensures IdOf(run1.db, spec.number) == IdOf(run.db, spec.number)
  {
    assert Find(run1.db.nodes.rows, spec.number).value in run1.db.nodes.rows;
  }

  /** What a real pass that finishes leaves of the node's row. */
  lemma UpsertNodeRow(env: Env, opts: Options, purgeFavs: bool, spec: NodeSpec, run: Run)
    requires Sound(run.db) && run.error == None && !opts.dryRun
    requires UpsertNode(env, opts, purgeFavs, spec, run).error == None
    ensures var r := UpsertNode(env, opts, purgeFavs, spec, run); var before := Find(run.db.nodes.rows, spec.number);
      && RowDeclared(spec, IdOf(run.db, spec.number), before, Find(r.db.nodes.rows, spec.number))
      && r.report.nodes == run.report.nodes.Plus(NodeDelta(spec, before))
      && (before.Some? && NodeMatches(spec, before.value.value) ==> r.db.nodes == run.db.nodes)
      && run.report.favs.Total() <= r.report.favs.Total()
  {
    hide RowRun, ApplyFavorites, UpsertNode, Sound, Under, NodeChanged, Wanted, NodeMatches;
    var run1 := RowRun(env, opts, spec, run);
    RowRunFacts(env, opts, spec, run);
    UpsertNodeSplit(env, opts, purgeFavs, spec, run);
    RowExists(spec, run, run1);
    ApplyFavoritesFacts(env, opts, purgeFavs, IdOf(run.db, spec.number), spec.favorites, run1);
  }

  /** The row is settled before any favorite is looked at: a pass that leaves it otherwise has changed nothing. */
  lemma RowComesFirst(env: Env, opts: Options, purgeFavs: bool, spec: NodeSpec, run: Run)
    requires Sound(run.db) && run.error == None && !opts.dryRun
    ensures var r := UpsertNode(env, opts, purgeFavs, spec, run); var found := Find(r.db.nodes.rows, spec.number);
      || (found.Some? && NodeMatches(spec, found.value.value))
      || (r.error.Some? && SameTables(run.db, r.db) && r.report == run.report)
  {
    hide RowRun, ApplyFavorites, UpsertNode, Sound, Under, NodeChanged, Wanted, NodeMatches;
    var run1 := RowRun(env, opts, spec, run);
    RowRunFacts(env, opts, spec, run);
    UpsertNodeSplit(env, opts, purgeFavs, spec, run);
    if run1.error == None {
      RowExists(spec, run, run1);
      ApplyFavoritesFacts(env, opts, purgeFavs, IdOf(run.db, spec.number), spec.favorites, run1);
    }
  }

  /** What a real pass that finishes leaves of each favorite of the node. */
  lemma UpsertNodeFavs(env: Env, opts: Options, purgeFavs: bool, spec: NodeSpec, run: Run, number: string)
    requires Sound(run.db) && run.error == None && !opts.dryRun
    requires UpsertNode(env, opts, purgeFavs, spec, run).error == None
    ensures var r := UpsertNode(env, opts, purgeFavs, spec, run); var key := FavKey(IdOf(run.db, spec.number), number);
      FavOutcome(purgeFavs, spec.favorites, number, Find(run.db.favs.rows, key), Find(r.db.favs.rows, key))
  {
    hide RowRun, ApplyFavorites, UpsertNode, Sound, Under, NodeChanged, Wanted, NodeMatches, FavOutcome;
    var run1 := RowRun(env, opts, spec, run);
    RowRunFacts(env, opts, spec, run);
    UpsertNodeSplit(env, opts, purgeFavs, spec, run);
    RowExists(spec, run, run1);
    ApplyFavoritesOutcome(env, opts, purgeFavs, IdOf(run.db, spec.number), spec.favorites, run1, number);
  }

  // --------------------------------------------------------------- reports

  /** A node that is not there yet has no favorites: its id was never handed out. */
  lemma FreshNodeIsEmpty(db: Db)
    requires Consistent(db)
    ensures Under(db.favs.rows, db.nodes.next) == []
  {
    var mine := Under(db.favs.rows, db.nodes.next);
    HeadIsMember(mine);
  }

  lemma HeadIsMember<T>(s: seq<T>)
    ensures s != [] ==> s[0] in s
  {
  }

  lemma {:induction false} EmptyForecast(nodeId: nat, specs: seq<FavoriteSpec>)
    ensures UpsertForecast(nodeId, specs, []) == ZERO.(created := |specs|)
  {
    if specs != [] { EmptyForecast(nodeId, specs[1..]); }
  }

  /** The favorite counts of one listed node; a dry run does not look below a node it would create. */
  function FavsOf(opts: Options, purgeFavs: bool, spec: NodeSpec, db: Db): Tally {
    match Find(db.nodes.rows, spec.number)
    case Some(row) => FavsForecast(purgeFavs, row.id, spec.favorites, Under(db.favs.rows, row.id))
    case None => ZERO.(created := if opts.dryRun then 0 else |spec.favorites|)
  }

  lemma UpsertNodeReport(env: Env, opts: Options, purgeFavs: bool, spec: NodeSpec, run: Run)
    requires Sound(run.db) && run.error == None && !opts.dryRun && DistinctFavs(spec.favorites)
    requires UpsertNode(env, opts, purgeFavs, spec, run).error == None
    ensures var r := UpsertNode(env, opts, purgeFavs, spec, run);
      && r.report.nodes == run.report.nodes.Plus(NodeDelta(spec, Find(run.db.nodes.rows, spec.number)))
      && r.report.favs == run.report.favs.Plus(FavsOf(opts, purgeFavs, spec, run.db))
  {
    UpsertNodeRow(env, opts, purgeFavs, spec, run);
    if Find(run.db.nodes.rows, spec.number).None? { FreshNodeIsEmpty(run.db); }
    hide RowRun, ApplyFavorites, UpsertNode, Sound, Under, NodeChanged, Wanted, NodeMatches;
    var id := IdOf(run.db, spec.number);
    var run1 := RowRun(env, opts, spec, run);
    RowRunFacts(env, opts, spec, run);
    UpsertNodeSplit(env, opts, purgeFavs, spec, run);
    RowExists(spec, run, run1);
    ApplyFavoritesReport(env, opts, purgeFavs, id, spec.favorites, run1);
    EmptyForecast(id, spec.favorites);
  }

  lemma UpsertNodeDry(env: Env, opts: Options, purgeFavs: bool, spec: NodeSpec, run: Run)
    requires run.error == None && opts.dryRun
    ensures var r := UpsertNode(env, opts, purgeFavs, spec, run);
      && SameTables(r.db, run.db) && r.report.users == run.report.users
      && (Reliable(env) && CheckFavs(spec.favorites) == None ==> r.error == None)
      && (r.error == None ==>
            && r.report.nodes == run.report.nodes.Plus(NodeDelta(spec, Find(run.db.nodes.rows, spec.number)))
            && r.report.favs == run.report.favs.Plus(FavsOf(opts, purgeFavs, spec, run.db)))
  {
    hide ApplyFavorites, FavsForecast, NodeChanged, Wanted, NodeMatches, Under;
    var before := Find(run.db.nodes.rows, spec.number);
    if before.Some? { WantedMatches(spec, before.value.value); }
    if before.Some? && !Down(env, run.db) {
      var run1 := SyncNodeRow(env, opts, spec, before.value, run.(db := Tick(run.db)));
      ApplyFavoritesDry(env, opts, purgeFavs, before.value.id, spec.favorites, run1);
    }
  }
}
