/**
 What one run of `yaamon apply` computes, as a function of the state file, the
 options and the database: a `Run` is the database, the change report so far, and
 the error that ended the run, if one did.
 */
module ApplySpec {
  import opened Wrappers
  import opened Sorting
  import opened Sql

  datatype PurgePolicy = PurgePolicy(users: bool, nodes: bool, favorites: bool)

  datatype UserSpec = UserSpec(username: string, permission: string, password: string)

  datatype FavoriteSpec = FavoriteSpec(number: string, callsign: string, description: string,
                                       location: string, groupName: string)

  datatype NodeSpec = NodeSpec(name: string, number: string, amiHost: string, amiPort: int, amiUser: string,
                               amiPass: string, enabled: bool, favorites: seq<FavoriteSpec>)

  datatype StateFile = StateFile(purge: PurgePolicy, users: seq<UserSpec>, nodes: seq<NodeSpec>)

  datatype Options = Options(dryRun: bool, resetPasswords: bool)

  /** How many rows of one table were created, updated and deleted. */
  datatype Tally = Tally(created: nat, updated: nat, deleted: nat)
  {
    function OneCreated(): Tally { this.(created := created + 1) }
    function OneUpdated(): Tally { this.(updated := updated + 1) }
    function OneDeleted(): Tally { this.(deleted := deleted + 1) }

    function Total(): nat { created + updated + deleted }

    function Plus(other: Tally): Tally {
      Tally(created + other.created, updated + other.updated, deleted + other.deleted)
    }
  }

  const ZERO := Tally(0, 0, 0)

  /** The nine counters of the change report, by table. */
  datatype Report = Report(users: Tally, nodes: Tally, favs: Tally)
  {
    function Total(): nat { users.Total() + nodes.Total() + favs.Total() }
  }

  const NO_CHANGES := Report(ZERO, ZERO, ZERO)

  datatype Error = MissingUsername | InvalidPermission | HashFailed | MissingNodeNumber
                 | MissingFavoriteNumber | DatabaseError(cause: SqlError)

  datatype Run = Run(db: Db, report: Report, error: Option<Error>)

  function Stop(run: Run, e: Error): Run {
    run.(error := Some(e))
  }

  /** The run after a write statement: stopped if the statement failed. */
  function After<T>(run: Run, reply: Reply<T>): Run {
    match reply.result
    case Ok(_) => run.(db := reply.db)
    case Err(e) => Stop(run.(db := reply.db), DatabaseError(e))
  }

  // ----------------------------------------------------------------- users

  predicate ListsUser(specs: seq<UserSpec>, username: string) {
    exists s :: s in specs && s.username == username
  }

  function CheckUsers(specs: seq<UserSpec>): Option<Error> {
    if specs == [] then None
    else if specs[0].username == "" then Some(MissingUsername)
    else if !ValidPermission(specs[0].permission) then Some(InvalidPermission)
    else CheckUsers(specs[1..])
  }

  /** bcrypt refuses some passwords; the program itself refuses those under 8 bytes. */
  function HashPassword(env: Env, password: string, salt: nat): Option<string> {
    if |password| < 8 then None else env.bcrypt(password, salt)
  }

  function AddUser(env: Env, opts: Options, spec: UserSpec, run: Run): Run {
    var counted := run.report.(users := run.report.users.OneCreated());
    if opts.dryRun then run.(report := counted)
    else match HashPassword(env, spec.password, run.db.clock)
      case None => Stop(run, HashFailed)
      case Some(hash) =>
        var run1 := After(run, CreateUser(env, run.db, spec.username, hash, spec.permission));
        if run1.error.Some? then run1 else run1.(report := counted)
  }

  function SyncPermission(env: Env, opts: Options, spec: UserSpec, row: UserRow, run: Run): Run {
    if row.value.permission == spec.permission || opts.dryRun then run
    else After(run, UpdateUserPermission(env, run.db, row.id, spec.permission))
  }

  function SyncPassword(env: Env, opts: Options, spec: UserSpec, row: UserRow, run: Run): Run {
    if !opts.resetPasswords || opts.dryRun then run
    else match HashPassword(env, spec.password, run.db.clock)
      case None => Stop(run, HashFailed)
      case Some(hash) => After(run, UpdateUserPassword(env, run.db, row.id, hash))
  }

  function UserDiffers(opts: Options, spec: UserSpec, row: UserRow): bool {
    row.value.permission != spec.permission || opts.resetPasswords
  }

  function SyncUser(env: Env, opts: Options, spec: UserSpec, row: UserRow, run: Run): Run {
    var run1 := SyncPermission(env, opts, spec, row, run);
    if run1.error.Some? then run1 else
    var run2 := SyncPassword(env, opts, spec, row, run1);
    if run2.error.Some? then run2
    else if UserDiffers(opts, spec, row) then
      run2.(report := run2.report.(users := run2.report.users.OneUpdated()))
    else run2
  }

  function UpsertUser(env: Env, opts: Options, spec: UserSpec, run: Run): Run {
    var reply := GetUser(env, run.db, spec.username);
    var run1 := run.(db := reply.db);
    match reply.result
    case Ok(row) => SyncUser(env, opts, spec, row, run1)
    case Err(NotFound) => AddUser(env, opts, spec, run1)
    case Err(e) => Stop(run1, DatabaseError(e))
  }

  function UpsertUsers(env: Env, opts: Options, specs: seq<UserSpec>, run: Run): Run {
    if specs == [] || run.error.Some? then run
    else UpsertUsers(env, opts, specs[1..], UpsertUser(env, opts, specs[0], run))
  }

  /** The number the guard sees: the query's error is ignored and leaves 0. */
  function SuperusersSeen(reply: Reply<nat>): nat {
    match reply.result case Ok(n) => n case Err(_) => 0
  }

  function RemoveUser(env: Env, opts: Options, u: UserRow, run: Run): Run {
    var counted := run.report.(users := run.report.users.OneDeleted());
    if opts.dryRun then run.(report := counted)
    else
      var run1 := After(run, DeleteUser(env, run.db, u.id));
      if run1.error.Some? then run1 else run1.(report := counted)
  }

  function PurgeUser(env: Env, opts: Options, specs: seq<UserSpec>, u: UserRow, run: Run): Run {
    if ListsUser(specs, u.key) then run
    else if u.value.permission == SUPERUSER then
      var reply := CountSuperusers(env, run.db);
      var run1 := run.(db := reply.db);
      if SuperusersSeen(reply) <= 1 then run1 else RemoveUser(env, opts, u, run1)
    else RemoveUser(env, opts, u, run)
  }

  function PurgeUsers(env: Env, opts: Options, specs: seq<UserSpec>, listing: seq<UserRow>, run: Run): Run {
    if listing == [] || run.error.Some? then run
    else PurgeUsers(env, opts, specs, listing[1..], PurgeUser(env, opts, specs, listing[0], run))
  }

  function PurgeAllUsers(env: Env, opts: Options, specs: seq<UserSpec>, run: Run): Run {
    var reply := ListUsers(env, run.db);
    match reply.result
    case Ok(listing) => PurgeUsers(env, opts, specs, listing, run.(db := reply.db))
    case Err(e) => Stop(run.(db := reply.db), DatabaseError(e))
  }

  function ApplyUsers(env: Env, sf: StateFile, opts: Options, run: Run): Run {
    match CheckUsers(sf.users)
    case Some(e) => Stop(run, e)
    case None =>
      var run1 := UpsertUsers(env, opts, sf.users, run);
      if run1.error.Some? || !sf.purge.users then run1
      else PurgeAllUsers(env, opts, sf.users, run1)
  }

  // ------------------------------------------------------------- favorites

  predicate ListsFav(specs: seq<FavoriteSpec>, number: string) {
    exists f :: f in specs && f.number == number
  }

  function CheckFavs(specs: seq<FavoriteSpec>): Option<Error> {
    if specs == [] then None
    else if specs[0].number == "" then Some(MissingFavoriteNumber)
    else CheckFavs(specs[1..])
  }

  function GroupOf(f: FavoriteSpec): string {
    if f.groupName == "" then "default" else f.groupName
  }

  function FavChanged(f: FavoriteSpec, v: Fav): bool {
    v.callsign != f.callsign || v.description != f.description ||
    v.location != f.location || v.groupName != GroupOf(f)
  }

  function AddFav(env: Env, opts: Options, nodeId: nat, f: FavoriteSpec, run: Run): Run {
    var counted := run.report.(favs := run.report.favs.OneCreated());
    if opts.dryRun then run.(report := counted)
    else
      var fav := Fav(f.callsign, f.description, f.location, "", 0, GroupOf(f), 0);
      var run1 := After(run, CreateFavorite(env, run.db, FavKey(nodeId, f.number), fav));
      if run1.error.Some? then run1 else run1.(report := counted)
  }

  /** The update sends no cmd, so a changed favorite loses it. */
  function SyncFav(env: Env, opts: Options, f: FavoriteSpec, row: FavRow, run: Run): Run {
    if !FavChanged(f, row.value) then run
    else
      var counted := run.report.(favs := run.report.favs.OneUpdated());
      if opts.dryRun then run.(report := counted)
      else
        var fav := Fav(f.callsign, f.description, f.location, "", row.value.sortOrder, GroupOf(f), 0);
        var run1 := After(run, UpdateFavorite(env, run.db, row.id, f.number, fav));
        if run1.error.Some? then run1 else run1.(report := counted)
  }

  function UpsertFav(env: Env, opts: Options, nodeId: nat, f: FavoriteSpec, run: Run): Run {
    var reply := GetFavoriteByNodeNumber(env, run.db, nodeId, f.number);
    var run1 := run.(db := reply.db);
    match reply.result
    case Ok(row) => SyncFav(env, opts, f, row, run1)
    case Err(NotFound) => AddFav(env, opts, nodeId, f, run1)
    case Err(e) => Stop(run1, DatabaseError(e))
  }

  function UpsertFavs(env: Env, opts: Options, nodeId: nat, specs: seq<FavoriteSpec>, run: Run): Run {
    if specs == [] || run.error.Some? then run
    else UpsertFavs(env, opts, nodeId, specs[1..], UpsertFav(env, opts, nodeId, specs[0], run))
  }

  function PurgeFav(env: Env, opts: Options, specs: seq<FavoriteSpec>, row: FavRow, run: Run): Run {
    if ListsFav(specs, row.key.number) then run
    else
      var counted := run.report.(favs := run.report.favs.OneDeleted());
      if opts.dryRun then run.(report := counted)
      else
        var run1 := After(run, DeleteFavorite(env, run.db, row.id));
        if run1.error.Some? then run1 else run1.(report := counted)
  }

  function PurgeFavs(env: Env, opts: Options, specs: seq<FavoriteSpec>, listing: seq<FavRow>, run: Run): Run {
    if listing == [] || run.error.Some? then run
    else PurgeFavs(env, opts, specs, listing[1..], PurgeFav(env, opts, specs, listing[0], run))
  }

  function PurgeAllFavs(env: Env, opts: Options, nodeId: nat, specs: seq<FavoriteSpec>, run: Run): Run {
    var reply := ListFavoritesByNode(env, run.db, nodeId);
    match reply.result
    case Ok(listing) => PurgeFavs(env, opts, specs, listing, run.(db := reply.db))
    case Err(e) => Stop(run.(db := reply.db), DatabaseError(e))
  }

  function ApplyFavorites(env: Env, opts: Options, purge: bool, nodeId: nat, specs: seq<FavoriteSpec>, run: Run): Run {
    match CheckFavs(specs)
    case Some(e) => Stop(run, e)
    case None =>
      var run1 := UpsertFavs(env, opts, nodeId, specs, run);
      if run1.error.Some? || !purge then run1 else PurgeAllFavs(env, opts, nodeId, specs, run1)
  }

  // ----------------------------------------------------------------- nodes

  predicate ListsNode(specs: seq<NodeSpec>, number: string) {
    exists s :: s in specs && s.number == number
  }

  function CheckNodes(specs: seq<NodeSpec>): Option<Error> {
    if specs == [] then None
    else if specs[0].number == "" then Some(MissingNodeNumber)
    else CheckNodes(specs[1..])
  }

  /** The row a spec asks for: host and port defaulted, description and location blank. */
  function Wanted(spec: NodeSpec): Node {
    Node(spec.name,
         if spec.amiHost == "" then "localhost" else spec.amiHost,
         if spec.amiPort == 0 then 5038 else spec.amiPort,
         spec.amiUser, spec.amiPass, spec.enabled, "", "")
  }

  function NodeChanged(a: Node, b: Node): bool {
    a.name != b.name || a.amiHost != b.amiHost || a.amiPort != b.amiPort ||
    a.amiUser != b.amiUser || a.amiPass != b.amiPass || a.enabled != b.enabled
  }

  function AddNode(env: Env, opts: Options, purgeFavs: bool, spec: NodeSpec, run: Run): Run {
    var counted := run.report.(nodes := run.report.nodes.OneCreated());
    if opts.dryRun then run.(report := counted)
    else
      var reply := CreateNode(env, run.db, spec.number, Wanted(spec));
      var run1 := After(run, reply);
      match reply.result
      case Err(_) => run1
      case Ok(id) => ApplyFavorites(env, opts, purgeFavs, id, spec.favorites, run1.(report := counted))
  }

  function SyncNodeRow(env: Env, opts: Options, spec: NodeSpec, row: NodeRow, run: Run): Run {
    if !NodeChanged(row.value, Wanted(spec)) then run
    else
      var counted := run.report.(nodes := run.report.nodes.OneUpdated());
      if opts.dryRun then run.(report := counted)
      else
        var run1 := After(run, UpdateNode(env, run.db, row.id, spec.number, Wanted(spec)));
        if run1.error.Some? then run1 else run1.(report := counted)
  }

  function SyncNode(env: Env, opts: Options, purgeFavs: bool, spec: NodeSpec, row: NodeRow, run: Run): Run {
    var run1 := SyncNodeRow(env, opts, spec, row, run);
    if run1.error.Some? then run1
    else ApplyFavorites(env, opts, purgeFavs, row.id, spec.favorites, run1)
  }

  function UpsertNode(env: Env, opts: Options, purgeFavs: bool, spec: NodeSpec, run: Run): Run {
    var reply := GetNodeByNumber(env, run.db, spec.number);
    var run1 := run.(db := reply.db);
    match reply.result
    case Ok(row) => SyncNode(env, opts, purgeFavs, spec, row, run1)
    case Err(NotFound) => AddNode(env, opts, purgeFavs, spec, run1)
    case Err(e) => Stop(run1, DatabaseError(e))
  }

  function UpsertNodes(env: Env, opts: Options, purgeFavs: bool, specs: seq<NodeSpec>, run: Run): Run {
    if specs == [] || run.error.Some? then run
    else UpsertNodes(env, opts, purgeFavs, specs[1..], UpsertNode(env, opts, purgeFavs, specs[0], run))
  }

  function PurgeNode(env: Env, opts: Options, specs: seq<NodeSpec>, row: NodeRow, run: Run): Run {
    if ListsNode(specs, row.key) then run
    else
      var counted := run.report.(nodes := run.report.nodes.OneDeleted());
      if opts.dryRun then run.(report := counted)
      else
        var run1 := After(run, DeleteNode(env, run.db, row.id));
        if run1.error.Some? then run1 else run1.(report := counted)
  }

  function PurgeNodes(env: Env, opts: Options, specs: seq<NodeSpec>, listing: seq<NodeRow>, run: Run): Run {
    if listing == [] || run.error.Some? then run
    else PurgeNodes(env, opts, specs, listing[1..], PurgeNode(env, opts, specs, listing[0], run))
  }

  function PurgeAllNodes(env: Env, opts: Options, specs: seq<NodeSpec>, run: Run): Run {
    var reply := ListNodes(env, run.db);
    match reply.result
    case Ok(listing) => PurgeNodes(env, opts, specs, listing, run.(db := reply.db))
    case Err(e) => Stop(run.(db := reply.db), DatabaseError(e))
  }

  function ApplyNodes(env: Env, sf: StateFile, opts: Options, run: Run): Run {
    match CheckNodes(sf.nodes)
    case Some(e) => Stop(run, e)
    case None =>
      var run1 := UpsertNodes(env, opts, sf.purge.favorites, sf.nodes, run);
      if run1.error.Some? || !sf.purge.nodes then run1
      else PurgeAllNodes(env, opts, sf.nodes, run1)
  }

  // ----------------------------------------------------------------- apply

  function Start(db: Db): Run {
    Run(db, NO_CHANGES, None)
  }

  function ApplyRun(env: Env, sf: StateFile, opts: Options, db: Db): Run {
    var run := ApplyUsers(env, sf, opts, Start(db));
    if run.error.Some? then run else ApplyNodes(env, sf, opts, run)
  }

  // ------------------------------------------------- the phases, one at a time

  lemma UsersPhaseIs(env: Env, sf: StateFile, opts: Options, run: Run)
    ensures ApplyUsers(env, sf, opts, run) ==
      if CheckUsers(sf.users).Some? then Stop(run, CheckUsers(sf.users).value)
      else
        var run1 := UpsertUsers(env, opts, sf.users, run);
        if run1.error.Some? || !sf.purge.users then run1 else PurgeAllUsers(env, opts, sf.users, run1)
  {
    hide UpsertUsers, PurgeAllUsers, CheckUsers;
  }

  lemma NodesPhaseIs(env: Env, sf: StateFile, opts: Options, run: Run)
    ensures ApplyNodes(env, sf, opts, run) ==
      if CheckNodes(sf.nodes).Some? then Stop(run, CheckNodes(sf.nodes).value)
      else
        var run1 := UpsertNodes(env, opts, sf.purge.favorites, sf.nodes, run);
        if run1.error.Some? || !sf.purge.nodes then run1 else PurgeAllNodes(env, opts, sf.nodes, run1)
  {
    hide UpsertNodes, PurgeAllNodes, CheckNodes;
  }

  lemma FavsPhaseIs(env: Env, opts: Options, purge: bool, nodeId: nat, specs: seq<FavoriteSpec>, run: Run)
    ensures ApplyFavorites(env, opts, purge, nodeId, specs, run) ==
      if CheckFavs(specs).Some? then Stop(run, CheckFavs(specs).value)
      else
        var run1 := UpsertFavs(env, opts, nodeId, specs, run);
        if run1.error.Some? || !purge then run1 else PurgeAllFavs(env, opts, nodeId, specs, run1)
  {
    hide UpsertFavs, PurgeAllFavs, CheckFavs;
  }

  lemma RunIs(env: Env, sf: StateFile, opts: Options, db: Db)
    ensures ApplyRun(env, sf, opts, db) ==
      var run := ApplyUsers(env, sf, opts, Start(db));
      if run.error.Some? then run else ApplyNodes(env, sf, opts, run)
  {
    hide ApplyUsers, ApplyNodes;
  }

  lemma UserPurgeIs(env: Env, opts: Options, specs: seq<UserSpec>, run: Run)
    ensures PurgeAllUsers(env, opts, specs, run) ==
      if Down(env, run.db) then Stop(run.(db := Tick(run.db)), DatabaseError(StatementFailed))
      else PurgeUsers(env, opts, specs, Sort(UserBefore, run.db.users.rows), run.(db := Tick(run.db)))
  {
    hide PurgeUsers, Sort;
  }

  lemma FavPurgeIs(env: Env, opts: Options, nodeId: nat, specs: seq<FavoriteSpec>, run: Run)
    ensures PurgeAllFavs(env, opts, nodeId, specs, run) ==
      if Down(env, run.db) then Stop(run.(db := Tick(run.db)), DatabaseError(StatementFailed))
      else PurgeFavs(env, opts, specs, Listing(run.db.favs.rows, nodeId), run.(db := Tick(run.db)))
  {
    hide PurgeFavs, Listing;
  }

  // ---------------------------------------- one iteration of each loop, by index

  lemma UpsertUsersStep(env: Env, opts: Options, specs: seq<UserSpec>, i: nat, run: Run)
    requires i < |specs| && run.error == None
    ensures UpsertUsers(env, opts, specs[i..], run)
         == UpsertUsers(env, opts, specs[i+1..], UpsertUser(env, opts, specs[i], run))
  {
    assert specs[i..][1..] == specs[i+1..];
  }

  lemma PurgeUsersStep(env: Env, opts: Options, specs: seq<UserSpec>, listing: seq<UserRow>, i: nat, run: Run)
    requires i < |listing| && run.error == None
    ensures PurgeUsers(env, opts, specs, listing[i..], run)
         == PurgeUsers(env, opts, specs, listing[i+1..], PurgeUser(env, opts, specs, listing[i], run))
  {
    assert listing[i..][1..] == listing[i+1..];
  }

  lemma UpsertFavsStep(env: Env, opts: Options, nodeId: nat, specs: seq<FavoriteSpec>, i: nat, run: Run)
    requires i < |specs| && run.error == None
    ensures UpsertFavs(env, opts, nodeId, specs[i..], run)
         == UpsertFavs(env, opts, nodeId, specs[i+1..], UpsertFav(env, opts, nodeId, specs[i], run))
  {
    assert specs[i..][1..] == specs[i+1..];
  }

  lemma PurgeFavsStep(env: Env, opts: Options, specs: seq<FavoriteSpec>, listing: seq<FavRow>, i: nat, run: Run)
    requires i < |listing| && run.error == None
    ensures PurgeFavs(env, opts, specs, listing[i..], run)
         == PurgeFavs(env, opts, specs, listing[i+1..], PurgeFav(env, opts, specs, listing[i], run))
  {
    assert listing[i..][1..] == listing[i+1..];
  }

  lemma UpsertNodesStep(env: Env, opts: Options, purgeFavs: bool, specs: seq<NodeSpec>, i: nat, run: Run)
    requires i < |specs| && run.error == None
    ensures UpsertNodes(env, opts, purgeFavs, specs[i..], run)
         == UpsertNodes(env, opts, purgeFavs, specs[i+1..], UpsertNode(env, opts, purgeFavs, specs[i], run))
  {
    assert specs[i..][1..] == specs[i+1..];
  }

  lemma PurgeNodesStep(env: Env, opts: Options, specs: seq<NodeSpec>, listing: seq<NodeRow>, i: nat, run: Run)
    requires i < |listing| && run.error == None
    ensures PurgeNodes(env, opts, specs, listing[i..], run)
         == PurgeNodes(env, opts, specs, listing[i+1..], PurgeNode(env, opts, specs, listing[i], run))
  {
    assert listing[i..][1..] == listing[i+1..];
  }
}
