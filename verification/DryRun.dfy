/**
 What a dry run is worth: it changes no table, and its report is the real run's
 except for the favorites below nodes it would create, for entries of a user that
 an earlier entry names and, under the user purge, for superusers counted against
 a table that does not change.
 */
module DryRun {
  import opened Wrappers
  import opened Tables
  import opened Sorting
  import opened Sql
  import opened ApplySpec
  import opened UserLaws
  import opened UserPurgeLaws
  import opened FavLaws
  import opened FavPhaseLaws
  import opened NodeLaws
  import opened NodePhaseLaws
  import opened NodePurgeLaws
  import opened Conservation
  import opened Convergence
  import opened Idempotence

  ghost predicate DistinctUsers(specs: seq<UserSpec>) {
    forall i, j :: 0 <= i < j < |specs| ==> specs[i].username != specs[j].username
  }

  /** The entry sets a password: of a user to create, or of any under a reset. */
  predicate SetsPassword(opts: Options, spec: UserSpec, rows: seq<UserRow>) {
    opts.resetPasswords || Find(rows, spec.username).None?
  }

  /** A password of at least 8 bytes that bcrypt takes, whatever the salt. */
  ghost predicate Hashable(env: Env, password: string) {
    |password| >= 8 && forall salt: nat :: env.bcrypt(password, salt).Some?
  }

  ghost predicate HashesWork(env: Env, opts: Options, specs: seq<UserSpec>, rows: seq<UserRow>) {
    forall s :: s in specs && SetsPassword(opts, s, rows) ==> Hashable(env, s.password)
  }

  function UsersTally(opts: Options, specs: seq<UserSpec>, rows: seq<UserRow>): Tally {
    if specs == [] then ZERO
    else UserDelta(opts, specs[0], Find(rows, specs[0].username)).Plus(UsersTally(opts, specs[1..], rows))
  }

  /** An entry against what the entries before it wrote, or else against the row at the start. */
  function RealDelta(opts: Options, spec: UserSpec, rows: seq<UserRow>, written: map<string, string>): Tally {
    if spec.username !in written then UserDelta(opts, spec, Find(rows, spec.username))
    else if written[spec.username] != spec.permission || opts.resetPasswords then ZERO.OneUpdated()
    else ZERO
  }

  /** What a real run counts; `written` holds the permissions its earlier entries wrote. */
  function RealTally(opts: Options, specs: seq<UserSpec>, rows: seq<UserRow>, written: map<string, string>): Tally
    decreases specs
  {
    if specs == [] then ZERO
    else RealDelta(opts, specs[0], rows, written)
         .Plus(RealTally(opts, specs[1..], rows, written[specs[0].username := specs[0].permission]))
  }

  /** The entries for a user the table lacks that come after another one for the same name. */
  function RepeatedNew(specs: seq<UserSpec>, rows: seq<UserRow>, seen: set<string>): nat
    decreases specs
  {
    if specs == [] then 0
    else (if specs[0].username in seen && Find(rows, specs[0].username).None? then 1 else 0)
         + RepeatedNew(specs[1..], rows, seen + {specs[0].username})
  }

  lemma DistinctTail(specs: seq<UserSpec>)
    requires DistinctUsers(specs) && specs != []
    ensures DistinctUsers(specs[1..]) && forall s :: s in specs[1..] ==> s in specs && s.username != specs[0].username
  {
    forall s | s in specs[1..] ensures s in specs && s.username != specs[0].username {
      var j :| 0 <= j < |specs[1..]| && specs[1..][j] == s;
      assert specs[0].username != specs[j + 1].username;
    }
  }

  lemma DeltasDiffer(opts: Options, spec: UserSpec, rows: seq<UserRow>, written: map<string, string>)
    ensures var dry, actual := UserDelta(opts, spec, Find(rows, spec.username)), RealDelta(opts, spec, rows, written);
      && dry.created == actual.created + (if spec.username in written && Find(rows, spec.username).None? then 1 else 0)
      && actual.deleted == dry.deleted == 0
      && (spec.username !in written ==> actual == dry)
  {
    hide Find;
  }

  /** Repeated entries apart, both runs count the same; a new user is created once and announced each time. */
  lemma {:induction false} RepeatsDiffer(opts: Options, specs: seq<UserSpec>, rows: seq<UserRow>,
                                         written: map<string, string>)
    ensures var dry, actual := UsersTally(opts, specs, rows), RealTally(opts, specs, rows, written);
      && dry.created == actual.created + RepeatedNew(specs, rows, written.Keys)
      && actual.deleted == dry.deleted == 0
      && (DistinctUsers(specs) && (forall s :: s in specs ==> s.username !in written) ==> actual == dry)
    decreases specs
  {
    hide Find, DistinctUsers, UserDelta, RealDelta;
    if specs != [] {
      var written' := written[specs[0].username := specs[0].permission];
      DeltasDiffer(opts, specs[0], rows, written);
      RepeatsDiffer(opts, specs[1..], rows, written');
      assert written'.Keys == written.Keys + {specs[0].username};
      assert specs[0] in specs;
      if DistinctUsers(specs) { DistinctTail(specs); }
    }
  }

  // ----------------------------------------------------------- users phase

  lemma ReliableUpsertUser(env: Env, opts: Options, spec: UserSpec, run: Run)
    requires Consistent(run.db) && run.error == None && Reliable(env)
    requires SetsPassword(opts, spec, run.db.users.rows) ==> Hashable(env, spec.password)
    ensures UpsertUser(env, opts, spec, run).error == None
  {
    var row := Find(run.db.users.rows, spec.username);
    if row.Some? {
      hide Consistent, Valid, UniqueKeys;
    }
  }

  /** With hashable passwords and nothing failing the loop gets through. */
  lemma {:induction false} HashableUsersFinish(env: Env, opts: Options, specs: seq<UserSpec>, run: Run,
                                               rows0: seq<UserRow>)
    requires Consistent(run.db) && run.error == None && !opts.dryRun && Reliable(env)
    requires HashesWork(env, opts, specs, rows0)
    requires forall n :: Find(run.db.users.rows, n).None? ==> Find(rows0, n).None?
    ensures UpsertUsers(env, opts, specs, run).error == None
    decreases specs
  {
    hide UpsertUser, Consistent, UserDelta, UserSynced, HashPassword;
    if specs != [] {
      assert specs[0] in specs;
      ReliableUpsertUser(env, opts, specs[0], run);
      UpsertUserFacts(env, opts, specs[0], run);
      UserSyncedExists(env, opts, specs[0], run);
      assert forall s :: s in specs[1..] ==> s in specs;
      HashableUsersFinish(env, opts, specs[1..], UpsertUser(env, opts, specs[0], run), rows0);
    }
  }

  lemma UserSyncedExists(env: Env, opts: Options, spec: UserSpec, run: Run)
    requires Consistent(run.db) && run.error == None && !opts.dryRun && UpsertUser(env, opts, spec, run).error == None
    ensures var after := Find(UpsertUser(env, opts, spec, run).db.users.rows, spec.username);
      after.Some? && after.value.value.permission == spec.permission
  {
    hide UpsertUser, Consistent, Find;
    UpsertUserFacts(env, opts, spec, run);
  }

  /** What the entries so far wrote, and for every other name the row at the start. */
  ghost predicate WrittenTo(rows: seq<UserRow>, rows0: seq<UserRow>, written: map<string, string>) {
    forall n :: if n in written then Find(rows, n).Some? && Find(rows, n).value.value.permission == written[n]
                else Find(rows, n) == Find(rows0, n)
  }

  lemma {:induction false} RealUsersReport(env: Env, opts: Options, specs: seq<UserSpec>, run: Run, rows0: seq<UserRow>,
                                           written: map<string, string>)
    requires Consistent(run.db) && run.error == None && !opts.dryRun
    requires WrittenTo(run.db.users.rows, rows0, written) && UpsertUsers(env, opts, specs, run).error == None
    ensures UpsertUsers(env, opts, specs, run).report.users
         == run.report.users.Plus(RealTally(opts, specs, rows0, written))
    decreases specs
  {
    hide UpsertUser, Consistent, UserSynced, Find;
    if specs != [] {
      var run1 := UpsertUser(env, opts, specs[0], run);
      var written' := written[specs[0].username := specs[0].permission];
      UpsertUserFacts(env, opts, specs[0], run);
      UserSyncedExists(env, opts, specs[0], run);
      assert WrittenTo(run1.db.users.rows, rows0, written');
      RealUsersReport(env, opts, specs[1..], run1, rows0, written');
      PlusAssociative(run.report.users, RealDelta(opts, specs[0], rows0, written),
                      RealTally(opts, specs[1..], rows0, written'));
    }
  }

  lemma {:induction false} DryUsersReport(env: Env, opts: Options, specs: seq<UserSpec>, run: Run, rows0: seq<UserRow>)
    requires Consistent(run.db) && run.error == None && opts.dryRun && Reliable(env) && run.db.users.rows == rows0
    ensures var r := UpsertUsers(env, opts, specs, run);
      && r.error == None && SameTables(run.db, r.db) && OnlyUsers(run, r)
      && r.report.users == run.report.users.Plus(UsersTally(opts, specs, rows0))
    decreases specs
  {
    if specs != [] {
      var run1 := UpsertUser(env, opts, specs[0], run);
      UpsertUserFacts(env, opts, specs[0], run);
      assert run1.error == None;
      hide UpsertUser, Consistent, UserDelta, UserSynced, HashPassword;
      DryUsersReport(env, opts, specs[1..], run1, rows0);
      PlusAssociative(run.report.users, UserDelta(opts, specs[0], Find(rows0, specs[0].username)),
                      UsersTally(opts, specs[1..], rows0));
    }
  }

  lemma {:induction false} TallyIgnoresDryness(a: Options, b: Options, specs: seq<UserSpec>, rows: seq<UserRow>)
    requires a.resetPasswords == b.resetPasswords
    ensures UsersTally(a, specs, rows) == UsersTally(b, specs, rows)
  {
    if specs != [] { TallyIgnoresDryness(a, b, specs[1..], rows); }
  }

  // ------------------------------------------------------- the user purge

  /** Counting rows of other usernames ignores what happens to one. */
  lemma UpsertUserCounts(env: Env, opts: Options, spec: UserSpec, run: Run, p: UserRow -> bool)
    requires Consistent(run.db) && run.error == None && forall x: UserRow :: x.key == spec.username ==> !p(x)
    ensures Count(p, UpsertUser(env, opts, spec, run).db.users.rows) == Count(p, run.db.users.rows)
  {
    hide SyncUser, AddUser, Count;
    var found := Find(run.db.users.rows, spec.username);
    var run0 := run.(db := Tick(run.db));
    if found.Some? {
      SyncUserCounts(env, opts, spec, found.value, run0, p);
    } else {
      AddUserCounts(env, opts, spec, run0, p);
    }
  }

  lemma SyncUserCounts(env: Env, opts: Options, spec: UserSpec, row: UserRow, run: Run, p: UserRow -> bool)
    requires Consistent(run.db) && run.error == None && Find(run.db.users.rows, spec.username) == Some(row)
    requires forall x: UserRow :: x.key == row.key ==> !p(x)
    ensures Count(p, SyncUser(env, opts, spec, row, run).db.users.rows) == Count(p, run.db.users.rows)
  {
    SyncPermissionFacts(env, opts, spec, row, run);
    PermissionCounts(env, opts, spec, row, run, p);
    var run1 := SyncPermission(env, opts, spec, row, run);
    if run1.error == None {
      var row1 := Find(run1.db.users.rows, row.key).value;
      assert SyncPassword(env, opts, spec, row, run1) == SyncPassword(env, opts, spec, row1, run1);
      hide SyncPermission, SyncPassword, Count;
      PasswordCounts(env, opts, spec, row1, run1, p);
    }
  }

  lemma AddUserCounts(env: Env, opts: Options, spec: UserSpec, run: Run, p: UserRow -> bool)
    requires forall x: UserRow :: x.key == spec.username ==> !p(x)
    ensures Count(p, AddUser(env, opts, spec, run).db.users.rows) == Count(p, run.db.users.rows)
  {
    var h := HashPassword(env, spec.password, run.db.clock);
    if h.Some? { AppendIgnored(p, run.db.users, spec.username, User(h.value, spec.permission, BLANK_PROFILE)); }
  }

  lemma AppendIgnored(p: UserRow -> bool, t: Table<string, User>, key: string, v: User)
    requires forall x: UserRow :: x.key == key ==> !p(x)
    ensures Count(p, Insert(t, key, v).rows) == Count(p, t.rows)
  {
    CountAppend(p, t.rows, [Row(t.next, key, v)]);
  }

  lemma PermissionCounts(env: Env, opts: Options, spec: UserSpec, row: UserRow, run: Run, p: UserRow -> bool)
    requires Consistent(run.db) && run.error == None && row in run.db.users.rows
    requires forall x: UserRow :: x.key == row.key ==> !p(x)
    ensures Count(p, SyncPermission(env, opts, spec, row, run).db.users.rows) == Count(p, run.db.users.rows)
  {
    FindIdOfRow(run.db.users.rows, row);
    CountPut(p, run.db.users.rows, row, row.(value := row.value.(permission := spec.permission)));
  }

  lemma PasswordCounts(env: Env, opts: Options, spec: UserSpec, row: UserRow, run: Run, p: UserRow -> bool)
    requires Consistent(run.db) && run.error == None && row in run.db.users.rows
    requires forall x: UserRow :: x.key == row.key ==> !p(x)
    ensures Count(p, SyncPassword(env, opts, spec, row, run).db.users.rows) == Count(p, run.db.users.rows)
  {
    FindIdOfRow(run.db.users.rows, row);
    var h := HashPassword(env, spec.password, run.db.clock);
    if h.Some? {
      CountPut(p, run.db.users.rows, row, row.(value := row.value.(password := h.value)));
    }
  }

  lemma {:induction false} UpsertUsersCounts(env: Env, opts: Options, specs: seq<UserSpec>, run: Run, p: UserRow -> bool)
    requires Consistent(run.db) && run.error == None
    requires forall x: UserRow :: ListsUser(specs, x.key) ==> !p(x)
    ensures Count(p, UpsertUsers(env, opts, specs, run).db.users.rows) == Count(p, run.db.users.rows)
    decreases specs
  {
    hide UpsertUser, Consistent, Count, UserDelta, UserSynced;
    if specs != [] {
      assert specs[0] in specs;
      assert forall n :: ListsUser(specs[1..], n) ==> ListsUser(specs, n);
      var run1 := UpsertUser(env, opts, specs[0], run);
      UpsertUserFacts(env, opts, specs[0], run);
      UpsertUserCounts(env, opts, specs[0], run, p);
      if run1.error == None { UpsertUsersCounts(env, opts, specs[1..], run1, p); }
    }
  }

  /** What a real purge deletes: all unlisted plain users, and all unlisted superusers but perhaps one. */
  function RealDeleted(specs: seq<UserSpec>, rows: seq<UserRow>): nat {
    var k := Count(UnlistedSuper(specs), rows);
    Count(UnlistedPlain(specs), rows) + if MakesSuperuser(specs) then k else LessOne(k)
  }

  /** What a dry purge counts. */
  function DryDeleted(specs: seq<UserSpec>, rows: seq<UserRow>): nat {
    Count(UnlistedPlain(specs), rows) + if Superusers(rows) >= 2 then Count(UnlistedSuper(specs), rows) else 0
  }

  /** What the upserts leave for the purge to find. */
  lemma SuperusersBeforePurge(env: Env, opts: Options, specs: seq<UserSpec>, run: Run)
    requires Consistent(run.db) && run.error == None && !opts.dryRun
    requires UpsertUsers(env, opts, specs, run).error == None
    ensures var rows1 := UpsertUsers(env, opts, specs, run).db.users.rows;
      && Count(UnlistedPlain(specs), rows1) == Count(UnlistedPlain(specs), run.db.users.rows)
      && Count(UnlistedSuper(specs), rows1) == Count(UnlistedSuper(specs), run.db.users.rows)
      && Superusers(rows1) >= Count(UnlistedSuper(specs), rows1)
      && (Superusers(rows1) > Count(UnlistedSuper(specs), rows1) <==> MakesSuperuser(specs))
  {
    hide UpsertUsers, Count, Consistent;
    UpsertUsersCounts(env, opts, specs, run, UnlistedPlain(specs));
    UpsertUsersCounts(env, opts, specs, run, UnlistedSuper(specs));
    CountSplit(IsSuperuser, UnlistedSuper(specs), ListedSuper(specs), UpsertUsers(env, opts, specs, run).db.users.rows);
    ListedSuperusers(env, opts, specs, run);
  }

  lemma RealUsersPhase(env: Env, sf: StateFile, opts: Options, db: Db)
    requires Consistent(db) && !opts.dryRun && Reliable(env) && ApplyUsers(env, sf, opts, Start(db)).error == None
    ensures ApplyUsers(env, sf, opts, Start(db)).report.users == RealTally(opts, sf.users, db.users.rows, map[])
      .(deleted := if sf.purge.users then RealDeleted(sf.users, db.users.rows) else 0)
  {
    hide ApplyUsers, UpsertUsers, PurgeAllUsers, Count, UsersTally, RealTally, Consistent, Superusers, CheckUsers,
         MakesSuperuser, Reliable, ListsUser;
    var run0, rows0, specs := Start(db), db.users.rows, sf.users;
    UsersPhaseIs(env, sf, opts, run0);
    RealUsersReport(env, opts, specs, run0, rows0, map[]);
    UpsertUsersFacts(env, opts, specs, run0);
    RepeatsDiffer(opts, specs, rows0, map[]);
    var run1 := UpsertUsers(env, opts, specs, run0);
    if sf.purge.users {
      RealPurgeReport(env, opts, specs, run1);
      SuperusersBeforePurge(env, opts, specs, run0);
    }
  }

  lemma {:induction false} TallyDeletesNone(opts: Options, specs: seq<UserSpec>, rows: seq<UserRow>)
    ensures UsersTally(opts, specs, rows).deleted == 0
  {
    if specs != [] { TallyDeletesNone(opts, specs[1..], rows); }
  }

  lemma DryUsersPhase(env: Env, sf: StateFile, opts: Options, db: Db)
    requires Consistent(db) && opts.dryRun && Reliable(env) && CheckUsers(sf.users) == None
    ensures var r := ApplyUsers(env, sf, opts, Start(db)); var t := UsersTally(opts, sf.users, db.users.rows);
      && r.error == None && SameTables(db, r.db) && OnlyUsers(Start(db), r)
      && r.report.users == t.(deleted := if sf.purge.users then DryDeleted(sf.users, db.users.rows) else 0)
  {
    hide UpsertUsers, PurgeAllUsers, PurgeUsers, Sort, Count, UserDelta, Consistent, ApplyUsers, UsersTally, CheckUsers,
         Superusers, UnlistedPlain, UnlistedSuper;
    var rows0, specs := db.users.rows, sf.users;
    DryUsersReport(env, opts, specs, Start(db), rows0);
    TallyDeletesNone(opts, specs, rows0);
    var run1 := UpsertUsers(env, opts, specs, Start(db));
    UsersPhaseIs(env, sf, opts, Start(db));
    UserPurgeIs(env, opts, specs, run1);
    if sf.purge.users {
      DryPurgeCount(env, opts, specs, Sort(UserBefore, rows0), run1.(db := Tick(run1.db)));
      CountSort(UnlistedPlain(specs), UserBefore, rows0);
      CountSort(UnlistedSuper(specs), UserBefore, rows0);
    }
  }

  // ----------------------------------------------------------- nodes phase

  /** The favorites listed under nodes the database does not have yet. */
  function FavsUnderNewNodes(specs: seq<NodeSpec>, db: Db): nat {
    if specs == [] then 0
    else (if Find(db.nodes.rows, specs[0].number).None? then |specs[0].favorites| else 0)
         + FavsUnderNewNodes(specs[1..], db)
  }

  lemma TallyDiffers(actual: Options, dry: Options, purge: bool, spec: NodeSpec, db: Db)
    requires !actual.dryRun && dry.dryRun
    ensures FavsOf(actual, purge, spec, db) == FavsOf(dry, purge, spec, db).Plus(ZERO.(created :=
      if Find(db.nodes.rows, spec.number).None? then |spec.favorites| else 0))
  {
    hide FavsForecast, Under, Find;
  }

  lemma PlusExtra(a: Tally, b: Tally, m: nat, n: nat)
    ensures a.Plus(ZERO.(created := m)).Plus(b.Plus(ZERO.(created := n))) == a.Plus(b).Plus(ZERO.(created := m + n))
  {
  }

  lemma {:induction false} TalliesDiffer(actual: Options, dry: Options, purge: bool, specs: seq<NodeSpec>, db: Db)
    requires !actual.dryRun && dry.dryRun
    ensures FavsTally(actual, purge, specs, db)
         == FavsTally(dry, purge, specs, db).Plus(ZERO.(created := FavsUnderNewNodes(specs, db)))
  {
    hide FavsOf, Under, Find, Tally.Plus;
    if specs == [] {
      PlusZero(ZERO);
    } else {
      TallyDiffers(actual, dry, purge, specs[0], db);
      TalliesDiffer(actual, dry, purge, specs[1..], db);
      PlusExtra(FavsOf(dry, purge, specs[0], db), FavsTally(dry, purge, specs[1..], db),
                if Find(db.nodes.rows, specs[0].number).None? then |specs[0].favorites| else 0,
                FavsUnderNewNodes(specs[1..], db));
    }
  }

  lemma PlusZero(a: Tally)
    ensures a.Plus(ZERO) == a && ZERO.Plus(a) == a && ZERO.(created := 0) == ZERO
  {
  }

  /** How many nodes the purge deletes can be counted before or after the upserts. */
  lemma {:induction false} UpsertNodesCounts(env: Env, opts: Options, purge: bool, specs: seq<NodeSpec>, run: Run,
                                             p: NodeRow -> bool)
    requires Sound(run.db) && run.error == None && !opts.dryRun
    requires forall x: NodeRow :: ListsNode(specs, x.key) ==> !p(x)
    ensures Count(p, UpsertNodes(env, opts, purge, specs, run).db.nodes.rows) == Count(p, run.db.nodes.rows)
    decreases specs
  {
    if specs != [] {
      RowCounts(env, opts, specs[0], run, p);
      hide UpsertNode, RowRun, ApplyFavorites, Sound, Count, Under;
      var run1 := RowRun(env, opts, specs[0], run);
      RowRunFacts(env, opts, specs[0], run);
      UpsertNodeSplit(env, opts, purge, specs[0], run);
      UpsertNodeFacts(env, opts, purge, specs[0], run);
      if run1.error == None {
        RowExists(specs[0], run, run1);
        ApplyFavoritesFacts(env, opts, purge, IdOf(run.db, specs[0].number), specs[0].favorites, run1);
      }
      assert forall n :: ListsNode(specs[1..], n) ==> ListsNode(specs, n);
      var run2 := UpsertNode(env, opts, purge, specs[0], run);
      if run2.error == None { UpsertNodesCounts(env, opts, purge, specs[1..], run2, p); }
    }
  }

  lemma RowCounts(env: Env, opts: Options, spec: NodeSpec, run: Run, p: NodeRow -> bool)
    requires Consistent(run.db) && run.error == None && !opts.dryRun
    requires forall x: NodeRow :: x.key == spec.number ==> !p(x)
    ensures Count(p, RowRun(env, opts, spec, run).db.nodes.rows) == Count(p, run.db.nodes.rows)
  {
    hide RowRun, Count, Find, DistinctIds, UniqueKeys, NoOrphans, Wanted;
    RowRunNodes(env, opts, spec, run);
    var found := Find(run.db.nodes.rows, spec.number);
    if found.Some? {
      CountPut(p, run.db.nodes.rows, found.value, Row(found.value.id, spec.number, Wanted(spec)));
    } else {
      CountAppend(p, run.db.nodes.rows, [Row(run.db.nodes.next, spec.number, Wanted(spec))]);
      CountNone(p, Row(run.db.nodes.next, spec.number, Wanted(spec)));
    }
  }

  lemma CountNone(p: NodeRow -> bool, row: NodeRow)
    requires !p(row)
    ensures Count(p, [row]) == 0
  {
  }

  /** All a node's pass can do to the nodes table. */
  lemma RowRunNodes(env: Env, opts: Options, spec: NodeSpec, run: Run)
    requires Consistent(run.db) && run.error == None && !opts.dryRun
    ensures var found := Find(run.db.nodes.rows, spec.number); var t := RowRun(env, opts, spec, run).db.nodes;
      || t == run.db.nodes
      || t == if found.Some? then Put(run.db.nodes, Row(found.value.id, spec.number, Wanted(spec)))
              else Insert(run.db.nodes, spec.number, Wanted(spec))
  {
    hide Find, FindId, Put, Insert, Wanted, NodeChanged, DistinctIds, UniqueKeys, NoOrphans;
    var found := Find(run.db.nodes.rows, spec.number);
    if found.Some? { FindIdOfRow(run.db.nodes.rows, found.value); }
  }

  /** The report of a node purge that meets no failing statement, real or dry. */
  lemma NodePurgeReport(env: Env, opts: Options, specs: seq<NodeSpec>, run: Run)
    requires Consistent(run.db) && run.error == None && Reliable(env)
    ensures var r := PurgeAllNodes(env, opts, specs, run);
      && r.error == None && (opts.dryRun ==> SameTables(run.db, r.db))
      && r.report == run.report.(nodes :=
           run.report.nodes.Plus(ZERO.(deleted := Count(UnlistedNode(specs), run.db.nodes.rows))))
  {
    hide PurgeNodes, Sort, Count, Purged;
    var listing, run1 := Sort(NodeBefore, run.db.nodes.rows), run.(db := Tick(run.db));
    SortDistinct(NodeBefore, run.db.nodes.rows);
    if !opts.dryRun { PurgeNodesFacts(env, opts, specs, listing, run1); }
    PurgeNodesCount(env, opts, specs, listing, run1);
    CountSort(UnlistedNode(specs), NodeBefore, run.db.nodes.rows);
  }

  lemma RealNodesTally(env: Env, sf: StateFile, opts: Options, run: Run)
    requires Sound(run.db) && run.error == None && !opts.dryRun && DistinctNodes(sf.nodes)
    requires UpsertNodes(env, opts, sf.purge.favorites, sf.nodes, run).error == None
    requires run.report.nodes == ZERO && run.report.favs == ZERO
    ensures var r := UpsertNodes(env, opts, sf.purge.favorites, sf.nodes, run);
      && r.report.nodes == NodesTally(sf.nodes, run.db)
      && r.report.favs == FavsTally(opts, sf.purge.favorites, sf.nodes, run.db)
  {
    hide UpsertNodes, NodesTally, FavsTally, SameNode, Sound, DistinctNodes;
    forall s | s in sf.nodes ensures SameNode(s, run.db, run.db) { SameNodeRefl(s, run.db); }
    LoopReport(env, opts, sf.purge.favorites, sf.nodes, run, run.db);
  }

  lemma UnlistedNodesCount(env: Env, sf: StateFile, opts: Options, run: Run)
    requires Sound(run.db) && run.error == None && !opts.dryRun
    ensures Count(UnlistedNode(sf.nodes), UpsertNodes(env, opts, sf.purge.favorites, sf.nodes, run).db.nodes.rows)
         == Count(UnlistedNode(sf.nodes), run.db.nodes.rows)
  {
    hide UpsertNodes, Count, Sound;
    UpsertNodesCounts(env, opts, sf.purge.favorites, sf.nodes, run, UnlistedNode(sf.nodes));
  }

  /** The real run of a well-formed file finishes when nothing fails and all passwords it needs can be hashed. */
  lemma RealRunFinishes(env: Env, sf: StateFile, opts: Options, db: Db)
    requires Sound(db) && !opts.dryRun && Reliable(env) && WellFormed(sf)
    requires HashesWork(env, opts, sf.users, db.users.rows)
    ensures ApplyRun(env, sf, opts, db).error == None
  {
    hide ApplyRun, ApplyUsers, ApplyNodes, UpsertUsers, PurgeAllUsers, CheckUsers, CheckNodes, CheckFavs, HashesWork,
         Sound, Consistent;
    RunIs(env, sf, opts, db);
    SoundConsistent(db);
    WellFormedParts(sf);
    UsersPhaseIs(env, sf, opts, Start(db));
    HashableUsersFinish(env, opts, sf.users, Start(db), db.users.rows);
    UpsertUsersFacts(env, opts, sf.users, Start(db));
    if sf.purge.users { PurgeFinishes(env, opts, sf.users, UpsertUsers(env, opts, sf.users, Start(db))); }
    UsersPhaseSound(env, sf, opts, db);
    ReliableNodesPhase(env, sf, opts, ApplyUsers(env, sf, opts, Start(db)));
  }

  /** One that finishes has hashed each password it set, so that none of these was under 8 bytes. */
  lemma FinishedRunHashed(env: Env, sf: StateFile, opts: Options, db: Db, name: string)
    requires Sound(db) && !opts.dryRun && ApplyRun(env, sf, opts, db).error == None && ListsUser(sf.users, name)
    requires opts.resetPasswords || Find(db.users.rows, name).None?
    ensures |PasswordEntry(opts, sf.users, name).password| >= 8
  {
    hide ApplyRun, ApplyUsers, UpsertUsers, UpsertNodes, PurgeAllNodes, Sound, Consistent, CheckUsers, CheckNodes, Find,
         CountsHold;
    var users, mid := FinishedRun(env, sf, opts, db);
    SoundConsistent(db);
    UsersConverge(env, sf, opts, Start(db), name);
  }

  /** A finished run was of a well-formed file. */
  lemma FinishedWellFormed(env: Env, sf: StateFile, opts: Options, db: Db)
    requires !opts.dryRun && ApplyRun(env, sf, opts, db).error == None
    ensures WellFormed(sf) && ApplyUsers(env, sf, opts, Start(db)).error == None
  {
    hide ApplyRun, ApplyUsers, UpsertNodes, PurgeAllNodes, CheckUsers, CheckNodes, CheckFavs;
    var users, mid := FinishedRun(env, sf, opts, db);
    FinishedLoopChecked(env, opts, sf.purge.favorites, sf.nodes, users);
  }

  lemma RealUpsertNodes(env: Env, sf: StateFile, opts: Options, run: Run)
    requires Sound(run.db) && run.error == None && !opts.dryRun && Reliable(env) && WellFormed(sf)
    ensures var r := UpsertNodes(env, opts, sf.purge.favorites, sf.nodes, run);
      r.error == None && r.report.users == run.report.users && Consistent(r.db)
  {
    hide UpsertNodes, Sound, Consistent, CheckFavs;
    UpsertNodesFacts(env, opts, sf.purge.favorites, sf.nodes, run);
    SoundConsistent(UpsertNodes(env, opts, sf.purge.favorites, sf.nodes, run).db);
  }

  lemma RealNodesPhase(env: Env, sf: StateFile, opts: Options, run: Run)
    requires Sound(run.db) && run.error == None && !opts.dryRun && Reliable(env)
    requires DistinctNodes(sf.nodes) && WellFormed(sf)
    requires run.report.nodes == ZERO && run.report.favs == ZERO
    ensures var r := ApplyNodes(env, sf, opts, run);
      && r.error == None && r.report.users == run.report.users
      && r.report.nodes == NodesTally(sf.nodes, run.db)
           .Plus(ZERO.(deleted := if sf.purge.nodes then Count(UnlistedNode(sf.nodes), run.db.nodes.rows) else 0))
      && r.report.favs == FavsTally(opts, sf.purge.favorites, sf.nodes, run.db)
  {
    hide UpsertNodes, PurgeAllNodes, Count, CheckFavs, CheckUsers, NodesTally, FavsTally, Sound, Consistent, DistinctNodes;
    RealUpsertNodes(env, sf, opts, run);
    RealNodesTally(env, sf, opts, run);
    if sf.purge.nodes {
      UnlistedNodesCount(env, sf, opts, run);
      NodePurgeReport(env, opts, sf.nodes, UpsertNodes(env, opts, sf.purge.favorites, sf.nodes, run));
    }
  }

  lemma SameNodeRefl(s: NodeSpec, db: Db)
    ensures SameNode(s, db, db)
  {
  }

  lemma DryNodesPhase(env: Env, sf: StateFile, opts: Options, run: Run, db: Db)
    requires Consistent(run.db) && run.error == None && opts.dryRun && Reliable(env) && WellFormed(sf)
    requires SameTables(db, run.db) && run.report.nodes == ZERO && run.report.favs == ZERO
    ensures var r := ApplyNodes(env, sf, opts, run);
      && r.error == None && r.report.users == run.report.users && SameTables(db, r.db)
      && r.report.nodes == NodesTally(sf.nodes, db)
           .Plus(ZERO.(deleted := if sf.purge.nodes then Count(UnlistedNode(sf.nodes), db.nodes.rows) else 0))
      && r.report.favs == FavsTally(opts, sf.purge.favorites, sf.nodes, db)
  {
    hide UpsertNodes, PurgeAllNodes, Count, CheckFavs, CheckUsers, CheckNodes, NodesTally, FavsTally, Consistent,
         WellFormed, Reliable, ApplyNodes, UnlistedNode, Tally.Plus;
    var run1 := UpsertNodes(env, opts, sf.purge.favorites, sf.nodes, run);
    WellFormedParts(sf);
    NodesPhaseIs(env, sf, opts, run);
    LoopDry(env, opts, sf.purge.favorites, sf.nodes, run, db);
    ConsistentSame(run.db, run1.db);
    PlusZero(NodesTally(sf.nodes, db));
    PlusZero(FavsTally(opts, sf.purge.favorites, sf.nodes, db));
    if sf.purge.nodes { NodePurgeReport(env, opts, sf.nodes, run1); }
  }

  lemma ConsistentSame(a: Db, b: Db)
    requires Consistent(a) && SameTables(a, b)
    ensures Consistent(b)
  {
  }

  // --------------------------------------------------------------- theorem

  /** A dry run never changes a table, whatever the file and whichever statements fail. */
  lemma DryRunChangesNothing(env: Env, sf: StateFile, opts: Options, db: Db)
    requires Consistent(db) && opts.dryRun
    ensures SameTables(db, ApplyRun(env, sf, opts, db).db)
  {
    hide UpsertUsers, PurgeUsers, UpsertNodes, PurgeNodes, Sort, Count, CheckUsers, CheckNodes, Consistent;
    UpsertUsersFacts(env, opts, sf.users, Start(db));
    var run1 := UpsertUsers(env, opts, sf.users, Start(db));
    if run1.error == None && !Down(env, run1.db) {
      DryPurgeCount(env, opts, sf.users, Sort(UserBefore, run1.db.users.rows), run1.(db := Tick(run1.db)));
    }
    var run2 := ApplyUsers(env, sf, opts, Start(db));
    assert SameTables(db, run2.db);
    if run2.error == None {
      LoopDry(env, opts, sf.purge.favorites, sf.nodes, run2, run2.db);
      var run3 := UpsertNodes(env, opts, sf.purge.favorites, sf.nodes, run2);
      if run3.error == None && !Down(env, run3.db) {
        PurgeNodesCount(env, opts, sf.nodes, Sort(NodeBefore, run3.db.nodes.rows), run3.(db := Tick(run3.db)));
      }
    }
  }

  /**
   Dry-run exactness.  When no statement fails and the real run finishes, so does the dry run, and
   for distinct node and favorite numbers it reports what the real run reports, but for
     - `favs.created`, short by the favorites under new nodes;
     - `users.created`, over by the repeated entries of new users, and `users.updated`, where the
       real run compares an entry with those before it: nothing, if no username is listed twice;
     - `users.deleted`, which agrees exactly when the user purge is off, or no superuser is
       unlisted, or the file makes a superuser just when there are two.
   What each run says of the users is given in closed form.
   */
  lemma DryRunForetells(env: Env, sf: StateFile, reset: bool, db: Db)
    requires Sound(db) && Reliable(env) && DistinctNodes(sf.nodes)
    requires ApplyRun(env, sf, Options(false, reset), db).error == None
    ensures var actual := ApplyRun(env, sf, Options(false, reset), db);
      var dry := ApplyRun(env, sf, Options(true, reset), db); var rows := db.users.rows;
      && dry.error == None
      && dry.report.nodes == actual.report.nodes
      && dry.report.favs == actual.report.favs.(created := dry.report.favs.created)
      && actual.report.favs.created == dry.report.favs.created + FavsUnderNewNodes(sf.nodes, db)
      && dry.report.users.created == actual.report.users.created + RepeatedNew(sf.users, rows, {})
      && dry.report.users.updated == UsersTally(Options(true, reset), sf.users, rows).updated
      && actual.report.users.updated == RealTally(Options(false, reset), sf.users, rows, map[]).updated
      && (DistinctUsers(sf.users) ==>
            dry.report.users == actual.report.users.(deleted := dry.report.users.deleted))
      && dry.report.users.deleted == (if sf.purge.users then DryDeleted(sf.users, rows) else 0)
      && actual.report.users.deleted == (if sf.purge.users then RealDeleted(sf.users, rows) else 0)
      && (dry.report.users.deleted == actual.report.users.deleted <==>
            || !sf.purge.users
            || Count(UnlistedSuper(sf.users), rows) == 0
            || (MakesSuperuser(sf.users) <==> Superusers(rows) >= 2))
  {
    hide ApplyUsers, ApplyNodes, ApplyRun, Sound, Consistent, CheckFavs, CheckUsers, CheckNodes, Count,
         Reliable, WellFormed, DistinctUsers, DistinctNodes, MakesSuperuser, Superusers, UnlistedNode, UnlistedSuper,
         UsersTally, RealTally, RepeatedNew, NodesTally, FavsTally, FavsUnderNewNodes, RealDeleted, DryDeleted;
    var ro, do := Options(false, reset), Options(true, reset);
    RunIs(env, sf, ro, db);
    RunIs(env, sf, do, db);
    FinishedWellFormed(env, sf, ro, db);
    WellFormedParts(sf);
    SoundConsistent(db);
    RealUsersPhase(env, sf, ro, db);
    UsersConserved(env, sf, ro, Start(db));
    UsersPhaseSound(env, sf, ro, db);
    var run1 := ApplyUsers(env, sf, ro, Start(db));
    RealNodesPhase(env, sf, ro, run1);
    NodesTallySame(ro, sf.purge.favorites, sf.nodes, run1.db, db);
    DryUsersPhase(env, sf, do, db);
    ConsistentSame(db, ApplyUsers(env, sf, do, Start(db)).db);
    DryNodesPhase(env, sf, do, ApplyUsers(env, sf, do, Start(db)), db);
    TallyIgnoresDryness(ro, do, sf.users, db.users.rows);
    RepeatsFromNone(ro, sf.users, db.users.rows);
    TalliesDiffer(ro, do, sf.purge.favorites, sf.nodes, db);
    SuperuserCounts(sf.users, db.users.rows);
  }

  lemma RepeatsFromNone(opts: Options, specs: seq<UserSpec>, rows: seq<UserRow>)
    ensures var dry, actual := UsersTally(opts, specs, rows), RealTally(opts, specs, rows, map[]);
      && dry.created == actual.created + RepeatedNew(specs, rows, {})
      && (DistinctUsers(specs) ==> actual == dry)
  {
    hide UsersTally, RealTally, RepeatedNew, DistinctUsers;
    RepeatsDiffer(opts, specs, rows, map[]);
    var none: map<string, string> := map[];
    assert none.Keys == {};
  }

  lemma {:induction false} NodesTallySame(opts: Options, purge: bool, specs: seq<NodeSpec>, a: Db, b: Db)
    requires a.nodes == b.nodes && a.favs == b.favs
    ensures NodesTally(specs, a) == NodesTally(specs, b)
    ensures FavsTally(opts, purge, specs, a) == FavsTally(opts, purge, specs, b)
  {
    if specs != [] { NodesTallySame(opts, purge, specs[1..], a, b); }
  }

  /** The unlisted superusers are among the superusers, so the two purge counts differ only as stated. */
  lemma SuperuserCounts(specs: seq<UserSpec>, rows: seq<UserRow>)
    ensures RealDeleted(specs, rows) == DryDeleted(specs, rows) <==>
      || Count(UnlistedSuper(specs), rows) == 0
      || (MakesSuperuser(specs) <==> Superusers(rows) >= 2)
  {
    hide Count;
    CountSplit(IsSuperuser, UnlistedSuper(specs), ListedSuper(specs), rows);
  }
}
