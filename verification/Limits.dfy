/** Concrete files and databases for which a documented promise of `apply` fails. */
module Limits {
  import opened Wrappers
  import opened Tables
  import opened Sorting
  import opened Sql
  import opened ApplySpec
  import opened UserPurgeLaws
  import opened FavLaws
  import opened UserLaws
  import opened NodePhaseLaws
  import opened Convergence
  import opened Idempotence
  import opened DryRun

  const REAL := Options(false, false)
  const DRY := Options(true, false)
  const KEEP := PurgePolicy(false, false, false)
  const PURGE_USERS := PurgePolicy(true, false, false)

  function OneUser(permission: string): UserRow {
    Row(0, "a", User("h", permission, BLANK_PROFILE))
  }

  function UsersDb(rows: seq<UserRow>): Db {
    Db(Table(rows, 2), Table([], 0), Table([], 0), 0)
  }

  lemma OneUserSound(permission: string)
    ensures Sound(UsersDb([OneUser(permission)]))
  {
  }

  function Twice(): StateFile {
    StateFile(KEEP, [UserSpec("a", "readonly", ""), UserSpec("a", "admin", "")], [])
  }

  /** A file without nodes, of users the database has, is applied to the end when nothing fails. */
  lemma KnownUsersFinish(env: Env, sf: StateFile, db: Db)
    requires Reliable(env) && Sound(db) && CheckUsers(sf.users) == None && sf.nodes == [] && !sf.purge.nodes
    requires forall s :: s in sf.users ==> Find(db.users.rows, s.username).Some?
    ensures ApplyRun(env, sf, REAL, db).error == None
  {
    hide ApplyRun, ApplyUsers, ApplyNodes, UpsertNodes, Consistent, CheckUsers, Sound, Find;
    SoundConsistent(db);
    RunIs(env, sf, REAL, db);
    SecondUsersPhase(env, sf, REAL, Start(db));
    var run := ApplyUsers(env, sf, REAL, Start(db));
    NodesPhaseIs(env, sf, REAL, run);
    NoNodes(env, REAL, sf.purge.favorites, run);
  }

  lemma NoNodes(env: Env, opts: Options, purge: bool, run: Run)
    ensures UpsertNodes(env, opts, purge, [], run) == run && CheckNodes([]) == None
  {
  }

  lemma ChecksTwo(a: UserSpec, b: UserSpec)
    requires a.username != "" && b.username != "" && ValidPermission(a.permission) && ValidPermission(b.permission)
    ensures CheckUsers([a]) == None && CheckUsers([a, b]) == None
  {
    assert [a][1..] == [] && [a, b][1..] == [b] && [b][1..] == [];
  }

  /** A file that lists a user twice with different permissions: it can be applied, and always reports a change. */
  lemma ContradictionNeverSettles(env: Env)
    requires Reliable(env)
    ensures ApplyRun(env, Twice(), REAL, UsersDb([OneUser("admin")])).error == None
    ensures forall db :: Sound(db) && ApplyRun(env, Twice(), REAL, db).error == None ==>
              ApplyRun(env, Twice(), REAL, db).report.Total() > 0
  {
    hide ApplyRun, Sound, CheckUsers;
    var sf, start := Twice(), UsersDb([OneUser("admin")]);
    OneUserSound("admin");
    ChecksTwo(sf.users[0], sf.users[1]);
    assert Find(start.users.rows, "a") == Some(OneUser("admin"));
    KnownUsersFinish(env, sf, start);
    assert sf.users[0] in sf.users && sf.users[1] in sf.users && sf.users[0].permission != sf.users[1].permission;
    forall db | Sound(db) && ApplyRun(env, sf, REAL, db).error == None
      ensures ApplyRun(env, sf, REAL, db).report.Total() > 0
    {
      ContradictionAlwaysReported(env, sf, REAL, db);
    }
  }

  // ------------------------------------------------------- the last superuser

  function Demoting(): StateFile {
    StateFile(PURGE_USERS, [UserSpec("a", "readonly", "")], [])
  }

  lemma DemotingFacts()
    ensures var db := UsersDb([OneUser(SUPERUSER)]);
      && Superusers(db.users.rows) == 1 && Count(UnlistedSuper(Demoting().users), db.users.rows) == 0
      && !MakesSuperuser(Demoting().users) && CheckUsers(Demoting().users) == None
      && Find(db.users.rows, "a").Some?
  {
    var db, spec := UsersDb([OneUser(SUPERUSER)]), Demoting().users[0];
    ChecksTwo(spec, spec);
    assert Demoting().users[1..] == [] && db.users.rows[1..] == [] && spec in Demoting().users;
    assert LastUser(Demoting().users, "a") == Some(spec);
  }

  /** A run that demotes the only superuser leaves none. */
  lemma LastSuperuserDemoted(env: Env)
    requires Reliable(env)
    ensures var run := ApplyRun(env, Demoting(), REAL, UsersDb([OneUser(SUPERUSER)]));
      run.error == None && !HasSuperuser(run.db.users.rows)
  {
    hide ApplyRun, Sound, Consistent, CheckUsers, Count, MakesSuperuser, Find, HasSuperuser;
    var db := UsersDb([OneUser(SUPERUSER)]);
    OneUserSound(SUPERUSER);
    SoundConsistent(db);
    DemotingFacts();
    KnownUsersFinish(env, Demoting(), db);
    SuperusersLeft(env, Demoting(), REAL, db);
    SuperusersCounted(ApplyRun(env, Demoting(), REAL, db).db.users.rows);
  }

  function TwoUsers(second: string): Db {
    UsersDb([OneUser(SUPERUSER), Row(1, "b", User("h", second, BLANK_PROFILE))])
  }

  lemma TwoUsersSound(second: string)
    ensures Sound(TwoUsers(second))
  {
  }

  /** With the counts of both superusers failing, a finished purge keeps both, though the file lists no one. */
  lemma FailedCountsSpareTwo(env: Env)
    requires !env.fails(0) && env.fails(1) && env.fails(2)
    ensures var db := TwoUsers(SUPERUSER); var run := ApplyRun(env, StateFile(PURGE_USERS, [], []), REAL, db);
      run.error == None && run.report == NO_CHANGES && SameTables(db, run.db)
  {
    hide ApplyRun, ApplyUsers, ApplyNodes, PurgeAllUsers, PurgeUsers, Sort, UpsertUsers, UpsertNodes, CheckUsers, CheckNodes;
    var sf, db := StateFile(PURGE_USERS, [], []), TwoUsers(SUPERUSER);
    RunIs(env, sf, REAL, db);
    UsersPhaseIs(env, sf, REAL, Start(db));
    NodesPhaseIs(env, sf, REAL, ApplyUsers(env, sf, REAL, Start(db)));
    NoUsers(env, REAL, Start(db));
    NoNodes(env, REAL, false, ApplyUsers(env, sf, REAL, Start(db)));
    UserPurgeIs(env, REAL, [], Start(db));
    TwoSorted(SUPERUSER);
    TwoSpared(env, Start(db).(db := Tick(db)));
  }

  lemma NoUsers(env: Env, opts: Options, run: Run)
    ensures UpsertUsers(env, opts, [], run) == run && CheckUsers([]) == None
  {
  }

  lemma TwoSpared(env: Env, run: Run)
    requires run.error == None && env.fails(run.db.clock) && env.fails(run.db.clock + 1)
    ensures PurgeUsers(env, REAL, [], TwoUsers(SUPERUSER).users.rows, run) == run.(db := Tick(Tick(run.db)))
  {
    hide RemoveUser, Superusers;
    var rows := TwoUsers(SUPERUSER).users.rows;
    assert rows[1..] == [rows[1]] && rows[1..][1..] == [];
    var run1 := run.(db := Tick(run.db));
    assert PurgeUser(env, REAL, [], rows[0], run) == run1;
    var run2 := run1.(db := Tick(run1.db));
    assert PurgeUser(env, REAL, [], rows[1], run1) == run2;
    assert PurgeUsers(env, REAL, [], [], run2) == run2;
    assert PurgeUsers(env, REAL, [], rows[1..], run1) == run2;
  }

  lemma TwoSorted(second: string)
    ensures Sort(UserBefore, TwoUsers(second).users.rows) == TwoUsers(second).users.rows
  {
    var rows := TwoUsers(second).users.rows;
    assert rows[1..] == [rows[1]] && rows[1..][1..] == [];
    assert UserBefore(rows[0], rows[1]);
  }

  // ----------------------------------------------------------------- dry runs

  lemma CountTwo(p: UserRow -> bool, rows: seq<UserRow>)
    requires |rows| == 2
    ensures Count(p, rows) == (if p(rows[0]) then 1 else 0) + (if p(rows[1]) then 1 else 0)
  {
    assert rows[1..] == [rows[1]] && rows[1..][1..] == [];
  }

  lemma TwoCounted(second: string, listed: seq<UserSpec>)
    requires !ListsUser(listed, "a")
    ensures var rows := TwoUsers(second).users.rows; var super := if second == SUPERUSER then 1 else 0;
      && Superusers(rows) == 1 + super
      && Count(UnlistedSuper(listed), rows) == 1 + (if ListsUser(listed, "b") then 0 else super)
      && Count(UnlistedPlain(listed), rows) == if ListsUser(listed, "b") then 0 else 1 - super
  {
    hide ListsUser, Count;
    var rows := TwoUsers(second).users.rows;
    CountTwo(IsSuperuser, rows);
    CountTwo(UnlistedSuper(listed), rows);
    CountTwo(UnlistedPlain(listed), rows);
  }

  /** Two superusers and a file that lists no one: the dry run announces both gone, the real run deletes one. */
  lemma OneTooManyForetold(env: Env)
    requires Reliable(env)
    ensures var sf := StateFile(PURGE_USERS, [], []); var db := TwoUsers(SUPERUSER);
      && ApplyRun(env, sf, DRY, db).report.users.deleted == 2
      && ApplyRun(env, sf, REAL, db).report.users.deleted == 1
  {
    hide ApplyRun, Count, Sound;
    var sf, db := StateFile(PURGE_USERS, [], []), TwoUsers(SUPERUSER);
    TwoUsersSound(SUPERUSER);
    TwoCounted(SUPERUSER, []);
    RealRunFinishes(env, sf, REAL, db);
    DryRunForetells(env, sf, false, db);
  }

  function Promoting(): StateFile {
    StateFile(PURGE_USERS, [UserSpec("b", SUPERUSER, "")], [])
  }

  lemma PromotingFacts()
    ensures var specs := Promoting().users;
      && CheckUsers(specs) == None && MakesSuperuser(specs) && ListsUser(specs, "b") && !ListsUser(specs, "a")
      && forall s :: s in specs ==> Find(TwoUsers("readonly").users.rows, s.username).Some?
  {
    var spec := Promoting().users[0];
    ChecksTwo(spec, spec);
    assert Promoting().users[1..] == [] && spec in Promoting().users;
    assert LastUser(Promoting().users, "b") == Some(spec);
    assert TwoUsers("readonly").users.rows[1] in TwoUsers("readonly").users.rows;
  }

  /** The only superuser unlisted, and a file that makes another: the dry run spares it, the real run deletes it. */
  lemma OneTooFewForetold(env: Env)
    requires Reliable(env)
    ensures var db := TwoUsers("readonly");
      && ApplyRun(env, Promoting(), DRY, db).report.users.deleted == 0
      && ApplyRun(env, Promoting(), REAL, db).report.users.deleted == 1
  {
    hide ApplyRun, Count, Sound, Consistent, CheckUsers, MakesSuperuser, ListsUser, Find, UsersTally, RealTally,
         RepeatedNew, FavsUnderNewNodes, DistinctUsers;
    TwoUsersSound("readonly");
    PromotingFacts();
    TwoCounted("readonly", Promoting().users);
    KnownUsersFinish(env, Promoting(), TwoUsers("readonly"));
    DryRunForetells(env, Promoting(), false, TwoUsers("readonly"));
  }

  function NewNode(): StateFile {
    StateFile(KEEP, [], [NodeSpec("n", "1", "", 0, "", "", true, [FavoriteSpec("2", "", "", "", "")])])
  }

  lemma NewNodeFacts()
    ensures WellFormed(NewNode()) && DistinctNodes(NewNode().nodes)
    ensures FavsUnderNewNodes(NewNode().nodes, UsersDb([])) == 1 && Sound(UsersDb([]))
  {
    var spec := NewNode().nodes[0];
    assert NewNode().nodes[1..] == [] && spec.favorites[1..] == [];
  }

  /** A new node with one favorite: the dry run does not mention the favorite. */
  lemma NewFavoriteNotForetold(env: Env)
    requires Reliable(env)
    ensures ApplyRun(env, NewNode(), REAL, UsersDb([])).report.favs.created
         == ApplyRun(env, NewNode(), DRY, UsersDb([])).report.favs.created + 1
  {
    hide ApplyRun, Sound, WellFormed, DistinctNodes, FavsUnderNewNodes, Count;
    NewNodeFacts();
    RealRunFinishes(env, NewNode(), REAL, UsersDb([]));
    DryRunForetells(env, NewNode(), false, UsersDb([]));
  }

  function NewUserTwice(password: string): StateFile {
    var spec := UserSpec("a", "admin", password);
    StateFile(KEEP, [spec, spec], [])
  }

  lemma NewUserTwiceFacts(password: string)
    ensures var sf := NewUserTwice(password);
      && WellFormed(sf) && DistinctNodes(sf.nodes) && RepeatedNew(sf.users, [], {}) == 1
      && ListsUser(sf.users, "a") && FirstUser(sf.users, "a") == Some(sf.users[0])
  {
    var specs := NewUserTwice(password).users;
    ChecksTwo(specs[0], specs[1]);
    assert specs[1..] == [specs[1]] && specs[1..][1..] == [] && specs[0] in specs;
    var none: set<string> := {};
    assert none + {"a"} == {"a"};
    assert RepeatedNew(specs[1..], [], {"a"}) == 1 + RepeatedNew([], [], {"a"} + {"a"});
  }

  /** A new user listed twice: the dry run announces one creation more than the real run makes. */
  lemma OneCreationTooMany(env: Env, password: string)
    requires Reliable(env) && Hashable(env, password)
    ensures ApplyRun(env, NewUserTwice(password), DRY, UsersDb([])).report.users.created
         == ApplyRun(env, NewUserTwice(password), REAL, UsersDb([])).report.users.created + 1
  {
    hide ApplyRun, WellFormed, DistinctNodes, RepeatedNew;
    NewUserTwiceFacts(password);
    UserlessSound();
    RealRunFinishes(env, NewUserTwice(password), REAL, UsersDb([]));
    DryRunForetells(env, NewUserTwice(password), false, UsersDb([]));
  }

  lemma UserlessSound()
    ensures Sound(UsersDb([]))
  {
  }

  lemma NobodyThere(name: string)
    ensures Find(UsersDb([]).users.rows, name).None?
  {
  }

  /** A new user with a short password: the dry run finds no fault, and the real run stops. */
  lemma ShortPasswordNotForetold(env: Env, password: string)
    requires Reliable(env) && |password| < 8
    ensures ApplyRun(env, NewUserTwice(password), DRY, UsersDb([])).error == None
    ensures ApplyRun(env, NewUserTwice(password), REAL, UsersDb([])).error != None
  {
    hide ApplyRun, ApplyUsers, ApplyNodes, Sound, Consistent, WellFormed, DistinctNodes, RepeatedNew, UsersTally,
         NodesTally, FavsTally, DryDeleted, Count, CheckUsers, CheckNodes, CheckFavs, ListsUser, FirstUser, Find;
    var sf, db := NewUserTwice(password), UsersDb([]);
    NewUserTwiceFacts(password);
    UserlessSound();
    SoundConsistent(db);
    WellFormedParts(sf);
    RunIs(env, sf, DRY, db);
    DryUsersPhase(env, sf, DRY, db);
    ConsistentSame(db, ApplyUsers(env, sf, DRY, Start(db)).db);
    DryNodesPhase(env, sf, DRY, ApplyUsers(env, sf, DRY, Start(db)), db);
    NobodyThere("a");
    if ApplyRun(env, sf, REAL, db).error == None { FinishedRunHashed(env, sf, REAL, db, "a"); }
  }
}
