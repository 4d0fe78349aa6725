/** What the users phase of an apply run does to the users table and to the report. */
module UserLaws {
  import opened Wrappers
  import opened Tables
  import opened Sql
  import opened ApplySpec

  // ----------------------------------------------------------- vocabulary

  /** Users now, less those reported created, plus those reported deleted. */
  function UserBalance(run: Run): int {
    |run.db.users.rows| - run.report.users.created + run.report.users.deleted
  }

  /** Only the users table, the user counts, the clock and the error differ. */
  ghost predicate OnlyUsers(a: Run, b: Run) {
    && a.db.nodes == b.db.nodes && a.db.favs == b.db.favs
    && b.report.nodes == a.report.nodes && b.report.favs == a.report.favs
  }

  ghost predicate IsHash(env: Env, password: string, hash: string) {
    |password| >= 8 && exists salt: nat :: env.bcrypt(password, salt) == Some(hash)
  }

  /** The entry that counts for a username: the last one. */
  function LastUser(specs: seq<UserSpec>, username: string): (r: Option<UserSpec>)
    ensures r.Some? ==> r.value in specs && r.value.username == username
    ensures r.None? ==> !ListsUser(specs, username)
  {
    if specs == [] then None
    else match LastUser(specs[1..], username)
      case Some(s) => Some(s)
      case None => if specs[0].username == username then Some(specs[0]) else None
  }

  function FirstUser(specs: seq<UserSpec>, username: string): (r: Option<UserSpec>)
    ensures r.Some? ==> r.value in specs && r.value.username == username
    ensures r.None? ==> !ListsUser(specs, username)
  {
    if specs == [] then None
    else if specs[0].username == username then Some(specs[0])
    else FirstUser(specs[1..], username)
  }

  /** The entry a password comes from: the first one creates the user, under a reset the last one overwrites. */
  function PasswordEntry(opts: Options, specs: seq<UserSpec>, username: string): UserSpec
    requires ListsUser(specs, username)
  {
    if opts.resetPasswords then LastUser(specs, username).value else FirstUser(specs, username).value
  }

  /** What a listed user looks like after the run, given what was there before. */
  ghost predicate UserApplied(env: Env, opts: Options, specs: seq<UserSpec>, username: string,
                              before: Option<UserRow>, after: Option<UserRow>)
    requires ListsUser(specs, username)
  {
    && after.Some? && after.value.key == username
    && LastUser(specs, username).Some?
    && after.value.value.permission == LastUser(specs, username).value.permission
    && (before.Some? ==> after.value.id == before.value.id
                         && after.value.value.profile == before.value.value.profile)
    && (before.None? ==> after.value.value.profile == BLANK_PROFILE)
    && (if before.Some? && !opts.resetPasswords
        then after.value.value.password == before.value.value.password
        else IsHash(env, PasswordEntry(opts, specs, username).password, after.value.value.password))
  }

  // -------------------------------------------------- one user of the file

  /** What one entry leaves behind, given what was there before. */
  ghost predicate UserSynced(env: Env, opts: Options, spec: UserSpec,
                             before: Option<UserRow>, after: Option<UserRow>)
  {
    && after.Some? && after.value.key == spec.username && after.value.value.permission == spec.permission
    && (before.Some? ==> after.value.id == before.value.id
                         && after.value.value.profile == before.value.value.profile)
    && (before.None? ==> after.value.value.profile == BLANK_PROFILE)
    && (if before.Some? && !opts.resetPasswords
        then after.value.value.password == before.value.value.password
        else IsHash(env, spec.password, after.value.value.password))
  }

  function UserDelta(opts: Options, spec: UserSpec, before: Option<UserRow>): (d: Tally)
    ensures d.deleted == 0
  {
    if before.None? then ZERO.OneCreated()
    else if before.value.value.permission != spec.permission || opts.resetPasswords then ZERO.OneUpdated()
    else ZERO
  }

  lemma AddUserFacts(env: Env, opts: Options, spec: UserSpec, run: Run)
    requires Consistent(run.db) && run.error == None && Find(run.db.users.rows, spec.username) == None
    ensures var r := AddUser(env, opts, spec, run);
      && Consistent(r.db) && OnlyUsers(run, r)
      && (opts.dryRun ==> SameTables(run.db, r.db))
      && (!opts.dryRun ==> UserBalance(r) == UserBalance(run))
      && (if r.error.None? then r.report.users == run.report.users.Plus(UserDelta(opts, spec, None))
          else r.report == run.report)
      && (forall k :: k != spec.username ==> Find(r.db.users.rows, k) == Find(run.db.users.rows, k))
      && (r.error.None? && !opts.dryRun ==>
            UserSynced(env, opts, spec, None, Find(r.db.users.rows, spec.username)))
  {
    if !opts.dryRun {
      var h := HashPassword(env, spec.password, run.db.clock);
      if h.Some? {
        InsertMembers(run.db.users, spec.username, User(h.value, spec.permission, BLANK_PROFILE));
        InsertFacts(run.db.users, spec.username, User(h.value, spec.permission, BLANK_PROFILE));
        assert IsHash(env, spec.password, h.value);
      }
    }
  }

  /** From `run` to `r`, one user's value became `value` and nothing else changed but the clock and the error. */
  ghost predicate ValueSet(run: Run, r: Run, row: UserRow, value: User) {
    && Consistent(r.db) && OnlyUsers(run, r) && r.report == run.report
    && |r.db.users.rows| == |run.db.users.rows|
    && (forall k :: Find(r.db.users.rows, k) ==
                    if k == row.key then Some(row.(value := value)) else Find(run.db.users.rows, k))
    && (value == row.value ==> r.db.users == run.db.users)
  }

  /** An update of one user's value by id. */
  lemma UpdateUserRow(run: Run, r: Run, row: UserRow, value: User)
    requires Consistent(run.db) && Find(run.db.users.rows, row.key) == Some(row)
    requires r == run.(db := Tick(run.db).(users := Put(run.db.users, row.(value := value))))
    ensures ValueSet(run, r, row, value)
  {
    PutMembers(run.db.users, row, row.(value := value));
    PutFacts(run.db.users, row, row.(value := value));
  }

  lemma SyncPermissionFacts(env: Env, opts: Options, spec: UserSpec, row: UserRow, run: Run)
    requires Consistent(run.db) && run.error == None && Find(run.db.users.rows, row.key) == Some(row)
    ensures var r := SyncPermission(env, opts, spec, row, run);
      ValueSet(run, r, row, if r.error.Some? || opts.dryRun then row.value
                            else row.value.(permission := spec.permission))
  {
    FindIdOfRow(run.db.users.rows, row);
    var r := SyncPermission(env, opts, spec, row, run);
    if r.error.None? && !opts.dryRun && row.value.permission != spec.permission {
      UpdateUserRow(run, r, row, row.value.(permission := spec.permission));
    }
  }

  lemma SyncPasswordFacts(env: Env, opts: Options, spec: UserSpec, row: UserRow, run: Run) returns (password: string)
    requires Consistent(run.db) && run.error == None && Find(run.db.users.rows, row.key) == Some(row)
    ensures var r := SyncPassword(env, opts, spec, row, run);
      && ValueSet(run, r, row, row.value.(password := password))
      && (r.error.Some? || opts.dryRun || !opts.resetPasswords ==> password == row.value.password)
      && (r.error.None? && !opts.dryRun && opts.resetPasswords ==> IsHash(env, spec.password, password))
  {
    FindIdOfRow(run.db.users.rows, row);
    var r := SyncPassword(env, opts, spec, row, run);
    password := row.value.password;
    if r.error.None? && !opts.dryRun && opts.resetPasswords {
      password := HashPassword(env, spec.password, run.db.clock).value;
      UpdateUserRow(run, r, row, row.value.(password := password));
    }
  }

  lemma SyncUserFacts(env: Env, opts: Options, spec: UserSpec, row: UserRow, run: Run)
    requires Consistent(run.db) && run.error == None && Find(run.db.users.rows, spec.username) == Some(row)
    ensures var r := SyncUser(env, opts, spec, row, run);
      && Consistent(r.db) && OnlyUsers(run, r)
      && (opts.dryRun ==> SameTables(run.db, r.db))
      && UserBalance(r) == UserBalance(run)
      && (if r.error.None? then r.report.users == run.report.users.Plus(UserDelta(opts, spec, Some(row)))
          else r.report == run.report)
      && (forall k :: k != spec.username ==> Find(r.db.users.rows, k) == Find(run.db.users.rows, k))
      && (r.error.None? && !opts.dryRun ==>
            UserSynced(env, opts, spec, Some(row), Find(r.db.users.rows, spec.username)))
      && (r.error.None? && UserDelta(opts, spec, Some(row)) == ZERO ==> SameTables(run.db, r.db))
  {
    hide SyncPermission, SyncPassword, Consistent, Find, IsHash;
    SyncPermissionFacts(env, opts, spec, row, run);
    var run1 := SyncPermission(env, opts, spec, row, run);
    if run1.error.None? {
      var row1 := Find(run1.db.users.rows, spec.username).value;
      PasswordById(env, opts, spec, row, row1, run1);
      var password := SyncPasswordFacts(env, opts, spec, row1, run1);
    }
  }

  lemma PasswordById(env: Env, opts: Options, spec: UserSpec, a: UserRow, b: UserRow, run: Run)
    requires a.id == b.id
    ensures SyncPassword(env, opts, spec, a, run) == SyncPassword(env, opts, spec, b, run)
  {
    hide UpdateUserPassword, HashPassword;
  }

  lemma UpsertUserFacts(env: Env, opts: Options, spec: UserSpec, run: Run)
    requires Consistent(run.db) && run.error == None
    ensures var r := UpsertUser(env, opts, spec, run); var before := Find(run.db.users.rows, spec.username);
      && Consistent(r.db) && OnlyUsers(run, r)
      && (opts.dryRun ==> SameTables(run.db, r.db))
      && (!opts.dryRun ==> UserBalance(r) == UserBalance(run))
      && (if r.error.None? then r.report.users == run.report.users.Plus(UserDelta(opts, spec, before))
          else r.report == run.report)
      && (forall k :: k != spec.username ==> Find(r.db.users.rows, k) == Find(run.db.users.rows, k))
      && (r.error.None? && !opts.dryRun ==>
            UserSynced(env, opts, spec, before, Find(r.db.users.rows, spec.username)))
      && (r.error.None? && r.report == run.report ==> SameTables(run.db, r.db))
  {
    var reply := GetUser(env, run.db, spec.username);
    var run1 := run.(db := reply.db);
    match reply.result
    case Ok(row) => SyncUserFacts(env, opts, spec, row, run1);
    case Err(NotFound) => AddUserFacts(env, opts, spec, run1);
    case Err(_) =>
  }

  lemma NoHashYet(env: Env, opts: Options, spec: UserSpec, row: UserRow, run: Run)
    requires run.error == None
    ensures SyncPermission(env, opts, spec, row, run).error != Some(HashFailed)
    ensures opts.dryRun ==> SyncPassword(env, opts, spec, row, SyncPermission(env, opts, spec, row, run)).error == None
  {
    hide FindId, Put;
  }

  /**
   An entry that stops the run creates nobody and leaves every password; of an existing user the
   permission may be set by then, and is if it stopped at the hash.
   */
  lemma StoppedEntry(env: Env, opts: Options, spec: UserSpec, run: Run)
    requires Consistent(run.db) && run.error == None && UpsertUser(env, opts, spec, run).error.Some?
    ensures var before := Find(run.db.users.rows, spec.username); var r := UpsertUser(env, opts, spec, run);
      var after := Find(r.db.users.rows, spec.username);
      if before.None? then after.None?
      else
        && after.Some? && after.value.id == before.value.id
        && after.value.value.password == before.value.value.password
        && after.value.value.profile == before.value.value.profile
        && (|| after.value.value.permission == spec.permission
            || (r.error != Some(HashFailed) && after.value.value.permission == before.value.value.permission))
  {
    hide SyncPermission, SyncPassword, Find, IsHash, HashPassword, Valid, UniqueKeys;
    var before := Find(run.db.users.rows, spec.username);
    var run1 := run.(db := Tick(run.db));
    if !Down(env, run.db) && before.Some? {
      SyncPermissionFacts(env, opts, spec, before.value, run1);
      NoHashYet(env, opts, spec, before.value, run1);
      var run2 := SyncPermission(env, opts, spec, before.value, run1);
      if run2.error.None? {
        var row := Find(run2.db.users.rows, spec.username).value;
        PasswordById(env, opts, spec, before.value, row, run2);
        var password := SyncPasswordFacts(env, opts, spec, row, run2);
      }
    }
  }

  // ------------------------------------------------ all users of the file

  lemma UserAppliedCons(env: Env, opts: Options, specs: seq<UserSpec>, username: string,
                        before: Option<UserRow>, mid: Option<UserRow>, after: Option<UserRow>)
    requires specs != [] && ListsUser(specs, username)
    requires if specs[0].username == username then UserSynced(env, opts, specs[0], before, mid) else mid == before
    requires if ListsUser(specs[1..], username) then UserApplied(env, opts, specs[1..], username, mid, after)
             else after == mid
    ensures UserApplied(env, opts, specs, username, before, after)
  {
    assert forall s :: s in specs <==> s == specs[0] || s in specs[1..];
    if LastUser(specs[1..], username).None? { assert LastUser(specs, username) == Some(specs[0]); }
  }

  lemma UserAppliedExists(env: Env, opts: Options, specs: seq<UserSpec>, name: string,
                          before: Option<UserRow>, after: Option<UserRow>)
    requires ListsUser(specs, name) && UserApplied(env, opts, specs, name, before, after)
    ensures after.Some?
  {
  }

  /** Any run of the upsert loop, stopped early or not. */
  lemma {:induction false} UpsertUsersFacts(env: Env, opts: Options, specs: seq<UserSpec>, run: Run)
    requires Consistent(run.db) && run.error == None
    ensures var r := UpsertUsers(env, opts, specs, run);
      && Consistent(r.db) && OnlyUsers(run, r)
      && (opts.dryRun ==> SameTables(run.db, r.db))
      && (!opts.dryRun ==> UserBalance(r) == UserBalance(run))
      && (forall k :: !ListsUser(specs, k) ==> Find(r.db.users.rows, k) == Find(run.db.users.rows, k))
      && r.report.users.deleted == run.report.users.deleted
      && run.report.users.Total() <= r.report.users.Total()
    decreases specs
  {
    hide UpsertUser, Consistent, UserSynced, UserDelta;
    if specs != [] {
      var run1 := UpsertUser(env, opts, specs[0], run);
      UpsertUserFacts(env, opts, specs[0], run);
      assert forall k :: ListsUser(specs[1..], k) ==> ListsUser(specs, k);
      assert specs[0] in specs;
      if run1.error.None? { UpsertUsersFacts(env, opts, specs[1..], run1); }
    }
  }

  /** A run of the upsert loop that finishes leaves every listed user as its last entry says. */
  lemma {:induction false} UpsertUsersApplied(env: Env, opts: Options, specs: seq<UserSpec>, run: Run, username: string)
    requires Consistent(run.db) && run.error == None && !opts.dryRun && ListsUser(specs, username)
    requires UpsertUsers(env, opts, specs, run).error == None
    ensures UserApplied(env, opts, specs, username, Find(run.db.users.rows, username),
                        Find(UpsertUsers(env, opts, specs, run).db.users.rows, username))
    decreases specs
  {
    hide UpsertUser, Consistent, UserSynced, UserDelta;
    var run1 := UpsertUser(env, opts, specs[0], run);
    var r := UpsertUsers(env, opts, specs[1..], run1);
    UpsertUserFacts(env, opts, specs[0], run);
    if ListsUser(specs[1..], username) {
      UpsertUsersApplied(env, opts, specs[1..], run1, username);
    } else if run1.error.None? {
      UpsertUsersFacts(env, opts, specs[1..], run1);
    }
    UserAppliedCons(env, opts, specs, username, Find(run.db.users.rows, username),
                    Find(run1.db.users.rows, username), Find(r.db.users.rows, username));
  }
}
