/** Why a run of `yaamon apply` stops, what it has done by then, and when it does not. */
module Errors {
  import opened Wrappers
  import opened Tables
  import opened Sorting
  import opened Sql
  import opened ApplySpec
  import opened UserPurgeLaws
  import opened Convergence

  /** The run was stopped by a password that cannot be hashed. */
  predicate HashStops(env: Env, opts: Options, password: string, r: Run) {
    && r.error == Some(HashFailed) && !opts.dryRun
    && (|password| < 8 || env.bcrypt(password, r.db.clock) == None)
  }

  /** The run was stopped by its last statement, which failed. */
  predicate StatementStops(env: Env, r: Run) {
    r.error == Some(DatabaseError(StatementFailed)) && r.db.clock > 0 && env.fails(r.db.clock - 1)
  }

  /** How many of the statements with these numbers fail. */
  function Failures(env: Env, from: nat, to: nat): nat {
    if to <= from then 0 else Failures(env, from, to - 1) + if env.fails(to - 1) then 1 else 0
  }

  lemma {:induction false} FailuresSplit(env: Env, a: nat, b: nat, c: nat)
    requires a <= b <= c
    ensures Failures(env, a, c) == Failures(env, a, b) + Failures(env, b, c)
    decreases c
  {
    if b < c { FailuresSplit(env, a, b, c - 1); }
  }

  lemma FirstFailures(env: Env, a: nat)
    ensures Failures(env, a, a + 1) == if env.fails(a) then 1 else 0
    ensures Failures(env, a, a + 2) == Failures(env, a, a + 1) + if env.fails(a + 1) then 1 else 0
    ensures Failures(env, a, a + 3) == Failures(env, a, a + 2) + if env.fails(a + 2) then 1 else 0
  {
  }

  /** A stretch of a run: but for those it ignored, every failed statement stopped it, and so it was the last. */
  predicate Ran(env: Env, run: Run, r: Run, ignored: nat) {
    && run.db.clock <= r.db.clock
    && Failures(env, run.db.clock, r.db.clock) == ignored + if StatementStops(env, r) then 1 else 0
  }

  lemma RanOn(env: Env, a: Run, b: Run, c: Run, k: nat, n: nat)
    requires Ran(env, a, b, k) && Ran(env, b, c, n) && b.error == None
    ensures Ran(env, a, c, k + n)
  {
    FailuresSplit(env, a.db.clock, b.db.clock, c.db.clock);
  }

  // ----------------------------------------------------------------- users

  lemma UpsertUserStops(env: Env, opts: Options, spec: UserSpec, run: Run)
    requires run.error == None
    ensures var r := UpsertUser(env, opts, spec, run);
      Ran(env, run, r, 0) && (r.error == None || StatementStops(env, r) || HashStops(env, opts, spec.password, r))
  {
    FirstFailures(env, run.db.clock);
    hide Find, FindId, Put, Insert;
  }

  lemma {:induction false} UpsertUsersStop(env: Env, opts: Options, specs: seq<UserSpec>, run: Run)
    requires run.error == None
    ensures var r := UpsertUsers(env, opts, specs, run);
      && Ran(env, run, r, 0)
      && (r.error == None || StatementStops(env, r) || exists s :: s in specs && HashStops(env, opts, s.password, r))
    decreases specs
  {
    hide UpsertUser, HashStops;
    if specs != [] {
      UpsertUserStops(env, opts, specs[0], run);
      var run1 := UpsertUser(env, opts, specs[0], run);
      if run1.error == None {
        UpsertUsersStop(env, opts, specs[1..], run1);
        RanOn(env, run, run1, UpsertUsers(env, opts, specs, run), 0, 0);
      } else {
        assert UpsertUsers(env, opts, specs[1..], run1) == run1;
      }
    }
  }

  /** The purge of users ignores a failed count of superusers, and no other failure. */
  lemma PurgeUserStops(env: Env, opts: Options, specs: seq<UserSpec>, u: UserRow, run: Run)
    requires run.error == None
    ensures var r := PurgeUser(env, opts, specs, u, run);
      && Ran(env, run, r, if CountFails(env, specs, u, run) then 1 else 0)
      && (r.error == None || StatementStops(env, r))
  {
    hide Delete, Superusers, ListsUser;
    FirstFailures(env, run.db.clock);
  }

  lemma {:induction false} PurgeUsersStop(env: Env, opts: Options, specs: seq<UserSpec>, listing: seq<UserRow>, run: Run)
    requires run.error == None
    ensures var r := PurgeUsers(env, opts, specs, listing, run);
      && Ran(env, run, r, FailedCounts(env, opts, specs, listing, run))
      && (r.error == None || StatementStops(env, r))
    decreases listing
  {
    hide PurgeUser, CountFails;
    if listing != [] {
      PurgeUserStops(env, opts, specs, listing[0], run);
      var run1 := PurgeUser(env, opts, specs, listing[0], run);
      if run1.error == None {
        PurgeUsersStop(env, opts, specs, listing[1..], run1);
        RanOn(env, run, run1, PurgeUsers(env, opts, specs, listing, run),
              if CountFails(env, specs, listing[0], run) then 1 else 0, FailedCounts(env, opts, specs, listing[1..], run1));
      } else {
        assert PurgeUsers(env, opts, specs, listing[1..], run1) == run1;
      }
    }
  }

  // ------------------------------------------------------------- favorites

  lemma UpsertFavStops(env: Env, opts: Options, nodeId: nat, f: FavoriteSpec, run: Run)
    requires run.error == None && FindId(run.db.nodes.rows, nodeId).Some?
    ensures var r := UpsertFav(env, opts, nodeId, f, run);
      Ran(env, run, r, 0) && (r.error == None || StatementStops(env, r)) && r.db.nodes == run.db.nodes
  {
    hide Find, FindId, Put, Insert, NextPosition;
    FirstFailures(env, run.db.clock);
  }

  lemma {:induction false} UpsertFavsStop(env: Env, opts: Options, nodeId: nat, specs: seq<FavoriteSpec>, run: Run)
    requires run.error == None && FindId(run.db.nodes.rows, nodeId).Some?
    ensures var r := UpsertFavs(env, opts, nodeId, specs, run);
      Ran(env, run, r, 0) && (r.error == None || StatementStops(env, r)) && r.db.nodes == run.db.nodes
    decreases specs
  {
    hide UpsertFav, FindId;
    if specs != [] {
      UpsertFavStops(env, opts, nodeId, specs[0], run);
      var run1 := UpsertFav(env, opts, nodeId, specs[0], run);
      if run1.error == None {
        UpsertFavsStop(env, opts, nodeId, specs[1..], run1);
        RanOn(env, run, run1, UpsertFavs(env, opts, nodeId, specs, run), 0, 0);
      } else {
        assert UpsertFavs(env, opts, nodeId, specs[1..], run1) == run1;
      }
    }
  }

  lemma PurgeFavStops(env: Env, opts: Options, specs: seq<FavoriteSpec>, row: FavRow, run: Run)
    requires run.error == None
    ensures var r := PurgeFav(env, opts, specs, row, run);
      Ran(env, run, r, 0) && (r.error == None || StatementStops(env, r))
  {
    hide Delete, ListsFav;
    FirstFailures(env, run.db.clock);
  }

  lemma {:induction false} PurgeFavsStop(env: Env, opts: Options, specs: seq<FavoriteSpec>, listing: seq<FavRow>, run: Run)
    requires run.error == None
    ensures var r := PurgeFavs(env, opts, specs, listing, run);
      Ran(env, run, r, 0) && (r.error == None || StatementStops(env, r))
    decreases listing
  {
    hide PurgeFav;
    if listing != [] {
      PurgeFavStops(env, opts, specs, listing[0], run);
      var run1 := PurgeFav(env, opts, specs, listing[0], run);
      if run1.error == None {
        PurgeFavsStop(env, opts, specs, listing[1..], run1);
        RanOn(env, run, run1, PurgeFavs(env, opts, specs, listing, run), 0, 0);
      } else {
        assert PurgeFavs(env, opts, specs, listing[1..], run1) == run1;
      }
    }
  }

  /** Every favorite of the entry has a number. */
  ghost predicate Numbered(specs: seq<FavoriteSpec>) {
    forall f :: f in specs ==> f.number != ""
  }

  lemma {:induction false} CheckFavsTells(specs: seq<FavoriteSpec>)
    ensures CheckFavs(specs) == if Numbered(specs) then None else Some(MissingFavoriteNumber)
    decreases specs
  {
    if specs != [] {
      assert forall f :: f in specs <==> f == specs[0] || f in specs[1..];
      CheckFavsTells(specs[1..]);
    }
  }

  /** A stretch that is followed by a listing, and by another stretch if the listing works. */
  lemma Listed(env: Env, a: Run, b: Run, c: Run, n: nat)
    requires Ran(env, a, b, 0) && b.error == None
    requires if Down(env, b.db) then c.db.clock == b.db.clock + 1 && StatementStops(env, c) && n == 0
             else Ran(env, b.(db := Tick(b.db)), c, n)
    ensures Ran(env, a, c, n)
  {
    FirstFailures(env, b.db.clock);
    FailuresSplit(env, a.db.clock, b.db.clock, c.db.clock);
    FailuresSplit(env, b.db.clock, b.db.clock + 1, c.db.clock);
  }

  /** A list with a favorite without number is refused before any statement. */
  lemma FavoritesStop(env: Env, opts: Options, purge: bool, nodeId: nat, specs: seq<FavoriteSpec>, run: Run)
    requires run.error == None && FindId(run.db.nodes.rows, nodeId).Some?
    ensures var r := ApplyFavorites(env, opts, purge, nodeId, specs, run);
      && Ran(env, run, r, 0)
      && (!Numbered(specs) ==> r == run.(error := Some(MissingFavoriteNumber)))
      && (Numbered(specs) ==> r.error == None || StatementStops(env, r))
  {
    hide UpsertFavs, PurgeFavs, CheckFavs, FindId, Listing, Numbered;
    CheckFavsTells(specs);
    FavsPhaseIs(env, opts, purge, nodeId, specs, run);
    UpsertFavsStop(env, opts, nodeId, specs, run);
    var run1 := UpsertFavs(env, opts, nodeId, specs, run);
    if Numbered(specs) && purge && run1.error == None {
      FavPurgeIs(env, opts, nodeId, specs, run1);
      PurgeFavsStop(env, opts, specs, Listing(run1.db.favs.rows, nodeId), run1.(db := Tick(run1.db)));
      Listed(env, run, run1, ApplyFavorites(env, opts, purge, nodeId, specs, run), 0);
    }
  }

  // ----------------------------------------------------------------- nodes

  lemma NodeRowStops(env: Env, opts: Options, spec: NodeSpec, row: NodeRow, run: Run)
    requires run.error == None && FindId(run.db.nodes.rows, row.id).Some?
    ensures var r := SyncNodeRow(env, opts, spec, row, run);
      Ran(env, run, r, 0) && (r.error == None || StatementStops(env, r)) && FindId(r.db.nodes.rows, row.id).Some?
  {
    hide NodeChanged, Wanted;
    FirstFailures(env, run.db.clock);
    var rows := run.db.nodes.rows;
    var rows' := PutRow(rows, Row(row.id, spec.number, Wanted(spec)));
    var x := FindId(rows, row.id).value;
    assert FindId(rows', row.id).Some? by {
      var k :| 0 <= k < |rows| && rows[k] == x;
      assert rows'[k].id == row.id;
    }
  }

  /** The favorites of a node already listed are looked at in any run, those of a new one only in a real run. */
  ghost predicate LooksAtFavorites(opts: Options, spec: NodeSpec, run: Run) {
    opts.dryRun ==> Find(run.db.nodes.rows, spec.number).Some?
  }

  lemma UpsertNodeStops(env: Env, opts: Options, purgeFavs: bool, spec: NodeSpec, run: Run)
    requires run.error == None
    ensures var r := UpsertNode(env, opts, purgeFavs, spec, run);
      && Ran(env, run, r, 0)
      && (r.error == None || StatementStops(env, r) ||
          (r.error == Some(MissingFavoriteNumber) && !Numbered(spec.favorites)))
      && (r.error == None && LooksAtFavorites(opts, spec, run) ==> Numbered(spec.favorites))
  {
    hide ApplyFavorites, SyncNodeRow, Find, FindId, Wanted, Numbered, NextPosition;
    FirstFailures(env, run.db.clock);
    if !Down(env, run.db) {
      var run1 := run.(db := Tick(run.db));
      match Find(run.db.nodes.rows, spec.number) {
        case Some(row) =>
          FoundById(run.db.nodes.rows, row);
          NodeRowStops(env, opts, spec, row, run1);
          var run2 := SyncNodeRow(env, opts, spec, row, run1);
          RanOn(env, run, run1, run2, 0, 0);
          if run2.error == None {
            FavoritesStop(env, opts, purgeFavs, row.id, spec.favorites, run2);
            RanOn(env, run, run2, UpsertNode(env, opts, purgeFavs, spec, run), 0, 0);
          }
        case None =>
          if !opts.dryRun && !Down(env, run1.db) {
            var t := Insert(run.db.nodes, spec.number, Wanted(spec));
            FoundById(t.rows, t.rows[|t.rows|-1]);
            var run2 := Run(Tick(run1.db).(nodes := t), run.report.(nodes := run.report.nodes.OneCreated()), None);
            FavoritesStop(env, opts, purgeFavs, run.db.nodes.next, spec.favorites, run2);
            RanOn(env, run, run2, UpsertNode(env, opts, purgeFavs, spec, run), 0, 0);
          }
      }
    }
  }

  lemma FoundById<K(!new), V(!new)>(rows: seq<Row<K, V>>, row: Row<K, V>)
    requires row in rows
    ensures FindId(rows, row.id).Some?
  {
  }

  lemma {:induction false} UpsertNodesStop(env: Env, opts: Options, purgeFavs: bool, specs: seq<NodeSpec>, run: Run)
    requires run.error == None
    ensures var r := UpsertNodes(env, opts, purgeFavs, specs, run);
      && Ran(env, run, r, 0)
      && (r.error == None || StatementStops(env, r) ||
          (r.error == Some(MissingFavoriteNumber) && exists s :: s in specs && !Numbered(s.favorites)))
      && (r.error == None && !opts.dryRun ==> forall s :: s in specs ==> Numbered(s.favorites))
    decreases specs
  {
    hide UpsertNode, Numbered;
    if specs != [] {
      UpsertNodeStops(env, opts, purgeFavs, specs[0], run);
      var run1 := UpsertNode(env, opts, purgeFavs, specs[0], run);
      assert forall s :: s in specs <==> s == specs[0] || s in specs[1..];
      if run1.error == None {
        UpsertNodesStop(env, opts, purgeFavs, specs[1..], run1);
        RanOn(env, run, run1, UpsertNodes(env, opts, purgeFavs, specs, run), 0, 0);
      } else {
        assert UpsertNodes(env, opts, purgeFavs, specs[1..], run1) == run1;
      }
    }
  }

  lemma PurgeNodeStops(env: Env, opts: Options, specs: seq<NodeSpec>, row: NodeRow, run: Run)
    requires run.error == None
    ensures var r := PurgeNode(env, opts, specs, row, run);
      Ran(env, run, r, 0) && (r.error == None || StatementStops(env, r))
  {
    hide Delete, NotUnder, ListsNode;
    FirstFailures(env, run.db.clock);
  }

  lemma {:induction false} PurgeNodesStop(env: Env, opts: Options, specs: seq<NodeSpec>, listing: seq<NodeRow>, run: Run)
    requires run.error == None
    ensures var r := PurgeNodes(env, opts, specs, listing, run);
      Ran(env, run, r, 0) && (r.error == None || StatementStops(env, r))
    decreases listing
  {
    hide PurgeNode;
    if listing != [] {
      PurgeNodeStops(env, opts, specs, listing[0], run);
      var run1 := PurgeNode(env, opts, specs, listing[0], run);
      if run1.error == None {
        PurgeNodesStop(env, opts, specs, listing[1..], run1);
        RanOn(env, run, run1, PurgeNodes(env, opts, specs, listing, run), 0, 0);
      } else {
        assert PurgeNodes(env, opts, specs, listing[1..], run1) == run1;
      }
    }
  }

  lemma NodePurgeStops(env: Env, opts: Options, specs: seq<NodeSpec>, run: Run)
    requires run.error == None
    ensures var r := PurgeAllNodes(env, opts, specs, run);
      Ran(env, run, r, 0) && (r.error == None || StatementStops(env, r))
  {
    hide PurgeNodes, Sort;
    FirstFailures(env, run.db.clock);
    if !Down(env, run.db) {
      PurgeNodesStop(env, opts, specs, Sort(NodeBefore, run.db.nodes.rows), run.(db := Tick(run.db)));
      RanOn(env, run, run.(db := Tick(run.db)), PurgeAllNodes(env, opts, specs, run), 0, 0);
    }
  }

  lemma {:induction false} CheckNodesTells(specs: seq<NodeSpec>)
    ensures CheckNodes(specs) == if forall n :: n in specs ==> n.number != "" then None else Some(MissingNodeNumber)
    decreases specs
  {
    if specs != [] {
      assert forall n :: n in specs <==> n == specs[0] || n in specs[1..];
      CheckNodesTells(specs[1..]);
    }
  }

  /** A node without number stops the nodes phase before any statement. */
  lemma NodesStop(env: Env, sf: StateFile, opts: Options, run: Run)
    requires run.error == None
    ensures var r := ApplyNodes(env, sf, opts, run);
      if exists n :: n in sf.nodes && n.number == "" then r == run.(error := Some(MissingNodeNumber))
      else
        && Ran(env, run, r, 0)
        && (r.error == None || StatementStops(env, r) ||
            (r.error == Some(MissingFavoriteNumber) && exists n :: n in sf.nodes && !Numbered(n.favorites)))
        && (r.error == None && !opts.dryRun ==> forall n :: n in sf.nodes ==> Numbered(n.favorites))
  {
    hide UpsertNodes, PurgeAllNodes, CheckNodes, Numbered;
    CheckNodesTells(sf.nodes);
    NodesPhaseIs(env, sf, opts, run);
    UpsertNodesStop(env, opts, sf.purge.favorites, sf.nodes, run);
    var run1 := UpsertNodes(env, opts, sf.purge.favorites, sf.nodes, run);
    if run1.error == None && sf.purge.nodes {
      NodePurgeStops(env, opts, sf.nodes, run1);
      RanOn(env, run, run1, PurgeAllNodes(env, opts, sf.nodes, run1), 0, 0);
    }
  }

  // ------------------------------------------------------------ whole runs

  predicate GoodUser(s: UserSpec) {
    s.username != "" && s.permission in {"superuser", "admin", "readwrite", "readonly", "none"}
  }

  lemma GoodMeans(s: UserSpec)
    ensures GoodUser(s) <==> s.username != "" && ValidPermission(s.permission)
  {
  }

  lemma {:induction false} CheckUsersTells(specs: seq<UserSpec>)
    ensures CheckUsers(specs) == None <==> forall s :: s in specs ==> GoodUser(s)
    ensures forall i :: 0 <= i < |specs| && !GoodUser(specs[i]) && (forall j :: 0 <= j < i ==> GoodUser(specs[j])) ==>
              CheckUsers(specs) == Some(if specs[i].username == "" then MissingUsername else InvalidPermission)
    decreases specs
  {
    hide GoodUser, ValidPermission;
    if specs != [] {
      assert forall s :: s in specs <==> s == specs[0] || s in specs[1..];
      GoodMeans(specs[0]);
      CheckUsersTells(specs[1..]);
      forall i | 0 <= i < |specs| && !GoodUser(specs[i]) && (forall j :: 0 <= j < i ==> GoodUser(specs[j]))
        ensures CheckUsers(specs) == Some(if specs[i].username == "" then MissingUsername else InvalidPermission)
      {
        if i > 0 {
          assert GoodUser(specs[0]) && specs[1..][i-1] == specs[i];
          assert forall j :: 0 <= j < i - 1 ==> specs[1..][j] == specs[j+1];
        }
      }
    }
  }

  /** The first bad user entry is told before any statement. */
  lemma BadUserRefused(env: Env, sf: StateFile, opts: Options, db: Db, i: nat)
    requires i < |sf.users| && !GoodUser(sf.users[i]) && forall j :: 0 <= j < i ==> GoodUser(sf.users[j])
    ensures ApplyRun(env, sf, opts, db) ==
            Run(db, Report(Tally(0, 0, 0), Tally(0, 0, 0), Tally(0, 0, 0)),
                Some(if sf.users[i].username == "" then MissingUsername else InvalidPermission))
  {
    hide CheckUsers, GoodUser, UpsertUsers, PurgeAllUsers, ApplyNodes;
    CheckUsersTells(sf.users);
    UsersPhaseIs(env, sf, opts, Start(db));
  }

  /** How many counts of superusers fail in a run, its purge of users being the one place where one is made. */
  function IgnoredFailures(env: Env, sf: StateFile, opts: Options, db: Db): nat {
    var run := UpsertUsers(env, opts, sf.users, Start(db));
    if run.error == None && sf.purge.users && !Down(env, run.db) then FailedPurgeCounts(env, opts, sf.users, run) else 0
  }

  lemma UsersStop(env: Env, sf: StateFile, opts: Options, db: Db)
    requires forall s :: s in sf.users ==> GoodUser(s)
    ensures var r := ApplyUsers(env, sf, opts, Start(db));
      && Ran(env, Start(db), r, IgnoredFailures(env, sf, opts, db))
      && (r.error == None || StatementStops(env, r) || exists s :: s in sf.users && HashStops(env, opts, s.password, r))
  {
    hide CheckUsers, GoodUser, UpsertUsers, PurgeUsers, Sort, HashStops, FailedCounts;
    CheckUsersTells(sf.users);
    UsersPhaseIs(env, sf, opts, Start(db));
    UpsertUsersStop(env, opts, sf.users, Start(db));
    var run1 := UpsertUsers(env, opts, sf.users, Start(db));
    if run1.error == None && sf.purge.users {
      UserPurgeIs(env, opts, sf.users, run1);
      PurgeUsersStop(env, opts, sf.users, Sort(UserBefore, run1.db.users.rows), run1.(db := Tick(run1.db)));
      Listed(env, Start(db), run1, ApplyUsers(env, sf, opts, Start(db)), IgnoredFailures(env, sf, opts, db));
    }
  }

  /**
   A file of good users: the run ends at a node or a favorite without number, at a password
   that cannot be hashed, at a statement that failed, or not before its end.
   */
  lemma WhyRunsStop(env: Env, sf: StateFile, opts: Options, db: Db)
    requires forall s :: s in sf.users ==> GoodUser(s)
    ensures var r := ApplyRun(env, sf, opts, db);
      match r.error
      case None =>
        && (forall n :: n in sf.nodes ==> n.number != "")
        && (!opts.dryRun ==> forall n :: n in sf.nodes ==> Numbered(n.favorites))
      case Some(HashFailed) => exists s :: s in sf.users && HashStops(env, opts, s.password, r)
      case Some(MissingNodeNumber) => exists n :: n in sf.nodes && n.number == ""
      case Some(MissingFavoriteNumber) => exists n :: n in sf.nodes && !Numbered(n.favorites)
      case Some(DatabaseError(_)) => StatementStops(env, r)
      case _ => false
  {
    hide ApplyUsers, ApplyNodes, Numbered, GoodUser;
    RunIs(env, sf, opts, db);
    UsersStop(env, sf, opts, db);
    var run := ApplyUsers(env, sf, opts, Start(db));
    if run.error == None { NodesStop(env, sf, opts, run); }
  }

  /** A failed statement stops the run at once, unless it counts the superusers for the purge. */
  lemma FailureStops(env: Env, sf: StateFile, opts: Options, db: Db)
    requires forall s :: s in sf.users ==> GoodUser(s)
    ensures var r := ApplyRun(env, sf, opts, db);
      && db.clock <= r.db.clock
      && Failures(env, db.clock, r.db.clock) ==
         IgnoredFailures(env, sf, opts, db) + if StatementStops(env, r) then 1 else 0
  {
    hide ApplyUsers, ApplyNodes, Numbered, GoodUser, IgnoredFailures, Failures, HashStops;
    RunIs(env, sf, opts, db);
    UsersStop(env, sf, opts, db);
    var run := ApplyUsers(env, sf, opts, Start(db));
    if run.error == None {
      NodesStop(env, sf, opts, run);
      if !exists n :: n in sf.nodes && n.number == "" {
        RanOn(env, Start(db), run, ApplyRun(env, sf, opts, db), IgnoredFailures(env, sf, opts, db), 0);
      }
    }
  }

  /** A good file whose passwords hash is applied to the end if and only if no statement failed but those counts. */
  lemma FinishesExactly(env: Env, sf: StateFile, opts: Options, db: Db)
    requires forall s :: s in sf.users ==> GoodUser(s) && |s.password| >= 8 && forall t :: env.bcrypt(s.password, t).Some?
    requires forall n :: n in sf.nodes ==> n.number != "" && Numbered(n.favorites)
    ensures var r := ApplyRun(env, sf, opts, db);
      r.error == None <==> Failures(env, db.clock, r.db.clock) == IgnoredFailures(env, sf, opts, db)
  {
    hide ApplyRun, Numbered, GoodUser, IgnoredFailures, Failures;
    WhyRunsStop(env, sf, opts, db);
    FailureStops(env, sf, opts, db);
  }
}
