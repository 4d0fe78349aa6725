/**
 `apply` is documented as idempotent.  A run reports no change exactly when the
 database is already as the file says, and after a finished run that is so exactly
 when the file does not contradict itself.
 */
module Idempotence {
  import opened Wrappers
  import opened Tables
  import opened Sorting
  import opened Sql
  import opened ApplySpec
  import opened UserLaws
  import opened UserPurgeLaws
  import opened FavLaws
  import opened NodeLaws
  import opened SettledLaws
  import opened NodePhaseLaws
  import opened NodePurgeLaws
  import opened Conservation
  import opened Convergence

  ghost predicate UserSettled(s: UserSpec, rows: seq<UserRow>) {
    Find(rows, s.username).Some? && Find(rows, s.username).value.value.permission == s.permission
  }

  ghost predicate ListedSettled(sf: StateFile, rows: seq<UserRow>) {
    forall s :: s in sf.users ==> UserSettled(s, rows)
  }

  ghost predicate UsersSettled(sf: StateFile, rows: seq<UserRow>) {
    ListedSettled(sf, rows) && (sf.purge.users ==> OnlySuperuserUnlisted(sf.users, rows))
  }

  ghost predicate NodesSettled(sf: StateFile, db: Db) {
    && AllSettled(sf.purge.favorites, sf.nodes, db)
    && (sf.purge.nodes ==> forall x :: x in db.nodes.rows ==> ListsNode(sf.nodes, x.key))
  }

  /** The database is as the file says. */
  ghost predicate Settled(sf: StateFile, db: Db) {
    UsersSettled(sf, db.users.rows) && NodesSettled(sf, db)
  }

  /** No two entries of the file contradict each other. */
  ghost predicate Agreeing(sf: StateFile) {
    && (forall s, t :: s in sf.users && t in sf.users && s.username == t.username ==> s.permission == t.permission)
    && (forall s, t :: s in sf.nodes && t in sf.nodes ==> AgreeNode(sf.purge.favorites, s, t))
  }

  /** The file passes every check the program makes before it writes. */
  ghost predicate WellFormed(sf: StateFile) {
    && CheckUsers(sf.users) == None && CheckNodes(sf.nodes) == None
    && forall s :: s in sf.nodes ==> CheckFavs(s.favorites) == None
  }

  lemma WellFormedParts(sf: StateFile)
    requires WellFormed(sf)
    ensures CheckUsers(sf.users) == None && CheckNodes(sf.nodes) == None
    ensures forall s :: s in sf.nodes ==> CheckFavs(s.favorites) == None
  {
    hide CheckUsers, CheckNodes, CheckFavs;
  }

  // ------------------------------------------------ a settled database is quiet

  lemma {:induction false} UpsertUsersQuiet(env: Env, opts: Options, specs: seq<UserSpec>, run: Run)
    requires run.error == None && !opts.resetPasswords
    requires forall s :: s in specs ==> UserSettled(s, run.db.users.rows)
    ensures var r := UpsertUsers(env, opts, specs, run);
      SameTables(run.db, r.db) && r.report == run.report && (Reliable(env) ==> r.error == None)
    decreases specs
  {
    if specs != [] {
      assert specs[0] in specs;
      assert UserSettled(specs[0], run.db.users.rows);
      var run1 := UpsertUser(env, opts, specs[0], run);
      assert SameTables(run.db, run1.db) && run1.report == run.report && (Reliable(env) ==> run1.error == None);
      if run1.error == None { UpsertUsersQuiet(env, opts, specs[1..], run1); }
    }
  }

  lemma {:induction false} PurgeUsersQuiet(env: Env, opts: Options, specs: seq<UserSpec>, listing: seq<UserRow>, run: Run)
    requires run.error == None
    requires forall x :: x in listing && !ListsUser(specs, x.key) ==> IsSuperuser(x) && Superusers(run.db.users.rows) <= 1
    ensures var r := PurgeUsers(env, opts, specs, listing, run);
      SameTables(run.db, r.db) && r.report == run.report && r.error == None
    decreases listing
  {
    if listing != [] {
      assert listing[0] in listing;
      PurgeUsersQuiet(env, opts, specs, listing[1..], PurgeUser(env, opts, specs, listing[0], run));
    }
  }

  lemma ApplyUsersQuiet(env: Env, sf: StateFile, opts: Options, run: Run)
    requires run.error == None && !opts.resetPasswords && UsersSettled(sf, run.db.users.rows)
    ensures var r := ApplyUsers(env, sf, opts, run);
      && SameTables(run.db, r.db) && r.report == run.report
      && (Reliable(env) && CheckUsers(sf.users) == None ==> r.error == None)
  {
    UpsertUsersQuiet(env, opts, sf.users, run);
    var run1 := UpsertUsers(env, opts, sf.users, run);
    hide UpsertUsers, PurgeUsers, CheckUsers, Sort, Count;
    if run1.error == None && sf.purge.users && !Down(env, run1.db) {
      PurgeUsersQuiet(env, opts, sf.users, Sort(UserBefore, run1.db.users.rows), run1.(db := Tick(run1.db)));
    }
  }

  lemma {:induction false} PurgeNodesQuiet(env: Env, opts: Options, specs: seq<NodeSpec>, listing: seq<NodeRow>, run: Run)
    requires forall x :: x in listing ==> ListsNode(specs, x.key)
    ensures PurgeNodes(env, opts, specs, listing, run) == run
    decreases listing
  {
    if listing != [] && run.error == None {
      assert listing[0] in listing;
      PurgeNodesQuiet(env, opts, specs, listing[1..], run);
    }
  }

  lemma NodesSettledTransfer(sf: StateFile, a: Db, b: Db)
    requires NodesSettled(sf, a) && a.nodes == b.nodes && a.favs == b.favs
    ensures NodesSettled(sf, b)
  {
    forall s | s in sf.nodes ensures NodeSettled(sf.purge.favorites, s, b) {
      assert NodeSettled(sf.purge.favorites, s, a);
    }
  }

  lemma ApplyNodesQuiet(env: Env, sf: StateFile, opts: Options, run: Run)
    requires run.error == None && NodesSettled(sf, run.db)
    ensures var r := ApplyNodes(env, sf, opts, run);
      && SameTables(run.db, r.db) && r.report == run.report
      && (Reliable(env) && WellFormed(sf) ==> r.error == None)
  {
    LoopQuiet(env, opts, sf.purge.favorites, sf.nodes, run);
    hide UpsertNodes, PurgeNodes, CheckNodes, CheckFavs, CheckUsers, Sort, AllSettled;
    var run1 := UpsertNodes(env, opts, sf.purge.favorites, sf.nodes, run);
    if run1.error == None && sf.purge.nodes && !Down(env, run1.db) {
      PurgeNodesQuiet(env, opts, sf.nodes, Sort(NodeBefore, run1.db.nodes.rows), run1.(db := Tick(run1.db)));
    }
  }

  /** On a settled database a run, real or dry, changes no row and reports nothing. */
  lemma SettledRunIsQuiet(env: Env, sf: StateFile, opts: Options, db: Db)
    requires !opts.resetPasswords && Settled(sf, db)
    ensures var r := ApplyRun(env, sf, opts, db);
      && SameTables(db, r.db) && r.report == NO_CHANGES
      && (Reliable(env) && WellFormed(sf) ==> r.error == None)
  {
    hide ApplyUsers, ApplyNodes, UsersSettled, NodesSettled, CheckUsers, CheckNodes, CheckFavs;
    ApplyUsersQuiet(env, sf, opts, Start(db));
    var run1 := ApplyUsers(env, sf, opts, Start(db));
    if run1.error == None {
      NodesSettledTransfer(sf, db, run1.db);
      ApplyNodesQuiet(env, sf, opts, run1);
    }
  }

  // ----------------------------------------- a quiet run found it settled

  lemma {:induction false} UpsertUsersUncounted(env: Env, opts: Options, specs: seq<UserSpec>, run: Run)
    requires Consistent(run.db) && run.error == None && !opts.dryRun
    requires var r := UpsertUsers(env, opts, specs, run);
      r.error == None && r.report.users.Total() == run.report.users.Total()
    ensures UpsertUsers(env, opts, specs, run).db.users == run.db.users
    ensures forall s :: s in specs ==> UserSettled(s, run.db.users.rows)
    decreases specs
  {
    hide UpsertUser, Consistent, UserSynced;
    if specs != [] {
      var run1 := UpsertUser(env, opts, specs[0], run);
      UpsertUserFacts(env, opts, specs[0], run);
      UpsertUsersFacts(env, opts, specs[1..], run1);
      UpsertUsersUncounted(env, opts, specs[1..], run1);
      assert UserSettled(specs[0], run.db.users.rows);
    }
  }

  lemma ApplyUsersUncounted(env: Env, sf: StateFile, opts: Options, run: Run)
    requires Consistent(run.db) && run.error == None && !opts.dryRun
    requires var r := ApplyUsers(env, sf, opts, run);
      r.error == None && r.report.users.Total() == run.report.users.Total()
    ensures ApplyUsers(env, sf, opts, run).db.users == run.db.users && ListedSettled(sf, run.db.users.rows)
    ensures UsersSettled(sf, run.db.users.rows) <==> CountsHold(env, sf, opts, run)
  {
    hide ApplyUsers, UpsertUsers, PurgeAllUsers, CheckUsers, Count, Consistent, UserSettled, CountsRight, UserApplied,
         OnlySuperuserUnlisted;
    UsersPhaseIs(env, sf, opts, run);
    var run1 := UpsertUsers(env, opts, sf.users, run);
    UpsertUsersFacts(env, opts, sf.users, run);
    if sf.purge.users { PurgeAllUsersFacts(env, opts, sf.users, run1); }
    UpsertUsersUncounted(env, opts, sf.users, run);
    if sf.purge.users { PurgeConvergesExactly(env, opts, sf.users, run1); }
  }

  lemma ApplyNodesUncounted(env: Env, sf: StateFile, opts: Options, run: Run)
    requires Sound(run.db) && run.error == None && !opts.dryRun
    requires var r := ApplyNodes(env, sf, opts, run); r.error == None && r.report.Total() == run.report.Total()
    ensures var r := ApplyNodes(env, sf, opts, run); r.db.nodes == run.db.nodes && r.db.favs == run.db.favs
    ensures NodesSettled(sf, run.db)
  {
    var run1 := UpsertNodes(env, opts, sf.purge.favorites, sf.nodes, run);
    UpsertNodesFacts(env, opts, sf.purge.favorites, sf.nodes, run);
    SoundConsistent(run1.db);
    hide UpsertNodes, PurgeAllNodes, CheckNodes, Sound, Consistent, Purged, AllSettled;
    if sf.purge.nodes {
      NodePurgeTotals(env, opts, sf.nodes, run1);
    }
    LoopUncounted(env, opts, sf.purge.favorites, sf.nodes, run);
    if sf.purge.nodes {
      forall x | x in run.db.nodes.rows ensures ListsNode(sf.nodes, x.key) {
        PurgeLeavesListed(env, opts, sf.nodes, run1, x);
      }
    }
  }

  lemma NodePurgeTotals(env: Env, opts: Options, specs: seq<NodeSpec>, run: Run)
    requires Consistent(run.db) && run.error == None && !opts.dryRun
    ensures var r := PurgeAllNodes(env, opts, specs, run);
      && run.report.Total() <= r.report.Total()
      && (r.report.Total() == run.report.Total() ==> r.db.nodes == run.db.nodes && r.db.favs == run.db.favs)
  {
    SortDistinct(NodeBefore, run.db.nodes.rows);
    hide PurgeNodes, Sort, Purged;
    if !Down(env, run.db) {
      PurgeNodesFacts(env, opts, specs, Sort(NodeBefore, run.db.nodes.rows), run.(db := Tick(run.db)));
    }
  }

  /** When a finished run reports nothing, neither phase did. */
  lemma QuietPhases(env: Env, sf: StateFile, opts: Options, db: Db)
    requires Sound(db) && !opts.dryRun
    requires ApplyRun(env, sf, opts, db).error == None && ApplyRun(env, sf, opts, db).report.Total() == 0
    ensures var run1 := ApplyUsers(env, sf, opts, Start(db)); var r := ApplyNodes(env, sf, opts, run1);
      && run1.error == None && run1.report.Total() == 0 && r.error == None && r.report.Total() == 0
      && run1.db.nodes == db.nodes && run1.db.favs == db.favs && Sound(run1.db)
  {
    hide ApplyUsers, ApplyNodes, ApplyRun, Consistent, Sound, UserBalance, Report.Total, Tally.Total;
    RunIs(env, sf, opts, db);
    SoundConsistent(db);
    var run1 := ApplyUsers(env, sf, opts, Start(db));
    UsersConserved(env, sf, opts, Start(db));
    UsersPhaseSound(env, sf, opts, db);
    NodesPhaseTotal(env, sf, opts, run1);
  }

  /**
   A finished real run that reports nothing found all listed entries settled, whichever
   statements failed; and the database settled exactly if its counts of superusers were right.
   */
  lemma QuietRunWasSettled(env: Env, sf: StateFile, opts: Options, db: Db)
    requires Sound(db) && !opts.dryRun
    requires ApplyRun(env, sf, opts, db).error == None && ApplyRun(env, sf, opts, db).report.Total() == 0
    ensures ListedSettled(sf, db.users.rows) && NodesSettled(sf, db)
    ensures Settled(sf, db) <==> CountsHold(env, sf, opts, Start(db))
  {
    hide ApplyUsers, ApplyNodes, ApplyRun, UsersSettled, NodesSettled, ListedSettled, Sound, Consistent, CountsHold;
    QuietPhases(env, sf, opts, db);
    SoundConsistent(db);
    ApplyUsersUncounted(env, sf, opts, Start(db));
    ApplyNodesUncounted(env, sf, opts, ApplyUsers(env, sf, opts, Start(db)));
    NodesSettledTransfer(sf, ApplyUsers(env, sf, opts, Start(db)).db, db);
  }

  /** A file that contradicts itself never settles: every finished real run of it reports a change. */
  lemma ContradictionAlwaysReported(env: Env, sf: StateFile, opts: Options, db: Db)
    requires Sound(db) && !opts.dryRun && ApplyRun(env, sf, opts, db).error == None && !Agreeing(sf)
    ensures ApplyRun(env, sf, opts, db).report.Total() > 0
  {
    hide ApplyRun, Settled, NodesSettled, ListedSettled, Sound, Agreeing, CountsHold;
    if ApplyRun(env, sf, opts, db).report.Total() == 0 {
      QuietRunWasSettled(env, sf, opts, db);
      SettledFileAgrees(sf, db);
    }
  }

  lemma NodesPhaseTotal(env: Env, sf: StateFile, opts: Options, run: Run)
    requires Sound(run.db) && run.error == None && !opts.dryRun
    ensures run.report.Total() <= ApplyNodes(env, sf, opts, run).report.Total()
  {
    var run1 := UpsertNodes(env, opts, sf.purge.favorites, sf.nodes, run);
    UpsertNodesFacts(env, opts, sf.purge.favorites, sf.nodes, run);
    SoundConsistent(run1.db);
    hide UpsertNodes, PurgeAllNodes, CheckNodes, Sound, Consistent;
    if run1.error == None && sf.purge.nodes { NodePurgeTotals(env, opts, sf.nodes, run1); }
  }

  // ------------------------------------------------- after a finished run

  /**
   A finished run settles the entries of a file that does not contradict itself and leaves no plain
   user unlisted; and it settles the file exactly if its counts were right.
   */
  lemma AgreeingFileSettles(env: Env, sf: StateFile, opts: Options, db: Db)
    requires Sound(db) && !opts.dryRun && Agreeing(sf)
    requires ApplyRun(env, sf, opts, db).error == None
    ensures var db1 := ApplyRun(env, sf, opts, db).db;
      && ListedSettled(sf, db1.users.rows) && NodesSettled(sf, db1)
      && (sf.purge.users ==> Count(UnlistedPlain(sf.users), db1.users.rows) == 0)
      && (Settled(sf, db1) <==> CountsHold(env, sf, opts, Start(db)))
  {
    hide ApplyUsers, UpsertNodes, PurgeAllNodes, NodesSettled, UsersSettled, ListedSettled, Sound, Consistent, Agreeing,
         ApplyRun, CheckUsers, CheckNodes, CountsHold, Count;
    var users, mid := FinishedRun(env, sf, opts, db);
    SoundConsistent(db);
    UsersConserved(env, sf, opts, Start(db));
    UsersPhaseSound(env, sf, opts, db);
    UsersPhaseIsFinal(env, sf, opts, db);
    AgreeingUsersSettled(env, sf, opts, db);
    AgreeingNodesSettled(env, sf, opts, users);
  }

  lemma AgreeingNodesSettled(env: Env, sf: StateFile, opts: Options, run: Run)
    requires Sound(run.db) && run.error == None && !opts.dryRun && Agreeing(sf)
    requires UpsertNodes(env, opts, sf.purge.favorites, sf.nodes, run).error == None
    requires sf.purge.nodes ==>
      PurgeAllNodes(env, opts, sf.nodes, UpsertNodes(env, opts, sf.purge.favorites, sf.nodes, run)).error == None
    ensures var mid := UpsertNodes(env, opts, sf.purge.favorites, sf.nodes, run);
      NodesSettled(sf, if sf.purge.nodes then PurgeAllNodes(env, opts, sf.nodes, mid).db else mid.db)
  {
    hide UpsertNodes, PurgeAllNodes, NodeSettled, Sound, Consistent, AgreeNode;
    var mid := UpsertNodes(env, opts, sf.purge.favorites, sf.nodes, run);
    var db1 := if sf.purge.nodes then PurgeAllNodes(env, opts, sf.nodes, mid).db else mid.db;
    UpsertNodesFacts(env, opts, sf.purge.favorites, sf.nodes, run);
    SoundConsistent(mid.db);
    forall s | s in sf.nodes ensures NodeSettled(sf.purge.favorites, s, db1) {
      var i :| 0 <= i < |sf.nodes| && sf.nodes[i] == s;
      LoopSettles(env, opts, sf.purge.favorites, sf.nodes, run, i);
      if sf.purge.nodes { PurgeKeepsSettled(env, opts, sf.purge.favorites, sf.nodes, mid, s); }
    }
    if sf.purge.nodes {
      forall x | x in db1.nodes.rows ensures ListsNode(sf.nodes, x.key) {
        PurgeLeavesListed(env, opts, sf.nodes, mid, x);
      }
    }
  }

  lemma PurgedUsers(env: Env, opts: Options, specs: seq<NodeSpec>, run: Run)
    requires Consistent(run.db) && run.error == None && !opts.dryRun
    ensures PurgeAllNodes(env, opts, specs, run).db.users == run.db.users
  {
    hide PurgeAllNodes;
    NodePurgeConserved(env, opts, specs, run);
  }

  lemma AgreeingUsersSettled(env: Env, sf: StateFile, opts: Options, db: Db)
    requires Consistent(db) && !opts.dryRun && Agreeing(sf)
    requires ApplyUsers(env, sf, opts, Start(db)).error == None
    ensures var rows := ApplyUsers(env, sf, opts, Start(db)).db.users.rows;
      && ListedSettled(sf, rows) && (sf.purge.users ==> Count(UnlistedPlain(sf.users), rows) == 0)
      && (UsersSettled(sf, rows) <==> CountsHold(env, sf, opts, Start(db)))
  {
    hide ApplyUsers, UpsertUsers, PurgeAllUsers, Count, Consistent, AgreeNode, CheckUsers, CountsRight,
         OnlySuperuserUnlisted;
    var rows := ApplyUsers(env, sf, opts, Start(db)).db.users.rows;
    forall s | s in sf.users ensures UserSettled(s, rows) {
      UsersConverge(env, sf, opts, Start(db), s.username);
    }
    if sf.purge.users {
      var run1 := UpsertUsers(env, opts, sf.users, Start(db));
      UsersPhaseIs(env, sf, opts, Start(db));
      UpsertUsersFacts(env, opts, sf.users, Start(db));
      PurgeConvergesExactly(env, opts, sf.users, run1);
      CountPositive(UnlistedPlain(sf.users), rows);
      forall x | x in rows && !ListsUser(sf.users, x.key) ensures IsSuperuser(x) {
        PurgeAllUsersSpares(env, opts, sf.users, run1, x);
      }
    }
  }

  /** Entries that are all settled at once do not contradict each other. */
  lemma SettledFileAgrees(sf: StateFile, db: Db)
    requires ListedSettled(sf, db.users.rows) && NodesSettled(sf, db)
    ensures Agreeing(sf)
  {
    forall s, t | s in sf.users && t in sf.users && s.username == t.username ensures s.permission == t.permission {
      assert UserSettled(s, db.users.rows) && UserSettled(t, db.users.rows);
    }
    forall s, t | s in sf.nodes && t in sf.nodes && s.number == t.number ensures AgreeNode(sf.purge.favorites, s, t) {
      assert NodeSettled(sf.purge.favorites, s, db) && NodeSettled(sf.purge.favorites, t, db);
      SettledNodesAgree(sf.purge.favorites, s, t, db);
    }
  }

  lemma SettledNodesAgree(purge: bool, s: NodeSpec, t: NodeSpec, db: Db)
    requires NodeSettled(purge, s, db) && NodeSettled(purge, t, db) && s.number == t.number
    ensures AgreeNode(purge, s, t)
  {
    var id, rows := Find(db.nodes.rows, s.number).value.id, db.favs.rows;
    forall f, g | f in s.favorites && g in t.favorites ensures AgreeFav(f, g) {
      assert FavSettled(f, id, rows) && FavSettled(g, id, rows);
    }
    if purge {
      forall n ensures ListsFav(s.favorites, n) <==> ListsFav(t.favorites, n) {
        if ListsFav(s.favorites, n) { var f :| f in s.favorites && f.number == n; assert FavSettled(f, id, rows); }
        if ListsFav(t.favorites, n) { var g :| g in t.favorites && g.number == n; assert FavSettled(g, id, rows); }
      }
    }
  }

  /** A second run without a password reset finishes: it has nobody left to create. */
  lemma {:induction false} SecondUsersFinish(env: Env, opts: Options, specs: seq<UserSpec>, run: Run)
    requires Consistent(run.db) && run.error == None && Reliable(env) && !opts.resetPasswords
    requires forall s :: s in specs ==> Find(run.db.users.rows, s.username).Some?
    ensures UpsertUsers(env, opts, specs, run).error == None
    decreases specs
  {
    if specs != [] {
      assert specs[0] in specs;
      var run1 := UpsertUser(env, opts, specs[0], run);
      UpsertUserFacts(env, opts, specs[0], run);
      assert run1.error == None;
      hide UpsertUser, Consistent;
      assert opts.dryRun ==> run1.db.users == run.db.users;
      SecondUsersFinish(env, opts, specs[1..], run1);
    }
  }

  /** A real pass that finishes checked its favorites. */
  lemma {:induction false} FinishedLoopChecked(env: Env, opts: Options, purge: bool, specs: seq<NodeSpec>, run: Run)
    requires run.error == None && !opts.dryRun && UpsertNodes(env, opts, purge, specs, run).error == None
    ensures forall s :: s in specs ==> CheckFavs(s.favorites) == None
    decreases specs
  {
    if specs != [] {
      var run1 := UpsertNode(env, opts, purge, specs[0], run);
      UpsertNodeSplit(env, opts, purge, specs[0], run);
      hide UpsertNode, RowRun, UpsertFavs, PurgeAllFavs;
      if run1.error == None { FinishedLoopChecked(env, opts, purge, specs[1..], run1); }
    }
  }

  lemma SecondUsersPhase(env: Env, sf: StateFile, opts: Options, run: Run)
    requires Consistent(run.db) && run.error == None && Reliable(env) && !opts.resetPasswords && !opts.dryRun
    requires CheckUsers(sf.users) == None && forall s :: s in sf.users ==> Find(run.db.users.rows, s.username).Some?
    ensures ApplyUsers(env, sf, opts, run).error == None
  {
    hide ApplyUsers, UpsertUsers, PurgeAllUsers, CheckUsers, Consistent, UserApplied;
    UsersPhaseIs(env, sf, opts, run);
    SecondUsersFinish(env, opts, sf.users, run);
    UpsertUsersFacts(env, opts, sf.users, run);
    if sf.purge.users { PurgeFinishes(env, opts, sf.users, UpsertUsers(env, opts, sf.users, run)); }
  }

  lemma ReliableNodesPhase(env: Env, sf: StateFile, opts: Options, run: Run)
    requires Sound(run.db) && run.error == None && Reliable(env) && !opts.dryRun && WellFormed(sf)
    ensures ApplyNodes(env, sf, opts, run).error == None
  {
    UpsertNodesFacts(env, opts, sf.purge.favorites, sf.nodes, run);
    var run1 := UpsertNodes(env, opts, sf.purge.favorites, sf.nodes, run);
    SortDistinct(NodeBefore, run1.db.nodes.rows);
    hide UpsertNodes, PurgeNodes, Sort, CheckFavs, Purged;
    if sf.purge.nodes {
      PurgeNodesFacts(env, opts, sf.nodes, Sort(NodeBefore, run1.db.nodes.rows), run1.(db := Tick(run1.db)));
    }
  }

  /** The second run finishes too. */
  lemma SecondRunFinishes(env1: Env, env2: Env, sf: StateFile, opts1: Options, opts2: Options, db: Db)
    requires Sound(db) && !opts1.dryRun && !opts2.dryRun && !opts2.resetPasswords && Reliable(env2)
    requires ApplyRun(env1, sf, opts1, db).error == None
    ensures ApplyRun(env2, sf, opts2, ApplyRun(env1, sf, opts1, db).db).error == None
  {
    hide ApplyUsers, UpsertNodes, PurgeAllNodes, Sound, Consistent, CheckUsers, CheckNodes, CheckFavs, UserApplied;
    var users, mid := FinishedRun(env1, sf, opts1, db);
    SoundConsistent(db);
    UsersConserved(env1, sf, opts1, Start(db));
    UsersPhaseSound(env1, sf, opts1, db);
    UpsertNodesFacts(env1, opts1, sf.purge.favorites, sf.nodes, users);
    SoundConsistent(mid.db);
    FinishedLoopChecked(env1, opts1, sf.purge.favorites, sf.nodes, users);
    if sf.purge.nodes { PurgedUsers(env1, opts1, sf.nodes, mid); }
    RunSound(env1, sf, opts1, db);
    var db1 := ApplyRun(env1, sf, opts1, db).db;
    SoundConsistent(db1);
    forall s | s in sf.users ensures Find(db1.users.rows, s.username).Some? {
      UsersConverge(env1, sf, opts1, Start(db), s.username);
      UserAppliedExists(env1, opts1, sf.users, s.username, Find(db.users.rows, s.username), Find(db1.users.rows, s.username));
    }
    SecondUsersPhase(env2, sf, opts2, Start(db1));
    UsersPhaseSound(env2, sf, opts2, db1);
    ReliableNodesPhase(env2, sf, opts2, ApplyUsers(env2, sf, opts2, Start(db1)));
  }

  /** The purge of a users phase keeps every unlisted superuser: a condition on which of its statements failed. */
  predicate CountsSpare(env: Env, sf: StateFile, opts: Options, run: Run) {
    sf.purge.users ==> KeepsSupers(env, opts, sf.users, UpsertUsers(env, opts, sf.users, run))
  }

  /** With no entry to write and no plain user to delete, a users phase is quiet exactly if it keeps the superusers. */
  lemma UsersQuietExactly(env: Env, sf: StateFile, opts: Options, run: Run)
    requires Consistent(run.db) && run.error == None && !opts.dryRun && !opts.resetPasswords
    requires ApplyUsers(env, sf, opts, run).error == None && ListedSettled(sf, run.db.users.rows)
    requires sf.purge.users ==> Count(UnlistedPlain(sf.users), run.db.users.rows) == 0
    ensures var r := ApplyUsers(env, sf, opts, run);
      && (r.report == run.report <==> CountsSpare(env, sf, opts, run))
      && (r.report.Total() == run.report.Total() <==> r.report == run.report)
      && (r.report == run.report ==> SameTables(run.db, r.db))
  {
    hide ApplyUsers, UpsertUsers, PurgeAllUsers, Count, CheckUsers, Consistent, KeepsSupers;
    UsersPhaseIs(env, sf, opts, run);
    UpsertUsersQuiet(env, opts, sf.users, run);
    if sf.purge.users {
      var run1 := UpsertUsers(env, opts, sf.users, run);
      ConsistentTables(run.db, run1.db);
      PurgeQuietExactly(env, opts, sf.users, run1);
      PurgeAllUsersFacts(env, opts, sf.users, run1);
    }
  }

  lemma ConsistentTables(a: Db, b: Db)
    requires Consistent(a) && SameTables(a, b)
    ensures Consistent(b)
  {
  }

  /** A run on a database whose listed entries are settled and that has no plain user to delete. */
  lemma SettledEntriesQuiet(env: Env, sf: StateFile, opts: Options, db: Db)
    requires Sound(db) && !opts.dryRun && !opts.resetPasswords
    requires ListedSettled(sf, db.users.rows) && NodesSettled(sf, db)
    requires sf.purge.users ==> Count(UnlistedPlain(sf.users), db.users.rows) == 0
    requires ApplyRun(env, sf, opts, db).error == None
    ensures var r := ApplyRun(env, sf, opts, db);
      && (r.report.Total() == 0 <==> CountsSpare(env, sf, opts, Start(db)))
      && (r.report.Total() == 0 ==> SameTables(db, r.db))
  {
    hide ApplyRun, ApplyUsers, ApplyNodes, Count, CountsSpare, Sound, Consistent, ListedSettled, NodesSettled,
         Report.Total;
    RunIs(env, sf, opts, db);
    SoundConsistent(db);
    var run1 := ApplyUsers(env, sf, opts, Start(db));
    UsersQuietExactly(env, sf, opts, Start(db));
    NothingCounted();
    if run1.report == Start(db).report {
      NodesSettledTransfer(sf, db, run1.db);
      ApplyNodesQuiet(env, sf, opts, run1);
    } else {
      if ApplyRun(env, sf, opts, db).report.Total() == 0 { QuietPhases(env, sf, opts, db); }
    }
  }

  lemma NothingCounted()
    ensures NO_CHANGES.Total() == 0
  {
  }

  /**
   Idempotence.  Both runs finished (the second does when nothing fails, see above), real,
   the second without a password reset.  The second reports a total of zero if and only if no
   two entries of the file contradict each other and its own purge keeps the superusers that
   the first one left; and then it changes no row.  It does so if the first run's counts of
   superusers were right, and, if its own were right, only then.
   */
  lemma SecondRunIsQuiet(env1: Env, env2: Env, sf: StateFile, opts1: Options, opts2: Options, db: Db)
    requires Sound(db) && !opts1.dryRun && !opts2.dryRun && !opts2.resetPasswords
    requires ApplyRun(env1, sf, opts1, db).error == None
    requires ApplyRun(env2, sf, opts2, ApplyRun(env1, sf, opts1, db).db).error == None
    ensures var db1 := ApplyRun(env1, sf, opts1, db).db; var second := ApplyRun(env2, sf, opts2, db1);
      && (second.report.Total() == 0 <==> Agreeing(sf) && CountsSpare(env2, sf, opts2, Start(db1)))
      && (second.report.Total() == 0 ==> SameTables(db1, second.db))
      && (Agreeing(sf) && CountsHold(env1, sf, opts1, Start(db)) ==> second.report.Total() == 0)
      && (second.report.Total() == 0 && CountsHold(env2, sf, opts2, Start(db1)) ==>
            CountsHold(env1, sf, opts1, Start(db)))
  {
    hide ApplyRun, Settled, Agreeing, Sound, ListedSettled, NodesSettled, CountsHold, CountsSpare, Count;
    var db1 := ApplyRun(env1, sf, opts1, db).db;
    var second := ApplyRun(env2, sf, opts2, db1);
    RunSound(env1, sf, opts1, db);
    if Agreeing(sf) {
      AgreeingFileSettles(env1, sf, opts1, db);
      SettledEntriesQuiet(env2, sf, opts2, db1);
      if CountsHold(env1, sf, opts1, Start(db)) { SettledRunIsQuiet(env2, sf, opts2, db1); NothingCounted(); }
    } else {
      ContradictionAlwaysReported(env2, sf, opts2, db1);
    }
    if second.report.Total() == 0 { QuietRunWasSettled(env2, sf, opts2, db1); }
  }

  /** When nothing fails, the second run finishes, and it is quiet if and only if the file does not contradict itself. */
  lemma IdempotentWhenNothingFails(env1: Env, env2: Env, sf: StateFile, opts1: Options, opts2: Options, db: Db)
    requires Sound(db) && !opts1.dryRun && !opts2.dryRun && !opts2.resetPasswords
    requires Reliable(env1) && Reliable(env2) && ApplyRun(env1, sf, opts1, db).error == None
    ensures var db1 := ApplyRun(env1, sf, opts1, db).db; var second := ApplyRun(env2, sf, opts2, db1);
      && second.error == None
      && (second.report.Total() == 0 <==> Agreeing(sf))
      && (Agreeing(sf) ==> SameTables(db1, second.db))
  {
    hide ApplyRun, Agreeing, Sound, CountsHold, Reliable;
    SecondRunFinishes(env1, env2, sf, opts1, opts2, db);
    ReliableCountsHold(env1, sf, opts1, Start(db));
    SecondRunIsQuiet(env1, env2, sf, opts1, opts2, db);
  }

  /** Apply keeps node and favorite numbers unique. */
  lemma RunSound(env: Env, sf: StateFile, opts: Options, db: Db)
    requires Sound(db) && !opts.dryRun
    ensures Sound(ApplyRun(env, sf, opts, db).db)
  {
    UsersPhaseSound(env, sf, opts, db);
    hide ApplyUsers, UpsertNodes, PurgeAllNodes, Sound, CheckNodes;
    var users := ApplyUsers(env, sf, opts, Start(db));
    if users.error == None {
      UpsertNodesFacts(env, opts, sf.purge.favorites, sf.nodes, users);
      var mid := UpsertNodes(env, opts, sf.purge.favorites, sf.nodes, users);
      if mid.error == None && sf.purge.nodes { PurgeAllNodesSound(env, opts, sf.nodes, mid); }
    }
  }
}
