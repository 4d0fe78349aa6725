/** What the database holds after a run of `yaamon apply`. */
module Convergence {
  import opened Wrappers
  import opened Tables
  import opened Sorting
  import opened Sql
  import opened ApplySpec
  import opened UserLaws
  import opened UserPurgeLaws
  import opened FavLaws
  import opened SettledLaws
  import opened NodePhaseLaws
  import opened NodePurgeLaws
  import opened Conservation

  // ----------------------------------------------------------------- users

  /** The purge as the loop over the listing, with the facts it needs. */
  lemma PurgeAllUsersFacts(env: Env, opts: Options, specs: seq<UserSpec>, run: Run)
    requires Consistent(run.db) && run.error == None && !opts.dryRun
    ensures var r := PurgeAllUsers(env, opts, specs, run);
      && Consistent(r.db) && OnlyUsers(run, r)
      && run.report.users.deleted <= r.report.users.deleted
      && r.report.users == run.report.users.(deleted := r.report.users.deleted)
      && (r.report.users.deleted == run.report.users.deleted ==> r.db.users == run.db.users)
      && (forall n :: ListsUser(specs, n) ==> Find(r.db.users.rows, n) == Find(run.db.users.rows, n))
      && (forall x :: x in r.db.users.rows ==> x in run.db.users.rows)
      && (Superusers(run.db.users.rows) >= 1 ==> Superusers(r.db.users.rows) >= 1)
  {
    hide PurgeUsers, Sort, Count;
    var rows := run.db.users.rows;
    SortDistinct(UserBefore, rows);
    if !Down(env, run.db) {
      var run1 := run.(db := Tick(run.db));
      PurgeUsersFacts(env, opts, specs, Sort(UserBefore, rows), run1);
      var after := PurgeUsers(env, opts, specs, Sort(UserBefore, rows), run1).db.users.rows;
      forall n | ListsUser(specs, n) && Find(rows, n).Some? ensures Find(after, n) == Find(rows, n) {
        FindRow(after, Find(rows, n).value);
      }
    }
  }

  /** How many counts of superusers fail in the purge. */
  function FailedPurgeCounts(env: Env, opts: Options, specs: seq<UserSpec>, run: Run): nat {
    FailedCounts(env, opts, specs, Sort(UserBefore, run.db.users.rows), run.(db := Tick(run.db)))
  }

  /** A finished real purge in numbers, whichever counts failed. */
  lemma RealPurgeReport(env: Env, opts: Options, specs: seq<UserSpec>, run: Run)
    requires Consistent(run.db) && run.error == None && !opts.dryRun
    requires PurgeAllUsers(env, opts, specs, run).error == None
    ensures var r := PurgeAllUsers(env, opts, specs, run); var rows := run.db.users.rows;
      && r.report.users == run.report.users.(deleted := r.report.users.deleted)
      && PurgeCounted(run, r, specs, Count(UnlistedPlain(specs), rows), Count(UnlistedSuper(specs), rows),
                      FailedPurgeCounts(env, opts, specs, run))
      && (Reliable(env) ==> FailedPurgeCounts(env, opts, specs, run) == 0)
  {
    hide PurgeAllUsers, PurgeUsers, Sort, Count, FailedCounts, DistinctIds, UniqueKeys, Reliable;
    var rows, run1 := run.db.users.rows, run.(db := Tick(run.db));
    UserPurgeIs(env, opts, specs, run);
    SortDistinct(UserBefore, rows);
    PurgeUsersFacts(env, opts, specs, Sort(UserBefore, rows), run1);
    CountSort(UnlistedPlain(specs), UserBefore, rows);
    CountSort(UnlistedSuper(specs), UserBefore, rows);
    CountSplit(IsSuperuser, UnlistedSuper(specs), ListedSuper(specs), rows);
    RealPurgeCount(env, opts, specs, Sort(UserBefore, rows), run1);
    if Reliable(env) { ReliableCounts(env, opts, specs, Sort(UserBefore, rows), run1); }
  }

  lemma PurgeFinishes(env: Env, opts: Options, specs: seq<UserSpec>, run: Run)
    requires Consistent(run.db) && run.error == None && !opts.dryRun && Reliable(env)
    ensures PurgeAllUsers(env, opts, specs, run).error == None
  {
    hide PurgeAllUsers, PurgeUsers, Sort, DistinctIds, UniqueKeys;
    UserPurgeIs(env, opts, specs, run);
    SortDistinct(UserBefore, run.db.users.rows);
    LoopFinishes(env, opts, specs, Sort(UserBefore, run.db.users.rows), run.(db := Tick(run.db)));
  }

  lemma {:induction false} LoopFinishes(env: Env, opts: Options, specs: seq<UserSpec>, listing: seq<UserRow>, run: Run)
    requires Consistent(run.db) && run.error == None && !opts.dryRun && Reliable(env)
    requires DistinctIds(listing) && forall x :: x in listing ==> x in run.db.users.rows
    ensures PurgeUsers(env, opts, specs, listing, run).error == None
    decreases listing
  {
    hide PurgeUser, DistinctIds, UniqueKeys, FindId, NoOrphans, Reliable;
    if listing != [] {
      PurgeUserFacts(env, opts, specs, listing[0], run);
      DeleteFacts(run.db.users, listing[0]);
      TailRows(listing);
      LoopFinishes(env, opts, specs, listing[1..], PurgeUser(env, opts, specs, listing[0], run));
    }
  }

  /** Any unlisted user a finished purge leaves is a superuser, whichever statements failed. */
  lemma PurgeAllUsersSpares(env: Env, opts: Options, specs: seq<UserSpec>, run: Run, x: UserRow)
    requires Consistent(run.db) && run.error == None && !opts.dryRun
    requires PurgeAllUsers(env, opts, specs, run).error == None
    requires x in PurgeAllUsers(env, opts, specs, run).db.users.rows && !ListsUser(specs, x.key)
    ensures IsSuperuser(x)
  {
    hide PurgeAllUsers, PurgeUsers, Sort, Count, DistinctIds, UniqueKeys;
    PurgeAllUsersFacts(env, opts, specs, run);
    UserPurgeIs(env, opts, specs, run);
    SortDistinct(UserBefore, run.db.users.rows);
    PurgeUsersSpares(env, opts, specs, Sort(UserBefore, run.db.users.rows), run.(db := Tick(run.db)), x);
  }

  /** No count of superusers failed in the purge, or one, and no superuser was listed. */
  predicate CountsRight(env: Env, opts: Options, specs: seq<UserSpec>, run: Run) {
    var f := FailedPurgeCounts(env, opts, specs, run);
    f == 0 || (f == 1 && Count(ListedSuper(specs), run.db.users.rows) == 0)
  }

  /** Every unlisted user is the only superuser: so there is at most one of them. */
  ghost predicate OnlySuperuserUnlisted(specs: seq<UserSpec>, rows: seq<UserRow>) {
    forall x :: x in rows && !ListsUser(specs, x.key) ==> IsSuperuser(x) && Superusers(rows) <= 1
  }

  /** A finished purge leaves none but the only superuser unlisted, exactly when its counts were right. */
  lemma PurgeConvergesExactly(env: Env, opts: Options, specs: seq<UserSpec>, run: Run)
    requires Consistent(run.db) && run.error == None && !opts.dryRun
    requires PurgeAllUsers(env, opts, specs, run).error == None
    ensures OnlySuperuserUnlisted(specs, PurgeAllUsers(env, opts, specs, run).db.users.rows) <==>
            CountsRight(env, opts, specs, run)
  {
    hide PurgeAllUsers, Sort, Count, FailedPurgeCounts, DistinctIds, UniqueKeys, NoOrphans, Valid, Consistent, ListsUser;
    var rows := PurgeAllUsers(env, opts, specs, run).db.users.rows;
    RealPurgeReport(env, opts, specs, run);
    CountSplit(IsSuperuser, UnlistedSuper(specs), ListedSuper(specs), run.db.users.rows);
    CountSplit(IsSuperuser, UnlistedSuper(specs), ListedSuper(specs), rows);
    CountPositive(UnlistedSuper(specs), rows);
    forall x | x in rows && !ListsUser(specs, x.key) ensures UnlistedSuper(specs)(x) {
      PurgeAllUsersSpares(env, opts, specs, run, x);
    }
  }

  /** The purge keeps every unlisted superuser: each of its counts fails, or there is no other superuser. */
  predicate KeepsSupers(env: Env, opts: Options, specs: seq<UserSpec>, run: Run) {
    var rows := run.db.users.rows;
    FailedPurgeCounts(env, opts, specs, run) == Count(UnlistedSuper(specs), rows) || Superusers(rows) == 1
  }

  /** A finished purge deletes nobody exactly when no plain user is unlisted and it keeps the superusers. */
  lemma PurgeQuietExactly(env: Env, opts: Options, specs: seq<UserSpec>, run: Run)
    requires Consistent(run.db) && run.error == None && !opts.dryRun
    requires PurgeAllUsers(env, opts, specs, run).error == None
    ensures PurgeAllUsers(env, opts, specs, run).report.users.deleted == run.report.users.deleted <==>
            Count(UnlistedPlain(specs), run.db.users.rows) == 0 && KeepsSupers(env, opts, specs, run)
  {
    hide PurgeAllUsers, Count, FailedPurgeCounts, Consistent;
    RealPurgeReport(env, opts, specs, run);
  }

  ghost predicate HasSuperuser(rows: seq<UserRow>) {
    exists x :: x in rows && x.value.permission == "superuser"
  }

  lemma SuperusersCounted(rows: seq<UserRow>)
    ensures Superusers(rows) >= 1 <==> HasSuperuser(rows)
  {
    hide Count;
    CountPositive(IsSuperuser, rows);
    if x :| x in rows && x.value.permission == "superuser" { assert IsSuperuser(x); }
    if x :| x in rows && IsSuperuser(x) { assert x.value.permission == "superuser"; }
  }

  /** The purge never takes the last superuser, whichever statements fail. */
  lemma LastSuperuserKept(env: Env, sf: StateFile, opts: Options, run: Run)
    requires Consistent(run.db) && run.error == None && !opts.dryRun
    ensures HasSuperuser(UpsertUsers(env, opts, sf.users, run).db.users.rows) && CheckUsers(sf.users) == None ==>
            HasSuperuser(ApplyUsers(env, sf, opts, run).db.users.rows)
  {
    hide UpsertUsers, PurgeAllUsers, Count, CheckUsers, HasSuperuser;
    SuperusersCounted(UpsertUsers(env, opts, sf.users, run).db.users.rows);
    SuperusersCounted(ApplyUsers(env, sf, opts, run).db.users.rows);
    UpsertUsersFacts(env, opts, sf.users, run);
    var run1 := UpsertUsers(env, opts, sf.users, run);
    if run1.error == None && sf.purge.users { PurgeAllUsersFacts(env, opts, sf.users, run1); }
  }

  /** The counts of a users phase were right: a condition on which of its statements failed. */
  predicate CountsHold(env: Env, sf: StateFile, opts: Options, run: Run) {
    sf.purge.users ==> CountsRight(env, opts, sf.users, UpsertUsers(env, opts, sf.users, run))
  }

  lemma ReliableCountsHold(env: Env, sf: StateFile, opts: Options, run: Run)
    requires Reliable(env)
    ensures CountsHold(env, sf, opts, run)
  {
    hide UpsertUsers, Sort, Count, FailedCounts;
    var run1 := UpsertUsers(env, opts, sf.users, run);
    ReliableCounts(env, opts, sf.users, Sort(UserBefore, run1.db.users.rows), run1.(db := Tick(run1.db)));
  }

  /**
   The users after a finished users phase, whichever statements failed: each listed user
   as its entries say, each other user untouched, or with the purge on gone unless it is a
   superuser - the only one, if the counts were right.
   */
  lemma UsersConverge(env: Env, sf: StateFile, opts: Options, run: Run, name: string)
    requires Consistent(run.db) && run.error == None && !opts.dryRun
    requires ApplyUsers(env, sf, opts, run).error == None
    ensures var before := Find(run.db.users.rows, name);
      var rows := ApplyUsers(env, sf, opts, run).db.users.rows; var after := Find(rows, name);
      if ListsUser(sf.users, name) then UserApplied(env, opts, sf.users, name, before, after)
      else if !sf.purge.users then after == before
      else
        after.Some? ==>
          && after == before && after.value.value.permission == "superuser"
          && (CountsHold(env, sf, opts, run) ==>
                forall y :: y in rows && y.value.permission == "superuser" ==> y == after.value)
  {
    hide UpsertUsers, PurgeAllUsers, ApplyUsers, Count, CheckUsers, UserApplied, CountsRight, UniqueKeys, NoOrphans;
    UsersPhaseIs(env, sf, opts, run);
    UpsertUsersFacts(env, opts, sf.users, run);
    var run1 := UpsertUsers(env, opts, sf.users, run);
    if ListsUser(sf.users, name) { UpsertUsersApplied(env, opts, sf.users, run, name); }
    if sf.purge.users {
      PurgeAllUsersFacts(env, opts, sf.users, run1);
      var r := PurgeAllUsers(env, opts, sf.users, run1);
      var after := Find(r.db.users.rows, name);
      if !ListsUser(sf.users, name) && after.Some? {
        ConsistentFind(run1.db, after.value);
        PurgeAllUsersSpares(env, opts, sf.users, run1, after.value);
        PurgeConvergesExactly(env, opts, sf.users, run1);
        if CountsHold(env, sf, opts, run) {
          forall y | y in r.db.users.rows && y.value.permission == "superuser" ensures y == after.value {
            LoneSuperuser(r.db.users, y, after.value);
          }
        }
      }
    }
  }

  lemma ConsistentFind(db: Db, x: UserRow)
    requires Consistent(db) && x in db.users.rows
    ensures Find(db.users.rows, x.key) == Some(x)
  {
    FindRow(db.users.rows, x);
  }

  // -------------------------------------------------- the last superuser

  /** The file makes someone a superuser: the last entry of some name does. */
  predicate MakesSuperuser(specs: seq<UserSpec>) {
    exists s :: s in specs && LastUser(specs, s.username).value.permission == "superuser"
  }

  lemma {:induction false} LastOfListed(specs: seq<UserSpec>, s: UserSpec)
    requires s in specs
    ensures LastUser(specs, s.username).Some? && ListsUser(specs, s.username)
  {
  }

  /** After the upserts there is a listed superuser exactly when the file makes one. */
  lemma ListedSuperusers(env: Env, opts: Options, specs: seq<UserSpec>, run: Run)
    requires Consistent(run.db) && run.error == None && !opts.dryRun
    requires UpsertUsers(env, opts, specs, run).error == None
    ensures Count(ListedSuper(specs), UpsertUsers(env, opts, specs, run).db.users.rows) > 0 <==> MakesSuperuser(specs)
  {
    hide UpsertUsers, Count, Consistent;
    var rows := UpsertUsers(env, opts, specs, run).db.users.rows;
    UpsertUsersFacts(env, opts, specs, run);
    CountPositive(ListedSuper(specs), rows);
    if MakesSuperuser(specs) {
      var s :| s in specs && LastUser(specs, s.username).value.permission == "superuser";
      LastOfListed(specs, s);
      UpsertUsersApplied(env, opts, specs, run, s.username);
      assert ListedSuper(specs)(Find(rows, s.username).value);
    }
    if x :| x in rows && ListedSuper(specs)(x) {
      ConsistentFind(UpsertUsers(env, opts, specs, run).db, x);
      UpsertUsersApplied(env, opts, specs, run, x.key);
      assert LastUser(specs, x.key).value in specs;
    }
  }

  /** Counting rows of unlisted names before or after the upserts comes to the same. */
  lemma UnlistedSupersStay(env: Env, opts: Options, specs: seq<UserSpec>, run: Run)
    requires Consistent(run.db) && run.error == None && !opts.dryRun
    ensures var rows1 := UpsertUsers(env, opts, specs, run).db.users.rows;
      Count(UnlistedSuper(specs), rows1) > 0 <==> Count(UnlistedSuper(specs), run.db.users.rows) > 0
  {
    hide UpsertUsers, Count, Consistent, ListsUser;
    var r := UpsertUsers(env, opts, specs, run);
    UpsertUsersFacts(env, opts, specs, run);
    CountPositive(UnlistedSuper(specs), run.db.users.rows);
    CountPositive(UnlistedSuper(specs), r.db.users.rows);
    if x :| x in run.db.users.rows && UnlistedSuper(specs)(x) { ConsistentFind(run.db, x); }
    if x :| x in r.db.users.rows && UnlistedSuper(specs)(x) { ConsistentFind(r.db, x); }
  }

  lemma UnlistedCounted(specs: seq<UserSpec>, rows: seq<UserRow>)
    ensures Count(UnlistedSuper(specs), rows) >= 1 <==> exists x ::
              x in rows && x.value.permission == "superuser" && forall s :: s in specs ==> s.username != x.key
  {
    hide Count;
    CountPositive(UnlistedSuper(specs), rows);
  }

  lemma SupersSplit(specs: seq<UserSpec>, rows: seq<UserRow>)
    ensures Superusers(rows) == Count(UnlistedSuper(specs), rows) + Count(ListedSuper(specs), rows)
  {
    hide Count, ListsUser;
    CountSplit(IsSuperuser, UnlistedSuper(specs), ListedSuper(specs), rows);
  }

  lemma FewerSupers(a: seq<UserRow>, b: seq<UserRow>)
    requires forall x :: x in b ==> x in a
    ensures Superusers(b) >= 1 ==> Superusers(a) >= 1
  {
    hide Count;
    CountPositive(IsSuperuser, a);
    CountPositive(IsSuperuser, b);
  }

  lemma SuperusersLeft(env: Env, sf: StateFile, opts: Options, db: Db)
    requires Consistent(db) && !opts.dryRun && ApplyRun(env, sf, opts, db).error == None
    ensures Superusers(ApplyRun(env, sf, opts, db).db.users.rows) >= 1 <==>
            MakesSuperuser(sf.users) || Count(UnlistedSuper(sf.users), db.users.rows) >= 1
  {
    hide ApplyRun, ApplyUsers, ApplyNodes, UpsertUsers, PurgeAllUsers, Count, Consistent, CheckUsers, MakesSuperuser,
         UnlistedSuper, ListedSuper;
    RunIs(env, sf, opts, db);
    UsersPhaseIs(env, sf, opts, Start(db));
    UsersPhaseIsFinal(env, sf, opts, db);
    var run1 := UpsertUsers(env, opts, sf.users, Start(db));
    UpsertUsersFacts(env, opts, sf.users, Start(db));
    ListedSuperusers(env, opts, sf.users, Start(db));
    UnlistedSupersStay(env, opts, sf.users, Start(db));
    SupersSplit(sf.users, run1.db.users.rows);
    if sf.purge.users {
      PurgeAllUsersFacts(env, opts, sf.users, run1);
      FewerSupers(run1.db.users.rows, PurgeAllUsers(env, opts, sf.users, run1).db.users.rows);
    }
  }

  /**
   When a finished run leaves a superuser: exactly when the file makes one, or there was one
   it does not name.  The purge is on or off, and any count may have failed.
   */
  lemma SuperuserLeftExactly(env: Env, sf: StateFile, opts: Options, db: Db)
    requires Consistent(db) && !opts.dryRun && ApplyRun(env, sf, opts, db).error == None
    ensures HasSuperuser(ApplyRun(env, sf, opts, db).db.users.rows) <==>
            MakesSuperuser(sf.users) || exists x ::
              x in db.users.rows && x.value.permission == "superuser" && forall s :: s in sf.users ==> s.username != x.key
  {
    SuperusersCounted(ApplyRun(env, sf, opts, db).db.users.rows);
    UnlistedCounted(sf.users, db.users.rows);
    SuperusersLeft(env, sf, opts, db);
  }

  // ----------------------------------------------------------------- nodes

  /** The node purge keeps a listed node's row, and its favorites. */
  lemma PurgeKeepsNode(env: Env, opts: Options, specs: seq<NodeSpec>, run: Run, x: NodeRow)
    requires Sound(run.db) && run.error == None && !opts.dryRun
    requires Find(run.db.nodes.rows, x.key) == Some(x) && ListsNode(specs, x.key)
    ensures var r := PurgeAllNodes(env, opts, specs, run);
      Find(r.db.nodes.rows, x.key) == Some(x) && Under(r.db.favs.rows, x.id) == Under(run.db.favs.rows, x.id)
  {
    hide PurgeNodes, Sort, Count;
    if !Down(env, run.db) {
      var listing, run1 := Sort(NodeBefore, run.db.nodes.rows), run.(db := Tick(run.db));
      SortDistinct(NodeBefore, run.db.nodes.rows);
      PurgeNodesFacts(env, opts, specs, listing, run1);
      PurgeNodesLeaves(env, opts, specs, listing, run1, x);
      var r := PurgeNodes(env, opts, specs, listing, run1);
      PurgedSound(run1.db, r.db);
      FindRow(r.db.nodes.rows, x);
    }
  }

  lemma PurgeKeepsSettled(env: Env, opts: Options, purge: bool, specs: seq<NodeSpec>, run: Run, s: NodeSpec)
    requires Sound(run.db) && run.error == None && !opts.dryRun
    requires NodeSettled(purge, s, run.db) && ListsNode(specs, s.number)
    ensures NodeSettled(purge, s, PurgeAllNodes(env, opts, specs, run).db)
  {
    hide PurgeAllNodes, Under, Sound;
    var x := Find(run.db.nodes.rows, s.number).value;
    var rows, rows' := run.db.favs.rows, PurgeAllNodes(env, opts, specs, run).db.favs.rows;
    PurgeKeepsNode(env, opts, specs, run, x);
    forall n ensures Find(rows', FavKey(x.id, n)) == Find(rows, FavKey(x.id, n)) {
      FindUnder(rows, x.id, n);
      FindUnder(rows', x.id, n);
    }
    forall f | f in s.favorites ensures FavSettled(f, x.id, rows') { assert FavSettled(f, x.id, rows); }
  }

  /** With the purge on, a finished run leaves listed nodes only. */
  lemma PurgeLeavesListed(env: Env, opts: Options, specs: seq<NodeSpec>, run: Run, x: NodeRow)
    requires Consistent(run.db) && run.error == None && !opts.dryRun
    requires PurgeAllNodes(env, opts, specs, run).error == None
    requires x in PurgeAllNodes(env, opts, specs, run).db.nodes.rows
    ensures ListsNode(specs, x.key)
  {
    var listing, run1 := Sort(NodeBefore, run.db.nodes.rows), run.(db := Tick(run.db));
    SortDistinct(NodeBefore, run.db.nodes.rows);
    hide PurgeNodes, Sort, Count;
    PurgeNodesFacts(env, opts, specs, listing, run1);
    PurgeNodesLeaves(env, opts, specs, listing, run1, x);
  }

  /** The phases of a run that finishes. */
  lemma FinishedRun(env: Env, sf: StateFile, opts: Options, db: Db) returns (users: Run, mid: Run)
    requires ApplyRun(env, sf, opts, db).error == None
    ensures users == ApplyUsers(env, sf, opts, Start(db)) && users.error == None
    ensures mid == UpsertNodes(env, opts, sf.purge.favorites, sf.nodes, users) && mid.error == None
    ensures CheckUsers(sf.users) == None && CheckNodes(sf.nodes) == None
    ensures ApplyRun(env, sf, opts, db) == if sf.purge.nodes then PurgeAllNodes(env, opts, sf.nodes, mid) else mid
  {
    hide UpsertUsers, PurgeAllUsers, UpsertNodes, PurgeAllNodes, CheckNodes, CheckUsers;
    users := ApplyUsers(env, sf, opts, Start(db));
    mid := UpsertNodes(env, opts, sf.purge.favorites, sf.nodes, users);
  }

  /**
   The nodes and favorites after a finished run: the last entry of each number settled
   (its row in all six fields, the last entry of each of its favorites; with the
   favorites purge on, no other favorite), and with the node purge on no other node.
   */
  lemma NodesConverge(env: Env, sf: StateFile, opts: Options, db: Db, i: nat)
    requires Sound(db) && !opts.dryRun && ApplyRun(env, sf, opts, db).error == None
    requires i < |sf.nodes| && forall j :: i < j < |sf.nodes| ==> sf.nodes[j].number != sf.nodes[i].number
    ensures var r := ApplyRun(env, sf, opts, db);
      && Sound(r.db) && NodeSettled(sf.purge.favorites, Effective(sf.nodes[i]), r.db)
      && (sf.purge.nodes ==> forall x :: x in r.db.nodes.rows ==> ListsNode(sf.nodes, x.key))
  {
    hide ApplyUsers, UpsertNodes, PurgeAllNodes, NodeSettled, Sound, ApplyRun;
    var users, mid := FinishedRun(env, sf, opts, db);
    UsersPhaseSound(env, sf, opts, db);
    UpsertNodesFacts(env, opts, sf.purge.favorites, sf.nodes, users);
    LoopSettles(env, opts, sf.purge.favorites, sf.nodes, users, i);
    if sf.purge.nodes {
      var s := Effective(sf.nodes[i]);
      assert sf.nodes[i] in sf.nodes;
      PurgeKeepsSettled(env, opts, sf.purge.favorites, sf.nodes, mid, s);
      PurgeAllNodesSound(env, opts, sf.nodes, mid);
      forall x | x in PurgeAllNodes(env, opts, sf.nodes, mid).db.nodes.rows ensures ListsNode(sf.nodes, x.key) {
        SoundConsistent(mid.db);
        PurgeLeavesListed(env, opts, sf.nodes, mid, x);
      }
    }
  }

  /**
   What a finished run stores of a node, new or not, field by field as the last entry of its
   number declares it.
   */
  lemma NodesDeclared(env: Env, sf: StateFile, opts: Options, db: Db, i: nat)
    requires Sound(db) && !opts.dryRun && ApplyRun(env, sf, opts, db).error == None
    requires i < |sf.nodes| && forall j :: i < j < |sf.nodes| ==> sf.nodes[j].number != sf.nodes[i].number
    ensures var s := sf.nodes[i]; var found := Find(ApplyRun(env, sf, opts, db).db.nodes.rows, s.number);
      && found.Some?
      && var node := found.value.value;
        && node.name == s.name
        && node.amiHost == (if s.amiHost == "" then "localhost" else s.amiHost)
        && node.amiPort == (if s.amiPort == 0 then 5038 else s.amiPort)
        && node.amiUser == s.amiUser && node.amiPass == s.amiPass && node.enabled == s.enabled
  {
    hide ApplyRun, Sound, FavsSettled, Find;
    NodesConverge(env, sf, opts, db, i);
  }

  /** And of its favorites: each as the last entry of its number declares it. */
  lemma FavoritesDeclared(env: Env, sf: StateFile, opts: Options, db: Db, i: nat, k: nat)
    requires Sound(db) && !opts.dryRun && ApplyRun(env, sf, opts, db).error == None
    requires i < |sf.nodes| && forall j :: i < j < |sf.nodes| ==> sf.nodes[j].number != sf.nodes[i].number
    requires var favs := sf.nodes[i].favorites;
      k < |favs| && forall j :: k < j < |favs| ==> favs[j].number != favs[k].number
    ensures var f, r := sf.nodes[i].favorites[k], ApplyRun(env, sf, opts, db).db;
      var node := Find(r.nodes.rows, sf.nodes[i].number);
      && node.Some? && Find(r.favs.rows, FavKey(node.value.id, f.number)).Some?
      && var fav := Find(r.favs.rows, FavKey(node.value.id, f.number)).value.value;
        && fav.callsign == f.callsign && fav.description == f.description && fav.location == f.location
        && fav.groupName == if f.groupName == "" then "default" else f.groupName
  {
    hide ApplyRun, Sound, Find;
    NodesConverge(env, sf, opts, db, i);
    var s, r := Effective(sf.nodes[i]), ApplyRun(env, sf, opts, db).db;
    LastOnlyHas(sf.nodes[i].favorites, k);
    assert FavSettled(sf.nodes[i].favorites[k], Find(r.nodes.rows, s.number).value.id, r.favs.rows);
  }

  lemma SoundConsistent(db: Db)
    requires Sound(db)
    ensures Consistent(db)
  {
  }

  lemma UsersPhaseSound(env: Env, sf: StateFile, opts: Options, db: Db)
    requires Sound(db) && !opts.dryRun
    ensures Sound(ApplyUsers(env, sf, opts, Start(db)).db)
  {
    UsersConserved(env, sf, opts, Start(db));
  }

  lemma PurgeAllNodesSound(env: Env, opts: Options, specs: seq<NodeSpec>, run: Run)
    requires Sound(run.db) && run.error == None && !opts.dryRun
    ensures Sound(PurgeAllNodes(env, opts, specs, run).db)
  {
    hide PurgeAllNodes;
    NodePurgeConserved(env, opts, specs, run);
    PurgedSound(run.db, PurgeAllNodes(env, opts, specs, run).db);
  }

  /**
   What a real run leaves alone, finished or not: with the node purge off no node loses
   its id, and an unlisted one keeps its row and its favorites.
   */
  lemma UnlistedNodesKept(env: Env, sf: StateFile, opts: Options, db: Db, x: NodeRow)
    requires Sound(db) && !opts.dryRun && !sf.purge.nodes && Find(db.nodes.rows, x.key) == Some(x)
    ensures var r := ApplyRun(env, sf, opts, db);
      && Find(r.db.nodes.rows, x.key).Some? && Find(r.db.nodes.rows, x.key).value.id == x.id
      && (!ListsNode(sf.nodes, x.key) ==>
            Find(r.db.nodes.rows, x.key) == Some(x) && Under(r.db.favs.rows, x.id) == Under(db.favs.rows, x.id))
  {
    UsersConserved(env, sf, opts, Start(db));
    UsersPhaseSound(env, sf, opts, db);
    hide ApplyUsers, UpsertNodes, Sound, Under, CheckNodes;
    var users := ApplyUsers(env, sf, opts, Start(db));
    if users.error == None { UpsertNodesKeeps(env, opts, sf.purge.favorites, sf.nodes, users, x); }
  }

  /** With every purge off, no run deletes anything. */
  lemma NothingDeletedWithoutPurge(env: Env, sf: StateFile, opts: Options, db: Db)
    requires Sound(db) && !opts.dryRun && sf.purge == PurgePolicy(false, false, false)
    ensures var r := ApplyRun(env, sf, opts, db);
      r.report.users.deleted == 0 && r.report.nodes.deleted == 0 && r.report.favs.deleted == 0
  {
    hide ApplyRun, ApplyUsers, ApplyNodes, UpsertUsers, UpsertNodes, PurgeAllUsers, PurgeAllNodes, Sound, Consistent,
         CheckNodes, CheckUsers, UserApplied;
    SoundConsistent(db);
    RunIs(env, sf, opts, db);
    UsersPhaseIs(env, sf, opts, Start(db));
    NodesPhaseIs(env, sf, opts, ApplyUsers(env, sf, opts, Start(db)));
    UpsertUsersFacts(env, opts, sf.users, Start(db));
    UsersConserved(env, sf, opts, Start(db));
    UsersPhaseSound(env, sf, opts, db);
    var users := ApplyUsers(env, sf, opts, Start(db));
    if users.error == None { UpsertNodesFacts(env, opts, sf.purge.favorites, sf.nodes, users); }
  }

  /** The users of a run are those its users phase left: what UsersConverge says of that phase holds of the run. */
  lemma UsersPhaseIsFinal(env: Env, sf: StateFile, opts: Options, db: Db)
    requires Consistent(db) && !opts.dryRun
    ensures ApplyRun(env, sf, opts, db).db.users == ApplyUsers(env, sf, opts, Start(db)).db.users
    ensures ApplyRun(env, sf, opts, db).report.users == ApplyUsers(env, sf, opts, Start(db)).report.users
  {
    hide ApplyRun, ApplyUsers, ApplyNodes, UpsertNodes, PurgeAllNodes, Consistent, CheckNodes, Purged;
    RunIs(env, sf, opts, db);
    var users := ApplyUsers(env, sf, opts, Start(db));
    NodesPhaseIs(env, sf, opts, users);
    UsersConserved(env, sf, opts, Start(db));
    if users.error == None {
      KeepsUpsertNodes(env, opts, sf.purge.favorites, sf.nodes, users);
      var mid := UpsertNodes(env, opts, sf.purge.favorites, sf.nodes, users);
      if mid.error == None {
        NodePurgeConserved(env, opts, sf.nodes, mid);
        PurgedKeepsUsers(mid.db, PurgeAllNodes(env, opts, sf.nodes, mid).db);
      }
    }
  }

  lemma PurgedKeepsUsers(a: Db, b: Db)
    requires Purged(a, b)
    ensures b.users == a.users
  {
  }

  /** No user is purged before every listed user is there. */
  lemma UsersPurgedLast(env: Env, sf: StateFile, opts: Options, db: Db, s: UserSpec)
    requires Consistent(db) && !opts.dryRun && s in sf.users
    ensures var r := ApplyRun(env, sf, opts, db);
      r.report.users.deleted > 0 ==> Find(r.db.users.rows, s.username).Some?
  {
    hide ApplyRun, UpsertUsers, PurgeAllUsers, CheckUsers, Consistent, UserApplied;
    UsersPhaseIsFinal(env, sf, opts, db);
    UpsertUsersFacts(env, opts, sf.users, Start(db));
    var run1 := UpsertUsers(env, opts, sf.users, Start(db));
    if run1.error == None && sf.purge.users {
      UpsertUsersApplied(env, opts, sf.users, Start(db), s.username);
      UserAppliedExists(env, opts, sf.users, s.username, Find(db.users.rows, s.username), Find(run1.db.users.rows, s.username));
      PurgeAllUsersFacts(env, opts, sf.users, run1);
    }
  }

  lemma PhasePurgesLast(env: Env, sf: StateFile, opts: Options, run: Run, s: NodeSpec)
    requires Sound(run.db) && run.error == None && !opts.dryRun && s in sf.nodes
    ensures var r := ApplyNodes(env, sf, opts, run);
      r.report.nodes.deleted > run.report.nodes.deleted ==> Find(r.db.nodes.rows, s.number).Some?
  {
    hide ApplyNodes, UpsertNodes, PurgeAllNodes, Sound, CheckNodes, Find, Under;
    NodesPhaseIs(env, sf, opts, run);
    UpsertNodesFacts(env, opts, sf.purge.favorites, sf.nodes, run);
    var mid := UpsertNodes(env, opts, sf.purge.favorites, sf.nodes, run);
    if mid.error == None {
      LoopFinds(env, opts, sf.purge.favorites, sf.nodes, run, s.number);
      PurgeKeepsNode(env, opts, sf.nodes, mid, Find(mid.db.nodes.rows, s.number).value);
    }
  }

  /** No node is purged before every listed node is there. */
  lemma NodesPurgedLast(env: Env, sf: StateFile, opts: Options, db: Db, s: NodeSpec)
    requires Sound(db) && !opts.dryRun && s in sf.nodes
    ensures var r := ApplyRun(env, sf, opts, db);
      r.report.nodes.deleted > 0 ==> Find(r.db.nodes.rows, s.number).Some?
  {
    hide ApplyRun, ApplyUsers, ApplyNodes, Sound, Consistent, Find;
    SoundConsistent(db);
    RunIs(env, sf, opts, db);
    UsersConserved(env, sf, opts, Start(db));
    UsersPhaseSound(env, sf, opts, db);
    var users := ApplyUsers(env, sf, opts, Start(db));
    if users.error == None { PhasePurgesLast(env, sf, opts, users, s); }
  }
}
