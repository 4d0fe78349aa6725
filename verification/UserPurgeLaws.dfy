/** The user purge: whom it spares, and how many it reports deleted in a real and in a dry run. */
module UserPurgeLaws {
  import opened Wrappers
  import opened Tables
  import opened Sorting
  import opened Sql
  import opened ApplySpec
  import opened UserLaws

  ghost predicate Reliable(env: Env) {
    forall n: nat :: !env.fails(n)
  }

  function UnlistedSuper(specs: seq<UserSpec>): UserRow -> bool {
    (u: UserRow) => !ListsUser(specs, u.key) && IsSuperuser(u)
  }

  function UnlistedPlain(specs: seq<UserSpec>): UserRow -> bool {
    (u: UserRow) => !ListsUser(specs, u.key) && !IsSuperuser(u)
  }

  function ListedSuper(specs: seq<UserSpec>): UserRow -> bool {
    (u: UserRow) => ListsUser(specs, u.key) && IsSuperuser(u)
  }

  /** Every superuser row is the only one when they count at most one. */
  lemma LoneSuperuser(t: Table<string, User>, u: UserRow, v: UserRow)
    requires Valid(t) && Superusers(t.rows) <= 1
    requires u in t.rows && v in t.rows && IsSuperuser(u) && IsSuperuser(v)
    ensures u == v
  {
    CountWithout(IsSuperuser, t.rows, u);
    CountPositive(IsSuperuser, Without(t.rows, u.id));
    DeleteFacts(t, u);
  }

  lemma RemoveUserFacts(env: Env, opts: Options, u: UserRow, run: Run)
    requires Consistent(run.db) && run.error == None && !opts.dryRun && u in run.db.users.rows
    ensures var r := RemoveUser(env, opts, u, run);
      && Consistent(r.db) && OnlyUsers(run, r) && UserBalance(r) == UserBalance(run)
      && r.report.users == run.report.users.(deleted := r.report.users.deleted)
      && (if r.error.Some? then r.db.users == run.db.users && r.report == run.report
          else r.db.users == Delete(run.db.users, u.id) && r.report.users.deleted == run.report.users.deleted + 1)
      && (r.error.Some? ==> env.fails(run.db.clock))
  {
    DeleteFacts(run.db.users, u);
  }

  /** The pass counts the superusers, and the count fails: its error is ignored and the user kept. */
  predicate CountFails(env: Env, specs: seq<UserSpec>, u: UserRow, run: Run) {
    !ListsUser(specs, u.key) && IsSuperuser(u) && Down(env, run.db)
  }

  /** One pass of the purge loop: it keeps the table, or deletes exactly this unlisted user. */
  lemma PurgeUserFacts(env: Env, opts: Options, specs: seq<UserSpec>, u: UserRow, run: Run)
    requires Consistent(run.db) && run.error == None && !opts.dryRun && u in run.db.users.rows
    ensures var r := PurgeUser(env, opts, specs, u, run);
      && Consistent(r.db) && OnlyUsers(run, r) && UserBalance(r) == UserBalance(run)
      && r.report.users == run.report.users.(deleted := r.report.users.deleted)
      && (if r.report.users.deleted == run.report.users.deleted then r.db.users == run.db.users
          else r.report.users.deleted == run.report.users.deleted + 1
               && r.db.users == Delete(run.db.users, u.id) && !ListsUser(specs, u.key))
      && (Superusers(run.db.users.rows) >= 1 ==> Superusers(r.db.users.rows) >= 1)
      && (Reliable(env) ==> r.error.None?)
      && (r.error.None? ==>
            (r.db.users == run.db.users <==>
               || ListsUser(specs, u.key) || CountFails(env, specs, u, run)
               || (IsSuperuser(u) && Superusers(run.db.users.rows) <= 1)))
  {
    if !ListsUser(specs, u.key) {
      CountWithout(IsSuperuser, run.db.users.rows, u);
      assert |Delete(run.db.users, u.id).rows| == |run.db.users.rows| - 1 by { DeleteFacts(run.db.users, u); }
      RemoveUserFacts(env, opts, u, run);
      RemoveUserFacts(env, opts, u, run.(db := Tick(run.db)));
    }
  }

  /** Any run of the purge loop, stopped early or not. */
  lemma {:induction false} PurgeUsersFacts(env: Env, opts: Options, specs: seq<UserSpec>, listing: seq<UserRow>, run: Run)
    requires Consistent(run.db) && run.error == None && !opts.dryRun
    requires DistinctIds(listing) && forall u :: u in listing ==> u in run.db.users.rows
    ensures var r := PurgeUsers(env, opts, specs, listing, run);
      && Consistent(r.db) && OnlyUsers(run, r) && UserBalance(r) == UserBalance(run)
      && r.report.users.deleted >= run.report.users.deleted
      && r.report.users == run.report.users.(deleted := r.report.users.deleted)
      && (r.report.users.deleted == run.report.users.deleted ==> r.db.users == run.db.users)
      && (forall x :: x in r.db.users.rows ==> x in run.db.users.rows)
      && (forall x :: x in run.db.users.rows && (ListsUser(specs, x.key) || x !in listing) ==> x in r.db.users.rows)
      && (Superusers(run.db.users.rows) >= 1 ==> Superusers(r.db.users.rows) >= 1)
    decreases listing
  {
    if listing != [] {
      var u := listing[0];
      PurgeUserFacts(env, opts, specs, u, run);
      DeleteFacts(run.db.users, u);
      TailRows(listing);
      var run1 := PurgeUser(env, opts, specs, u, run);
      if run1.error.None? { PurgeUsersFacts(env, opts, specs, listing[1..], run1); }
    }
  }

  lemma TailRows<K(!new), V(!new)>(rows: seq<Row<K, V>>)
    requires DistinctIds(rows) && rows != []
    ensures DistinctIds(rows[1..])
    ensures forall x :: x in rows <==> x == rows[0] || x in rows[1..]
    ensures forall x :: x in rows[1..] ==> x != rows[0] && x.id != rows[0].id
  {
    forall x | x in rows[1..] ensures x.id != rows[0].id {
      var j :| 0 <= j < |rows[1..]| && rows[1..][j] == x;
      assert rows[0].id != rows[j + 1].id;
    }
  }

  /** Who is spared by a loop that finishes, whichever statements fail: only superusers. */
  lemma {:induction false} PurgeUsersSpares(env: Env, opts: Options, specs: seq<UserSpec>, listing: seq<UserRow>,
                                            run: Run, u: UserRow)
    requires Consistent(run.db) && run.error == None && !opts.dryRun
    requires DistinctIds(listing) && forall x :: x in listing ==> x in run.db.users.rows
    requires u in listing && !ListsUser(specs, u.key)
    requires var r := PurgeUsers(env, opts, specs, listing, run); r.error == None && u in r.db.users.rows
    ensures IsSuperuser(u)
    decreases listing
  {
    hide PurgeUser, DistinctIds, UniqueKeys, FindId, NoOrphans;
    var head := listing[0];
    var run1 := PurgeUser(env, opts, specs, head, run);
    PurgeUserFacts(env, opts, specs, head, run);
    DeleteFacts(run.db.users, head);
    TailRows(listing);
    if run1.error == None {
      PurgeUsersFacts(env, opts, specs, listing[1..], run1);
      if u != head { PurgeUsersSpares(env, opts, specs, listing[1..], run1, u); }
    }
  }

  // -------------------------------------------------------------- counting

  function LessOne(n: nat): nat { if n == 0 then 0 else n - 1 }

  /** How many counts of superusers fail in a run of the loop. */
  function FailedCounts(env: Env, opts: Options, specs: seq<UserSpec>, listing: seq<UserRow>, run: Run): nat
    decreases listing
  {
    if listing == [] || run.error.Some? then 0
    else (if CountFails(env, specs, listing[0], run) then 1 else 0)
         + FailedCounts(env, opts, specs, listing[1..], PurgeUser(env, opts, specs, listing[0], run))
  }

  lemma {:induction false} ReliableCounts(env: Env, opts: Options, specs: seq<UserSpec>, listing: seq<UserRow>, run: Run)
    requires Reliable(env)
    ensures FailedCounts(env, opts, specs, listing, run) == 0
    decreases listing
  {
    hide PurgeUser;
    if listing != [] {
      ReliableCounts(env, opts, specs, listing[1..], PurgeUser(env, opts, specs, listing[0], run));
    }
  }

  /**
   How many of k unlisted superusers a finished loop keeps, with f failed counts: those
   whose count failed, or the last one when that is the only superuser.
   */
  function KeptSupers(listed: nat, k: nat, f: nat): nat {
    if f == 0 && listed == 0 && k > 0 then 1 else f
  }

  /** The listed superusers stay, the unlisted ones are counted by what the loop keeps. */
  ghost predicate PurgeCounted(run: Run, r: Run, specs: seq<UserSpec>, plain: nat, k: nat, f: nat) {
    var listed := Superusers(run.db.users.rows) - k;
    && f <= k && 0 <= listed && KeptSupers(listed, k, f) <= k
    && r.report.users.deleted == run.report.users.deleted + plain + k - KeptSupers(listed, k, f)
    && Superusers(r.db.users.rows) == listed + KeptSupers(listed, k, f)
    && Count(ListedSuper(specs), r.db.users.rows) == Count(ListedSuper(specs), run.db.users.rows)
  }

  /** One pass, in numbers. */
  lemma PurgeUserCounted(env: Env, opts: Options, specs: seq<UserSpec>, u: UserRow, run: Run)
    requires Consistent(run.db) && run.error == None && !opts.dryRun && u in run.db.users.rows
    requires PurgeUser(env, opts, specs, u, run).error == None
    ensures var r := PurgeUser(env, opts, specs, u, run);
      var kept := ListsUser(specs, u.key) || CountFails(env, specs, u, run)
                  || (IsSuperuser(u) && Superusers(run.db.users.rows) <= 1);
      && r.report.users.deleted == run.report.users.deleted + (if kept then 0 else 1)
      && Superusers(r.db.users.rows) == Superusers(run.db.users.rows) - (if !kept && IsSuperuser(u) then 1 else 0)
      && Count(ListedSuper(specs), r.db.users.rows) == Count(ListedSuper(specs), run.db.users.rows)
  {
    hide PurgeUser, Count, UniqueKeys, FindId, NoOrphans, DistinctIds;
    PurgeUserFacts(env, opts, specs, u, run);
    CountWithout(IsSuperuser, run.db.users.rows, u);
    CountWithout(ListedSuper(specs), run.db.users.rows, u);
    DeleteFacts(run.db.users, u);
  }

  /** The numbers of a loop from those of its first pass and of the rest. */
  lemma CountedCons(run: Run, run1: Run, r: Run, specs: seq<UserSpec>, u: UserRow, fails: bool,
                    plain: nat, k: nat, f: nat)
    requires fails ==> UnlistedSuper(specs)(u)
    requires k + (if UnlistedSuper(specs)(u) then 1 else 0) <= Superusers(run.db.users.rows)
    requires var kept := ListsUser(specs, u.key) || fails || (IsSuperuser(u) && Superusers(run.db.users.rows) <= 1);
      && run1.report.users.deleted == run.report.users.deleted + (if kept then 0 else 1)
      && Superusers(run1.db.users.rows) == Superusers(run.db.users.rows) - (if !kept && IsSuperuser(u) then 1 else 0)
      && Count(ListedSuper(specs), run1.db.users.rows) == Count(ListedSuper(specs), run.db.users.rows)
    requires PurgeCounted(run1, r, specs, plain, k, f)
    ensures PurgeCounted(run, r, specs, plain + (if UnlistedPlain(specs)(u) then 1 else 0),
                         k + (if UnlistedSuper(specs)(u) then 1 else 0), f + (if fails then 1 else 0))
  {
    hide Superusers, Count, ListsUser, IsSuperuser, ListedSuper;
  }

  /** Exactly what a finished real loop deletes and which superusers it leaves, whichever counts fail. */
  lemma {:induction false} RealPurgeCount(env: Env, opts: Options, specs: seq<UserSpec>, listing: seq<UserRow>, run: Run)
    requires Consistent(run.db) && run.error == None && !opts.dryRun
    requires DistinctIds(listing) && forall x :: x in listing ==> x in run.db.users.rows
    requires Count(UnlistedSuper(specs), listing) <= Superusers(run.db.users.rows)
    requires PurgeUsers(env, opts, specs, listing, run).error == None
    ensures PurgeCounted(run, PurgeUsers(env, opts, specs, listing, run), specs,
                         Count(UnlistedPlain(specs), listing), Count(UnlistedSuper(specs), listing),
                         FailedCounts(env, opts, specs, listing, run))
    decreases listing
  {
    hide PurgeUser, DistinctIds, UniqueKeys, FindId, NoOrphans, Superusers, UnlistedPlain, ListedSuper, ListsUser,
         IsSuperuser, Delete;
    if listing != [] {
      var u, run1 := listing[0], PurgeUser(env, opts, specs, listing[0], run);
      PurgeUserFacts(env, opts, specs, u, run);
      PurgeUserCounted(env, opts, specs, u, run);
      DeleteFacts(run.db.users, u);
      TailRows(listing);
      RealPurgeCount(env, opts, specs, listing[1..], run1);
      CountedCons(run, run1, PurgeUsers(env, opts, specs, listing, run), specs, u, CountFails(env, specs, u, run),
                  Count(UnlistedPlain(specs), listing[1..]), Count(UnlistedSuper(specs), listing[1..]),
                  FailedCounts(env, opts, specs, listing[1..], run1));
    }
  }

  /** A dry purge counts the superusers of an unchanging table. */
  lemma {:induction false} DryPurgeCount(env: Env, opts: Options, specs: seq<UserSpec>, listing: seq<UserRow>, run: Run)
    requires run.error == None && opts.dryRun
    ensures var r := PurgeUsers(env, opts, specs, listing, run);
      && SameTables(r.db, run.db) && OnlyUsers(run, r)
      && r.report.users == run.report.users.(deleted := r.report.users.deleted)
      && r.error == None
      && (Reliable(env) ==>
            r.report.users.deleted == run.report.users.deleted + Count(UnlistedPlain(specs), listing)
              + if Superusers(run.db.users.rows) >= 2 then Count(UnlistedSuper(specs), listing) else 0)
    decreases listing
  {
    if listing != [] {
      DryPurgeCount(env, opts, specs, listing[1..], PurgeUser(env, opts, specs, listing[0], run));
    }
  }
}
