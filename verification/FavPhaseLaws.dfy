/** All favorites of one node: the upsert loop, the purge loop, and both together. */
module FavPhaseLaws {
  import opened Wrappers
  import opened Tables
  import opened Sorting
  import opened Sql
  import opened ApplySpec
  import opened UserPurgeLaws
  import opened FavLaws

  /** The entry that counts for a number: the last one. */
  function LastFav(specs: seq<FavoriteSpec>, number: string): (r: Option<FavoriteSpec>)
    ensures r.Some? ==> r.value in specs && r.value.number == number
    ensures r.None? <==> !ListsFav(specs, number)
  {
    if specs == [] then None
    else
      assert forall f :: f in specs <==> f == specs[0] || f in specs[1..];
      match LastFav(specs[1..], number)
      case Some(f) => Some(f)
      case None => if specs[0].number == number then Some(specs[0]) else None
  }

  ghost predicate AllMatch(specs: seq<FavoriteSpec>, number: string, v: Fav) {
    forall f :: f in specs && f.number == number ==> Matches(f, v)
  }

  /** What a listed favorite looks like after the run, given what was there before. */
  ghost predicate FavApplied(specs: seq<FavoriteSpec>, number: string, before: Option<FavRow>, after: Option<FavRow>)
    requires ListsFav(specs, number)
  {
    && after.Some? && after.value.key.number == number
    && Matches(LastFav(specs, number).value, after.value.value)
    && (before.Some? ==>
          && after.value.id == before.value.id
          && after.value.value.position == before.value.value.position
          && after.value.value.sortOrder == before.value.value.sortOrder
          && (if AllMatch(specs, number, before.value.value) then after == before else after.value.value.cmd == ""))
    && (before.None? ==> after.value.value.sortOrder == 0 && after.value.value.cmd == "")
  }

  lemma FavAppliedCons(specs: seq<FavoriteSpec>, number: string,
                       before: Option<FavRow>, mid: Option<FavRow>, after: Option<FavRow>)
    requires specs != [] && ListsFav(specs, number)
    requires if specs[0].number == number then FavSynced(specs[0], before, mid) else mid == before
    requires if ListsFav(specs[1..], number) then FavApplied(specs[1..], number, mid, after) else after == mid
    ensures FavApplied(specs, number, before, after)
  {
    assert forall f :: f in specs <==> f == specs[0] || f in specs[1..];
    if before.Some? {
      assert AllMatch(specs, number, before.value.value) <==>
        (specs[0].number == number ==> Matches(specs[0], before.value.value)) && AllMatch(specs[1..], number, before.value.value);
    }
  }

  /** The report of the upsert loop when no number is listed twice. */
  function UpsertForecast(nodeId: nat, specs: seq<FavoriteSpec>, mine: seq<FavRow>): Tally {
    if specs == [] then ZERO
    else FavDelta(specs[0], Find(mine, FavKey(nodeId, specs[0].number))).Plus(UpsertForecast(nodeId, specs[1..], mine))
  }

  ghost predicate DistinctFavs(specs: seq<FavoriteSpec>) {
    forall i, j :: 0 <= i < j < |specs| ==> specs[i].number != specs[j].number
  }

  /** Any run of the upsert loop, stopped early or not. */
  lemma {:induction false} UpsertFavsFacts(env: Env, opts: Options, nodeId: nat, specs: seq<FavoriteSpec>,
                                           all: seq<FavoriteSpec>, run: Run)
    requires Sound(run.db) && run.error == None && !opts.dryRun && FindId(run.db.nodes.rows, nodeId).Some?
    requires forall f :: f in specs ==> f in all
    ensures var r := UpsertFavs(env, opts, nodeId, specs, run);
      && OnlyNode(run, r, nodeId) && FavBalance(r) == FavBalance(run)
      && r.report.favs.deleted == run.report.favs.deleted && run.report.favs.Total() <= r.report.favs.Total()
      && (forall n :: !ListsFav(specs, n) ==>
            Find(r.db.favs.rows, FavKey(nodeId, n)) == Find(run.db.favs.rows, FavKey(nodeId, n)))
      && Count(UnlistedFav(all), Under(r.db.favs.rows, nodeId)) == Count(UnlistedFav(all), Under(run.db.favs.rows, nodeId))
      && (Reliable(env) ==> r.error == None)
    decreases specs
  {
    hide UpsertFav, Sound, FavSynced, FavDelta, Under;
    if specs != [] {
      var key := FavKey(nodeId, specs[0].number);
      var run1 := UpsertFav(env, opts, nodeId, specs[0], run);
      UpsertFavFacts(env, opts, nodeId, specs[0], run);
      assert specs[0] in specs;
      assert forall n :: ListsFav(specs[1..], n) ==> ListsFav(specs, n);
      assert Ignores(UnlistedFav(all), key);
      if run1.error.None? { UpsertFavsFacts(env, opts, nodeId, specs[1..], all, run1); }
    }
  }

  /** A run of the upsert loop that finishes leaves every listed favorite as its last entry says. */
  lemma {:induction false} UpsertFavsApplied(env: Env, opts: Options, nodeId: nat, specs: seq<FavoriteSpec>,
                                             run: Run, number: string)
    requires Sound(run.db) && run.error == None && !opts.dryRun && FindId(run.db.nodes.rows, nodeId).Some?
    requires ListsFav(specs, number) && UpsertFavs(env, opts, nodeId, specs, run).error == None
    ensures FavApplied(specs, number, Find(run.db.favs.rows, FavKey(nodeId, number)),
                       Find(UpsertFavs(env, opts, nodeId, specs, run).db.favs.rows, FavKey(nodeId, number)))
    decreases specs
  {
    hide UpsertFav;
    var key := FavKey(nodeId, number);
    var run1 := UpsertFav(env, opts, nodeId, specs[0], run);
    var r := UpsertFavs(env, opts, nodeId, specs[1..], run1);
    UpsertFavFacts(env, opts, nodeId, specs[0], run);
    if ListsFav(specs[1..], number) {
      UpsertFavsApplied(env, opts, nodeId, specs[1..], run1, number);
    } else {
      UpsertFavsFacts(env, opts, nodeId, specs[1..], specs[1..], run1);
    }
    FavAppliedCons(specs, number, Find(run.db.favs.rows, key), Find(run1.db.favs.rows, key), Find(r.db.favs.rows, key));
  }

  lemma PlusAssociative(a: Tally, b: Tally, c: Tally)
    ensures a.Plus(b).Plus(c) == a.Plus(b.Plus(c))
  {
  }

  /** The real run reports what the favorites at its start foretell. */
  lemma {:induction false} UpsertFavsReport(env: Env, opts: Options, nodeId: nat, specs: seq<FavoriteSpec>,
                                            run: Run, mine: seq<FavRow>)
    requires Sound(run.db) && run.error == None && !opts.dryRun && FindId(run.db.nodes.rows, nodeId).Some?
    requires DistinctFavs(specs) && UpsertFavs(env, opts, nodeId, specs, run).error == None
    requires forall f :: f in specs ==>
      Find(run.db.favs.rows, FavKey(nodeId, f.number)) == Find(mine, FavKey(nodeId, f.number))
    ensures UpsertFavs(env, opts, nodeId, specs, run).report.favs == run.report.favs.Plus(UpsertForecast(nodeId, specs, mine))
    decreases specs
  {
    hide UpsertFav;
    if specs != [] {
      var run1 := UpsertFav(env, opts, nodeId, specs[0], run);
      UpsertFavFacts(env, opts, nodeId, specs[0], run);
      assert specs[0] in specs;
      forall f | f in specs[1..] ensures f in specs && f.number != specs[0].number {
        var j :| 0 <= j < |specs[1..]| && specs[1..][j] == f;
        assert specs[0].number != specs[j + 1].number;
      }
      UpsertFavsReport(env, opts, nodeId, specs[1..], run1, mine);
      PlusAssociative(run.report.favs, FavDelta(specs[0], Find(mine, FavKey(nodeId, specs[0].number))),
                      UpsertForecast(nodeId, specs[1..], mine));
    }
  }

  lemma UpsertFavDry(env: Env, opts: Options, nodeId: nat, f: FavoriteSpec, run: Run)
    requires run.error == None && opts.dryRun
    ensures var r := UpsertFav(env, opts, nodeId, f, run);
      && SameTables(r.db, run.db) && OnlyFavs(run, r) && (Reliable(env) ==> r.error == None)
      && (r.error == None ==>
            r.report.favs == run.report.favs.Plus(FavDelta(f, Find(run.db.favs.rows, FavKey(nodeId, f.number)))))
  {
  }

  /** So does the dry run, and it changes no table. */
  lemma {:induction false} UpsertFavsDry(env: Env, opts: Options, nodeId: nat, specs: seq<FavoriteSpec>, run: Run)
    requires run.error == None && opts.dryRun
    ensures var r := UpsertFavs(env, opts, nodeId, specs, run);
      && SameTables(r.db, run.db) && OnlyFavs(run, r) && (Reliable(env) ==> r.error == None)
      && (r.error == None ==>
            r.report.favs == run.report.favs.Plus(UpsertForecast(nodeId, specs, Under(run.db.favs.rows, nodeId))))
    decreases specs
  {
    hide UpsertFav, FavDelta, Under;
    if specs != [] {
      FindUnder(run.db.favs.rows, nodeId, specs[0].number);
      UpsertFavDry(env, opts, nodeId, specs[0], run);
      var run1 := UpsertFav(env, opts, nodeId, specs[0], run);
      if run1.error.None? { UpsertFavsDry(env, opts, nodeId, specs[1..], run1); }
    }
  }

  // --------------------------------------------------------------- purging

  lemma PurgeFavFacts(env: Env, opts: Options, specs: seq<FavoriteSpec>, row: FavRow, run: Run)
    requires Sound(run.db) && run.error == None && !opts.dryRun && row in run.db.favs.rows
    ensures var r := PurgeFav(env, opts, specs, row, run);
      && OnlyNode(run, r, row.key.nodeId) && FavBalance(r) == FavBalance(run)
      && r.report.favs == run.report.favs.(deleted := r.report.favs.deleted)
      && (if r.error.Some? || ListsFav(specs, row.key.number)
          then r.report == run.report && r.db.favs == run.db.favs
          else r.report.favs.deleted == run.report.favs.deleted + 1 && r.db.favs == Delete(run.db.favs, row.id))
      && (Reliable(env) ==> r.error == None)
  {
    DeleteFacts(run.db.favs, row);
    forall id | id != row.key.nodeId ensures Under(Without(run.db.favs.rows, row.id), id) == Under(run.db.favs.rows, id) {
      UnderWithout(run.db.favs.rows, row.id, id);
      forall x | x in Under(run.db.favs.rows, id) ensures x.id != row.id {
        if x.id == row.id { SameIdSameRow(run.db.favs.rows, x, row); }
      }
    }
  }

  /** Any run of the purge loop over (the rest of) a node's listing. */
  lemma {:induction false} PurgeFavsFacts(env: Env, opts: Options, nodeId: nat, specs: seq<FavoriteSpec>,
                                          listing: seq<FavRow>, run: Run)
    requires Sound(run.db) && run.error == None && !opts.dryRun && DistinctIds(listing)
    requires forall x :: x in listing ==> x in run.db.favs.rows && x.key.nodeId == nodeId
    ensures var r := PurgeFavs(env, opts, specs, listing, run);
      && OnlyNode(run, r, nodeId) && FavBalance(r) == FavBalance(run)
      && r.report.favs == run.report.favs.(deleted := r.report.favs.deleted)
      && run.report.favs.deleted <= r.report.favs.deleted
      && (forall x :: x in r.db.favs.rows ==> x in run.db.favs.rows)
      && (forall x :: x in run.db.favs.rows && (ListsFav(specs, x.key.number) || x !in listing) ==> x in r.db.favs.rows)
      && (r.error == None ==>
            && (forall x :: x in listing && !ListsFav(specs, x.key.number) ==> x !in r.db.favs.rows)
            && r.report.favs.deleted == run.report.favs.deleted + Count(UnlistedFav(specs), listing))
      && (r.report.favs.deleted == run.report.favs.deleted ==> r.db.favs == run.db.favs)
      && (Reliable(env) ==> r.error == None)
    decreases listing
  {
    if listing != [] {
      var row := listing[0];
      PurgeFavFacts(env, opts, specs, row, run);
      DeleteFacts(run.db.favs, row);
      TailRows(listing);
      var run1 := PurgeFav(env, opts, specs, row, run);
      if run1.error.None? { PurgeFavsFacts(env, opts, nodeId, specs, listing[1..], run1); }
    }
  }

  lemma {:induction false} PurgeFavsDry(env: Env, opts: Options, specs: seq<FavoriteSpec>, listing: seq<FavRow>, run: Run)
    requires run.error == None && opts.dryRun
    ensures var r := PurgeFavs(env, opts, specs, listing, run);
      && r.db == run.db && r.error == None && OnlyFavs(run, r)
      && r.report.favs == run.report.favs.Plus(ZERO.(deleted := Count(UnlistedFav(specs), listing)))
    decreases listing
  {
    if listing != [] {
      PurgeFavsDry(env, opts, specs, listing[1..], PurgeFav(env, opts, specs, listing[0], run));
    }
  }

  lemma ListingFacts(t: Table<FavKey, Fav>, nodeId: nat)
    requires Valid(t)
    ensures DistinctIds(Listing(t.rows, nodeId))
  {
    UnderDistinct(t.rows, nodeId);
    SortDistinct(FavBefore, Under(t.rows, nodeId));
  }

  /** The purge of one node's favorites, stopped early or not. */
  lemma PurgeAllFavsFacts(env: Env, opts: Options, nodeId: nat, specs: seq<FavoriteSpec>, run: Run)
    requires Sound(run.db) && run.error == None && !opts.dryRun
    ensures var r := PurgeAllFavs(env, opts, nodeId, specs, run);
      && OnlyNode(run, r, nodeId) && FavBalance(r) == FavBalance(run)
      && r.report.favs == run.report.favs.(deleted := r.report.favs.deleted)
      && run.report.favs.deleted <= r.report.favs.deleted
      && (r.error == None ==>
            r.report.favs.deleted == run.report.favs.deleted + Count(UnlistedFav(specs), Under(run.db.favs.rows, nodeId)))
      && (r.report.favs.deleted == run.report.favs.deleted ==> r.db.favs == run.db.favs)
      && (Reliable(env) ==> r.error == None)
  {
    hide PurgeAllFavs, PurgeFavs, Count, Listing, Sound, Under, UnlistedFav, DistinctIds;
    var rows := run.db.favs.rows;
    FavPurgeIs(env, opts, nodeId, specs, run);
    SoundListing(run.db, nodeId);
    CountListed(specs, rows, nodeId);
    if !Down(env, run.db) { PurgeFavsFacts(env, opts, nodeId, specs, Listing(rows, nodeId), run.(db := Tick(run.db))); }
  }

  lemma SoundListing(db: Db, nodeId: nat)
    requires Sound(db)
    ensures Sound(Tick(db)) && DistinctIds(Listing(db.favs.rows, nodeId))
    ensures forall x :: x in Listing(db.favs.rows, nodeId) ==> x in db.favs.rows && x.key.nodeId == nodeId
  {
    hide Listing;
    ListingFacts(db.favs, nodeId);
  }

  lemma CountListed(specs: seq<FavoriteSpec>, rows: seq<FavRow>, nodeId: nat)
    ensures Count(UnlistedFav(specs), Listing(rows, nodeId)) == Count(UnlistedFav(specs), Under(rows, nodeId))
  {
    hide Sort, Under, Count, UnlistedFav;
    CountSort(UnlistedFav(specs), FavBefore, Under(rows, nodeId));
  }

  /** Which of the node's favorites are left. */
  lemma PurgeAllFavsFind(env: Env, opts: Options, nodeId: nat, specs: seq<FavoriteSpec>, run: Run, number: string)
    requires Sound(run.db) && run.error == None && !opts.dryRun
    ensures var r := PurgeAllFavs(env, opts, nodeId, specs, run); var key := FavKey(nodeId, number);
      && (ListsFav(specs, number) ==> Find(r.db.favs.rows, key) == Find(run.db.favs.rows, key))
      && (r.error == None && !ListsFav(specs, number) ==> Find(r.db.favs.rows, key) == None)
  {
    var rows, key := run.db.favs.rows, FavKey(nodeId, number);
    var run1 := run.(db := Tick(run.db));
    assert Sound(run1.db);
    ListingFacts(run.db.favs, nodeId);
    hide PurgeFavs, Count, Sort;
    if !Down(env, run.db) {
      PurgeFavsFacts(env, opts, nodeId, specs, Listing(rows, nodeId), run1);
      var r := PurgeFavs(env, opts, specs, Listing(rows, nodeId), run1);
      if ListsFav(specs, number) && Find(rows, key).Some? {
        FindRow(r.db.favs.rows, Find(rows, key).value);
      }
    }
  }

  // ------------------------------------------------------------ both loops

  /** The fate of one number under the node. */
  ghost predicate FavOutcome(purge: bool, specs: seq<FavoriteSpec>, number: string,
                             before: Option<FavRow>, after: Option<FavRow>)
  {
    if ListsFav(specs, number) then FavApplied(specs, number, before, after)
    else after == if purge then None else before
  }

  function FavsForecast(purge: bool, nodeId: nat, specs: seq<FavoriteSpec>, mine: seq<FavRow>): Tally {
    UpsertForecast(nodeId, specs, mine).Plus(ZERO.(deleted := if purge then Count(UnlistedFav(specs), mine) else 0))
  }

  /** Any run over one node's favorites, stopped early or not. */
  lemma ApplyFavoritesFacts(env: Env, opts: Options, purge: bool, nodeId: nat, specs: seq<FavoriteSpec>, run: Run)
    requires Sound(run.db) && run.error == None && !opts.dryRun && FindId(run.db.nodes.rows, nodeId).Some?
    ensures var r := ApplyFavorites(env, opts, purge, nodeId, specs, run);
      && OnlyNode(run, r, nodeId) && FavBalance(r) == FavBalance(run)
      && run.report.favs.Total() <= r.report.favs.Total()
      && (!purge ==> r.report.favs.deleted == run.report.favs.deleted)
      && (Reliable(env) && CheckFavs(specs) == None ==> r.error == None)
  {
    hide UpsertFavs, PurgeAllFavs, Sound, Count, Under;
    var run1 := UpsertFavs(env, opts, nodeId, specs, run);
    UpsertFavsFacts(env, opts, nodeId, specs, specs, run);
    if run1.error == None && purge { PurgeAllFavsFacts(env, opts, nodeId, specs, run1); }
  }

  /** The favorites of the node after a run that finishes. */
  lemma ApplyFavoritesOutcome(env: Env, opts: Options, purge: bool, nodeId: nat, specs: seq<FavoriteSpec>,
                              run: Run, number: string)
    requires Sound(run.db) && run.error == None && !opts.dryRun && FindId(run.db.nodes.rows, nodeId).Some?
    requires ApplyFavorites(env, opts, purge, nodeId, specs, run).error == None
    ensures FavOutcome(purge, specs, number, Find(run.db.favs.rows, FavKey(nodeId, number)),
                       Find(ApplyFavorites(env, opts, purge, nodeId, specs, run).db.favs.rows, FavKey(nodeId, number)))
  {
    hide UpsertFavs, PurgeAllFavs, Sound, Count, Under;
    var run1 := UpsertFavs(env, opts, nodeId, specs, run);
    UpsertFavsFacts(env, opts, nodeId, specs, specs, run);
    if ListsFav(specs, number) { UpsertFavsApplied(env, opts, nodeId, specs, run, number); }
    if purge { PurgeAllFavsFind(env, opts, nodeId, specs, run1, number); }
  }

  /** Nothing is purged before every listed favorite is there. */
  lemma FavoritesPurgedLast(env: Env, opts: Options, purge: bool, nodeId: nat, specs: seq<FavoriteSpec>,
                            run: Run, f: FavoriteSpec)
    requires Sound(run.db) && run.error == None && !opts.dryRun && FindId(run.db.nodes.rows, nodeId).Some?
    requires f in specs
    ensures var r := ApplyFavorites(env, opts, purge, nodeId, specs, run);
      r.report.favs.deleted > run.report.favs.deleted ==> Find(r.db.favs.rows, FavKey(nodeId, f.number)).Some?
  {
    hide UpsertFavs, PurgeAllFavs, Sound, Count, Under;
    var run1 := UpsertFavs(env, opts, nodeId, specs, run);
    UpsertFavsFacts(env, opts, nodeId, specs, specs, run);
    if run1.error == None && purge {
      UpsertFavsApplied(env, opts, nodeId, specs, run, f.number);
      PurgeAllFavsFind(env, opts, nodeId, specs, run1, f.number);
    }
  }

  /** The real report, when no number is listed twice. */
  lemma ApplyFavoritesReport(env: Env, opts: Options, purge: bool, nodeId: nat, specs: seq<FavoriteSpec>, run: Run)
    requires Sound(run.db) && run.error == None && !opts.dryRun && FindId(run.db.nodes.rows, nodeId).Some?
    requires DistinctFavs(specs) && ApplyFavorites(env, opts, purge, nodeId, specs, run).error == None
    ensures ApplyFavorites(env, opts, purge, nodeId, specs, run).report.favs
         == run.report.favs.Plus(FavsForecast(purge, nodeId, specs, Under(run.db.favs.rows, nodeId)))
  {
    hide ApplyFavorites, UpsertFavs, PurgeAllFavs, Sound, Count, Under, CheckFavs, DistinctFavs, UpsertForecast,
         UnlistedFav, Find, Tally.Plus, Tally.Total;
    FavsPhaseIs(env, opts, purge, nodeId, specs, run);
    var mine := Under(run.db.favs.rows, nodeId);
    var run1 := UpsertFavs(env, opts, nodeId, specs, run);
    UpsertFavsFacts(env, opts, nodeId, specs, specs, run);
    forall f | f in specs { FindUnder(run.db.favs.rows, nodeId, f.number); }
    UpsertFavsReport(env, opts, nodeId, specs, run, mine);
    var n := if purge then Count(UnlistedFav(specs), mine) else 0;
    PlusNothing(run.report.favs, UpsertForecast(nodeId, specs, mine), ZERO.(deleted := n));
    if purge {
      var r := PurgeAllFavs(env, opts, nodeId, specs, run1);
      PurgeAllFavsFacts(env, opts, nodeId, specs, run1);
      PlusDeleted(run1.report.favs, r.report.favs, n);
    }
  }

  lemma PlusDeleted(a: Tally, b: Tally, n: nat)
    requires b == a.(deleted := a.deleted + n)
    ensures b == a.Plus(ZERO.(deleted := n))
  {
  }

  /** The dry run changes no table and foretells the same report. */
  lemma ApplyFavoritesDry(env: Env, opts: Options, purge: bool, nodeId: nat, specs: seq<FavoriteSpec>, run: Run)
    requires run.error == None && opts.dryRun
    ensures var r := ApplyFavorites(env, opts, purge, nodeId, specs, run);
      && SameTables(r.db, run.db) && OnlyFavs(run, r) && (Reliable(env) && CheckFavs(specs) == None ==> r.error == None)
      && (r.error == None ==>
            r.report.favs == run.report.favs.Plus(FavsForecast(purge, nodeId, specs, Under(run.db.favs.rows, nodeId))))
  {
    hide ApplyFavorites, UpsertFavs, PurgeAllFavs, PurgeFavs, CheckFavs, Count, Under, Sort, UpsertForecast, Tally.Plus;
    UpsertFavsDry(env, opts, nodeId, specs, run);
    var run1 := UpsertFavs(env, opts, nodeId, specs, run);
    FavsPhaseIs(env, opts, purge, nodeId, specs, run);
    if run1.error == None {
      if purge { PurgeAllFavsDry(env, opts, nodeId, specs, run1); }
      var mine := Under(run.db.favs.rows, nodeId);
      PlusNothing(run.report.favs, UpsertForecast(nodeId, specs, mine),
                  ZERO.(deleted := if purge then Count(UnlistedFav(specs), mine) else 0));
    }
  }

  lemma PlusNothing(a: Tally, b: Tally, c: Tally)
    ensures a.Plus(b.Plus(c)) == a.Plus(b).Plus(c)
    ensures c == ZERO ==> b.Plus(c) == b && ZERO.(deleted := 0) == ZERO
  {
  }

  lemma PurgeAllFavsDry(env: Env, opts: Options, nodeId: nat, specs: seq<FavoriteSpec>, run: Run)
    requires run.error == None && opts.dryRun
    ensures var r := PurgeAllFavs(env, opts, nodeId, specs, run);
      && SameTables(r.db, run.db) && OnlyFavs(run, r) && (Reliable(env) ==> r.error == None)
      && (r.error == None ==>
            r.report.favs ==
            run.report.favs.Plus(ZERO.(deleted := Count(UnlistedFav(specs), Under(run.db.favs.rows, nodeId)))))
  {
    hide PurgeAllFavs, PurgeFavs, Count, Under, Sort, Tally.Plus, UnlistedFav;
    FavPurgeIs(env, opts, nodeId, specs, run);
    CountSort(UnlistedFav(specs), FavBefore, Under(run.db.favs.rows, nodeId));
    if !Down(env, run.db) {
      PurgeFavsDry(env, opts, specs, Listing(run.db.favs.rows, nodeId), run.(db := Tick(run.db)));
    }
  }
}
