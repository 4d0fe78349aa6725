/**
 When a listed node is settled: its row and its favorites are as its entry says.
 A pass settles its node, keeps the nodes settled whose entries agree with it, and
 is quiet exactly on a settled node.
 */
module SettledLaws {
  import opened Wrappers
  import opened Tables
  import opened Sorting
  import opened Sql
  import opened ApplySpec
  import opened UserPurgeLaws
  import opened FavLaws
  import opened FavPhaseLaws
  import opened NodeLaws

  ghost predicate FavSettled(f: FavoriteSpec, nodeId: nat, rows: seq<FavRow>) {
    var r := Find(rows, FavKey(nodeId, f.number));
    r.Some? && Matches(f, r.value.value)
  }

  ghost predicate FavsSettled(purge: bool, specs: seq<FavoriteSpec>, nodeId: nat, rows: seq<FavRow>) {
    && (forall f :: f in specs ==> FavSettled(f, nodeId, rows))
    && (purge ==> forall n :: !ListsFav(specs, n) ==> Find(rows, FavKey(nodeId, n)) == None)
  }

  ghost predicate NodeSettled(purge: bool, spec: NodeSpec, db: Db) {
    var row := Find(db.nodes.rows, spec.number);
    && row.Some? && NodeMatches(spec, row.value.value)
    && FavsSettled(purge, spec.favorites, row.value.id, db.favs.rows)
  }

  // ------------------------------------------------------------- agreement

  predicate AgreeFav(f: FavoriteSpec, g: FavoriteSpec) {
    f.number == g.number ==>
      && f.callsign == g.callsign && f.description == g.description && f.location == g.location
      && GroupNamed(f) == GroupNamed(g)
  }

  /** Two entries do not contradict each other: trivially so when their numbers differ. */
  ghost predicate AgreeNode(purge: bool, s: NodeSpec, t: NodeSpec) {
    s.number == t.number ==>
      && (forall v: Node :: NodeMatches(s, v) <==> NodeMatches(t, v))
      && (forall f, g :: f in s.favorites && g in t.favorites ==> AgreeFav(f, g))
      && (purge ==> forall n :: ListsFav(s.favorites, n) <==> ListsFav(t.favorites, n))
  }

  /** The entries that count: the last one of each number. */
  function LastOnly(specs: seq<FavoriteSpec>): seq<FavoriteSpec> {
    if specs == [] then []
    else if ListsFav(specs[1..], specs[0].number) then LastOnly(specs[1..])
    else [specs[0]] + LastOnly(specs[1..])
  }

  lemma ListsTail(specs: seq<FavoriteSpec>, n: string)
    requires specs != []
    ensures ListsFav(specs, n) <==> n == specs[0].number || ListsFav(specs[1..], n)
  {
    assert forall f :: f in specs <==> f == specs[0] || f in specs[1..];
  }

  lemma {:induction false} LastOnlyLists(specs: seq<FavoriteSpec>, n: string)
    ensures ListsFav(LastOnly(specs), n) <==> ListsFav(specs, n)
  {
    if specs != [] {
      ListsTail(specs, n);
      LastOnlyLists(specs[1..], n);
      if !ListsFav(specs[1..], specs[0].number) {
        ListsTail([specs[0]] + LastOnly(specs[1..]), n);
      }
    }
  }

  lemma {:induction false} LastOnlyLast(specs: seq<FavoriteSpec>, f: FavoriteSpec)
    requires f in LastOnly(specs)
    ensures f in specs && LastFav(specs, f.number) == Some(f)
  {
    if f in LastOnly(specs[1..]) {
      LastOnlyLast(specs[1..], f);
    }
  }

  /** An entry that no later one of its number follows counts. */
  lemma {:induction false} LastOnlyHas(specs: seq<FavoriteSpec>, k: nat)
    requires k < |specs| && forall j :: k < j < |specs| ==> specs[j].number != specs[k].number
    ensures specs[k] in LastOnly(specs)
    decreases specs
  {
    if k == 0 {
      assert forall f :: f in specs[1..] ==> exists j :: 0 < j < |specs| && specs[j] == f;
    } else {
      LastOnlyHas(specs[1..], k - 1);
    }
  }

  function Effective(spec: NodeSpec): NodeSpec {
    spec.(favorites := LastOnly(spec.favorites))
  }

  // -------------------------------------------------------------- settling

  /** A pass that finishes settles its entry. */
  lemma PassSettles(env: Env, opts: Options, purge: bool, spec: NodeSpec, run: Run)
    requires Sound(run.db) && run.error == None && !opts.dryRun
    requires UpsertNode(env, opts, purge, spec, run).error == None
    ensures NodeSettled(purge, Effective(spec), UpsertNode(env, opts, purge, spec, run).db)
    ensures AgreeNode(purge, spec, spec) ==> NodeSettled(purge, spec, UpsertNode(env, opts, purge, spec, run).db)
  {
    hide UpsertNode, Sound, Under;
    UpsertNodeRow(env, opts, purge, spec, run);
    var id := IdOf(run.db, spec.number);
    var rows := UpsertNode(env, opts, purge, spec, run).db.favs.rows;
    forall n ensures FavOutcome(purge, spec.favorites, n, Find(run.db.favs.rows, FavKey(id, n)), Find(rows, FavKey(id, n))) {
      UpsertNodeFavs(env, opts, purge, spec, run, n);
    }
    forall f | f in LastOnly(spec.favorites) ensures f in spec.favorites && LastFav(spec.favorites, f.number) == Some(f) {
      LastOnlyLast(spec.favorites, f);
    }
    forall n ensures ListsFav(LastOnly(spec.favorites), n) <==> ListsFav(spec.favorites, n) {
      LastOnlyLists(spec.favorites, n);
    }
    assert FavsSettled(purge, LastOnly(spec.favorites), id, rows);
    if AgreeNode(purge, spec, spec) {
      forall f | f in spec.favorites ensures FavSettled(f, id, rows) {
        assert AgreeFav(f, LastFav(spec.favorites, f.number).value);
      }
    }
  }

  /** A pass over the same number keeps an agreeing entry's favorites settled. */
  lemma OutcomeKeepsFavs(purge: bool, s: seq<FavoriteSpec>, t: seq<FavoriteSpec>, id: nat,
                         before: seq<FavRow>, after: seq<FavRow>)
    requires FavsSettled(purge, s, id, before)
    requires forall n :: FavOutcome(purge, t, n, Find(before, FavKey(id, n)), Find(after, FavKey(id, n)))
    requires forall f, g :: f in s && g in t ==> AgreeFav(f, g)
    requires purge ==> forall n :: ListsFav(s, n) <==> ListsFav(t, n)
    ensures FavsSettled(purge, s, id, after)
  {
    forall f | f in s ensures FavSettled(f, id, after) {
      assert FavSettled(f, id, before);
      assert FavOutcome(purge, t, f.number, Find(before, FavKey(id, f.number)), Find(after, FavKey(id, f.number)));
      if ListsFav(t, f.number) { assert AgreeFav(f, LastFav(t, f.number).value); }
    }
  }

  /** A pass keeps settled every entry that agrees with its own. */
  lemma PassKeeps(env: Env, opts: Options, purge: bool, spec: NodeSpec, run: Run, s: NodeSpec)
    requires Sound(run.db) && run.error == None && !opts.dryRun
    requires UpsertNode(env, opts, purge, spec, run).error == None
    requires NodeSettled(purge, s, run.db) && AgreeNode(purge, s, spec)
    ensures NodeSettled(purge, s, UpsertNode(env, opts, purge, spec, run).db)
  {
    hide UpsertNode, Sound, Under, Find, AgreeFav;
    var row := Find(run.db.nodes.rows, s.number).value;
    if s.number != spec.number { OtherId(run.db, row, spec.number); }
    UpsertNodeFacts(env, opts, purge, spec, run);
    UpsertNodeRow(env, opts, purge, spec, run);
    var r := UpsertNode(env, opts, purge, spec, run);
    if s.number == spec.number {
      forall n ensures FavOutcome(purge, spec.favorites, n, Find(run.db.favs.rows, FavKey(row.id, n)),
                                  Find(r.db.favs.rows, FavKey(row.id, n))) {
        UpsertNodeFavs(env, opts, purge, spec, run, n);
      }
      OutcomeKeepsFavs(purge, s.favorites, spec.favorites, row.id, run.db.favs.rows, r.db.favs.rows);
    } else {
      assert forall f :: f in s.favorites ==> FavSettled(f, row.id, run.db.favs.rows);
    }
  }

  /** Another node's id is not the one a number has or would get. */
  lemma OtherId(db: Db, row: NodeRow, number: string)
    requires Sound(db) && row in db.nodes.rows && row.key != number
    ensures row.id != IdOf(db, number)
  {
    match Find(db.nodes.rows, number)
    case Some(x) => if x.id == row.id { SameIdSameRow(db.nodes.rows, x, row); }
    case None =>
  }

  // ------------------------------------------------------------- quietness

  /** The favorites of a settled node draw no change and no count. */
  lemma {:induction false} UpsertFavsQuiet(env: Env, opts: Options, nodeId: nat, specs: seq<FavoriteSpec>, run: Run)
    requires run.error == None && forall f :: f in specs ==> FavSettled(f, nodeId, run.db.favs.rows)
    ensures var r := UpsertFavs(env, opts, nodeId, specs, run);
      SameTables(run.db, r.db) && r.report == run.report && (Reliable(env) ==> r.error == None)
    decreases specs
  {
    if specs != [] {
      assert specs[0] in specs;
      assert FavSettled(specs[0], nodeId, run.db.favs.rows);
      var run1 := UpsertFav(env, opts, nodeId, specs[0], run);
      assert SameTables(run.db, run1.db) && run1.report == run.report && (Reliable(env) ==> run1.error == None);
      if run1.error == None { UpsertFavsQuiet(env, opts, nodeId, specs[1..], run1); }
    }
  }

  lemma {:induction false} PurgeFavsQuiet(env: Env, opts: Options, specs: seq<FavoriteSpec>, listing: seq<FavRow>, run: Run)
    requires forall x :: x in listing ==> ListsFav(specs, x.key.number)
    ensures PurgeFavs(env, opts, specs, listing, run) == run
    decreases listing
  {
    if listing != [] && run.error == None {
      assert listing[0] in listing;
      PurgeFavsQuiet(env, opts, specs, listing[1..], run);
    }
  }

  lemma ApplyFavoritesQuiet(env: Env, opts: Options, purge: bool, nodeId: nat, specs: seq<FavoriteSpec>, run: Run)
    requires run.error == None && FavsSettled(purge, specs, nodeId, run.db.favs.rows)
    ensures var r := ApplyFavorites(env, opts, purge, nodeId, specs, run);
      && SameTables(run.db, r.db) && r.report == run.report
      && (Reliable(env) && CheckFavs(specs) == None ==> r.error == None)
  {
    UpsertFavsQuiet(env, opts, nodeId, specs, run);
    hide UpsertFavs, PurgeFavs, Under;
    var run1 := UpsertFavs(env, opts, nodeId, specs, run);
    if run1.error == None && purge && !Down(env, run1.db) {
      var listing := Listing(run1.db.favs.rows, nodeId);
      forall x | x in listing ensures ListsFav(specs, x.key.number) {
        assert x.key == FavKey(nodeId, x.key.number);
      }
      PurgeFavsQuiet(env, opts, specs, listing, run1.(db := Tick(run1.db)));
    }
  }

  /** A settled node draws no change and no count, in a real or a dry run. */
  lemma PassQuiet(env: Env, opts: Options, purge: bool, spec: NodeSpec, run: Run)
    requires run.error == None && NodeSettled(purge, spec, run.db)
    ensures var r := UpsertNode(env, opts, purge, spec, run);
      && SameTables(run.db, r.db) && r.report == run.report
      && (Reliable(env) && CheckFavs(spec.favorites) == None ==> r.error == None)
  {
    hide ApplyFavorites, Wanted, NodeChanged, NodeMatches, FavsSettled;
    if !Down(env, run.db) {
      var row := Find(run.db.nodes.rows, spec.number).value;
      WantedMatches(spec, row.value);
      ApplyFavoritesQuiet(env, opts, purge, row.id, spec.favorites, run.(db := Tick(run.db)));
    }
  }

  /** A loop over favorites that finishes without a count found each of them settled. */
  lemma {:induction false} UpsertFavsUncounted(env: Env, opts: Options, nodeId: nat, specs: seq<FavoriteSpec>, run: Run)
    requires Sound(run.db) && run.error == None && !opts.dryRun && FindId(run.db.nodes.rows, nodeId).Some?
    requires var r := UpsertFavs(env, opts, nodeId, specs, run);
      r.error == None && r.report.favs.Total() == run.report.favs.Total()
    ensures UpsertFavs(env, opts, nodeId, specs, run).db.favs == run.db.favs
    ensures forall f :: f in specs ==> FavSettled(f, nodeId, run.db.favs.rows)
    decreases specs
  {
    hide UpsertFav, Sound, Under;
    if specs != [] {
      var run1 := UpsertFav(env, opts, nodeId, specs[0], run);
      UpsertFavFacts(env, opts, nodeId, specs[0], run);
      UpsertFavsFacts(env, opts, nodeId, specs[1..], specs[1..], run1);
      UpsertFavsUncounted(env, opts, nodeId, specs[1..], run1);
      assert FavSettled(specs[0], nodeId, run.db.favs.rows);
    }
  }

  lemma ApplyFavoritesUncounted(env: Env, opts: Options, purge: bool, nodeId: nat, specs: seq<FavoriteSpec>, run: Run)
    requires Sound(run.db) && run.error == None && !opts.dryRun && FindId(run.db.nodes.rows, nodeId).Some?
    requires var r := ApplyFavorites(env, opts, purge, nodeId, specs, run);
      r.error == None && r.report.favs.Total() == run.report.favs.Total()
    ensures ApplyFavorites(env, opts, purge, nodeId, specs, run).db.favs == run.db.favs
    ensures FavsSettled(purge, specs, nodeId, run.db.favs.rows)
  {
    hide UpsertFavs, PurgeAllFavs, Sound, Under, Count;
    var run1 := UpsertFavs(env, opts, nodeId, specs, run);
    UpsertFavsFacts(env, opts, nodeId, specs, specs, run);
    if purge { PurgeAllFavsFacts(env, opts, nodeId, specs, run1); }
    UpsertFavsUncounted(env, opts, nodeId, specs, run);
    if purge {
      forall n | !ListsFav(specs, n) ensures Find(run.db.favs.rows, FavKey(nodeId, n)) == None {
        PurgeAllFavsFind(env, opts, nodeId, specs, run1, n);
      }
    }
  }

  /** A pass that finishes without a count found its node settled. */
  lemma PassUncounted(env: Env, opts: Options, purge: bool, spec: NodeSpec, run: Run)
    requires Sound(run.db) && run.error == None && !opts.dryRun
    requires var r := UpsertNode(env, opts, purge, spec, run);
      r.error == None && r.report.Total() == run.report.Total()
    ensures SameTables(run.db, UpsertNode(env, opts, purge, spec, run).db)
    ensures NodeSettled(purge, spec, run.db)
  {
    hide RowRun, UpsertNode, ApplyFavorites, Sound, Under, NodeMatches, FavsSettled;
    var run1 := RowRun(env, opts, spec, run);
    RowRunFacts(env, opts, spec, run);
    UpsertNodeSplit(env, opts, purge, spec, run);
    RowExists(spec, run, run1);
    UpsertNodeFacts(env, opts, purge, spec, run);
    var id := IdOf(run.db, spec.number);
    ApplyFavoritesFacts(env, opts, purge, id, spec.favorites, run1);
    ApplyFavoritesUncounted(env, opts, purge, id, spec.favorites, run1);
  }
}
