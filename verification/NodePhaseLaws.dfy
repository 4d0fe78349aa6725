/** The nodes phase of an apply run: the loop over the listed nodes, and the purge with its cascade. */
module NodePhaseLaws {
  import opened Wrappers
  import opened Tables
  import opened Sql
  import opened ApplySpec
  import opened UserPurgeLaws
  import opened FavLaws
  import opened FavPhaseLaws
  import opened NodeLaws
  import opened SettledLaws

  /** Any real run of the loop over the listed nodes, stopped early or not. */
  lemma {:induction false} UpsertNodesFacts(env: Env, opts: Options, purge: bool, specs: seq<NodeSpec>, run: Run)
    requires Sound(run.db) && run.error == None && !opts.dryRun
    ensures var r := UpsertNodes(env, opts, purge, specs, run);
      && Sound(r.db) && r.db.users == run.db.users && r.report.users == run.report.users
      && NodeBalance(r) == NodeBalance(run) && FavBalance(r) == FavBalance(run)
      && r.report.nodes.deleted == run.report.nodes.deleted
      && (!purge ==> r.report.favs.deleted == run.report.favs.deleted)
      && run.report.Total() <= r.report.Total()
      && (forall k :: !ListsNode(specs, k) ==> Find(r.db.nodes.rows, k) == Find(run.db.nodes.rows, k))
      && (Reliable(env) && (forall s :: s in specs ==> CheckFavs(s.favorites) == None) ==> r.error == None)
    decreases specs
  {
    hide UpsertNode, Sound, Under, CheckFavs;
    if specs != [] {
      var run1 := UpsertNode(env, opts, purge, specs[0], run);
      UpsertNodeFacts(env, opts, purge, specs[0], run);
      assert specs[0] in specs;
      assert forall k :: ListsNode(specs[1..], k) ==> ListsNode(specs, k);
      if run1.error == None { UpsertNodesFacts(env, opts, purge, specs[1..], run1); }
    }
  }

  /** A node that was there keeps its id; an unlisted one keeps its row and its favorites. */
  lemma {:induction false} UpsertNodesKeeps(env: Env, opts: Options, purge: bool, specs: seq<NodeSpec>, run: Run, x: NodeRow)
    requires Sound(run.db) && run.error == None && !opts.dryRun && Find(run.db.nodes.rows, x.key) == Some(x)
    ensures var r := UpsertNodes(env, opts, purge, specs, run);
      && Find(r.db.nodes.rows, x.key).Some? && Find(r.db.nodes.rows, x.key).value.id == x.id
      && (!ListsNode(specs, x.key) ==>
            && Find(r.db.nodes.rows, x.key) == Some(x)
            && Under(r.db.favs.rows, x.id) == Under(run.db.favs.rows, x.id))
    decreases specs
  {
    hide UpsertNode, Sound, Under, Find;
    if specs != [] {
      if x.key != specs[0].number { OtherId(run.db, x, specs[0].number); }
      var run1 := UpsertNode(env, opts, purge, specs[0], run);
      UpsertNodeFacts(env, opts, purge, specs[0], run);
      assert specs[0] in specs;
      assert ListsNode(specs[1..], x.key) ==> ListsNode(specs, x.key);
      if run1.error == None {
        UpsertNodesKeeps(env, opts, purge, specs[1..], run1, Find(run1.db.nodes.rows, x.key).value);
      }
    }
  }

  /** A loop that finishes leaves a row under every listed number. */
  lemma {:induction false} LoopFinds(env: Env, opts: Options, purge: bool, specs: seq<NodeSpec>, run: Run, number: string)
    requires Sound(run.db) && run.error == None && !opts.dryRun
    requires UpsertNodes(env, opts, purge, specs, run).error == None
    ensures ListsNode(specs, number) || Find(run.db.nodes.rows, number).Some? ==>
            Find(UpsertNodes(env, opts, purge, specs, run).db.nodes.rows, number).Some?
    decreases specs
  {
    hide UpsertNode, Sound, Under, Find;
    if specs != [] {
      var run1 := UpsertNode(env, opts, purge, specs[0], run);
      UpsertNodeFacts(env, opts, purge, specs[0], run);
      UpsertNodeRow(env, opts, purge, specs[0], run);
      assert forall s :: s in specs <==> s == specs[0] || s in specs[1..];
      LoopFinds(env, opts, purge, specs[1..], run1, number);
    }
  }

  // -------------------------------------------------------------- settling

  lemma {:induction false} LoopKeeps(env: Env, opts: Options, purge: bool, specs: seq<NodeSpec>, run: Run, s: NodeSpec)
    requires Sound(run.db) && run.error == None && !opts.dryRun
    requires UpsertNodes(env, opts, purge, specs, run).error == None
    requires NodeSettled(purge, s, run.db) && forall t :: t in specs ==> AgreeNode(purge, s, t)
    ensures NodeSettled(purge, s, UpsertNodes(env, opts, purge, specs, run).db)
    decreases specs
  {
    hide UpsertNode, Sound, NodeSettled, AgreeNode;
    if specs != [] {
      assert specs[0] in specs;
      UpsertNodeFacts(env, opts, purge, specs[0], run);
      PassKeeps(env, opts, purge, specs[0], run, s);
      LoopKeeps(env, opts, purge, specs[1..], UpsertNode(env, opts, purge, specs[0], run), s);
    }
  }

  /** A loop that finishes settles each entry that no later entry contradicts. */
  lemma {:induction false} LoopSettles(env: Env, opts: Options, purge: bool, specs: seq<NodeSpec>, run: Run, i: nat)
    requires Sound(run.db) && run.error == None && !opts.dryRun && i < |specs|
    requires UpsertNodes(env, opts, purge, specs, run).error == None
    ensures (forall j :: i < j < |specs| ==> specs[j].number != specs[i].number) ==>
      NodeSettled(purge, Effective(specs[i]), UpsertNodes(env, opts, purge, specs, run).db)
    ensures (forall j :: i <= j < |specs| ==> AgreeNode(purge, specs[i], specs[j])) ==>
      NodeSettled(purge, specs[i], UpsertNodes(env, opts, purge, specs, run).db)
    decreases specs
  {
    hide UpsertNode, Sound, NodeSettled;
    var run1 := UpsertNode(env, opts, purge, specs[0], run);
    UpsertNodeFacts(env, opts, purge, specs[0], run);
    if i > 0 {
      LoopSettles(env, opts, purge, specs[1..], run1, i - 1);
    } else {
      PassSettles(env, opts, purge, specs[0], run);
      if forall j :: 0 < j < |specs| ==> specs[j].number != specs[0].number {
        LoopKeeps(env, opts, purge, specs[1..], run1, Effective(specs[0]));
      }
      if forall j :: 0 <= j < |specs| ==> AgreeNode(purge, specs[0], specs[j]) {
        LoopKeeps(env, opts, purge, specs[1..], run1, specs[0]);
      }
    }
  }

  ghost predicate AllSettled(purge: bool, specs: seq<NodeSpec>, db: Db) {
    forall s :: s in specs ==> NodeSettled(purge, s, db)
  }

  lemma {:induction false} LoopQuiet(env: Env, opts: Options, purge: bool, specs: seq<NodeSpec>, run: Run)
    requires run.error == None && AllSettled(purge, specs, run.db)
    ensures var r := UpsertNodes(env, opts, purge, specs, run);
      && SameTables(run.db, r.db) && r.report == run.report
      && (Reliable(env) && (forall s :: s in specs ==> CheckFavs(s.favorites) == None) ==> r.error == None)
    decreases specs
  {
    hide UpsertNode, FavsSettled, CheckFavs;
    if specs != [] {
      assert specs[0] in specs;
      PassQuiet(env, opts, purge, specs[0], run);
      var run1 := UpsertNode(env, opts, purge, specs[0], run);
      forall s | s in specs[1..] ensures NodeSettled(purge, s, run1.db) {
        assert s in specs && NodeSettled(purge, s, run.db);
      }
      if run1.error == None { LoopQuiet(env, opts, purge, specs[1..], run1); }
    }
  }

  lemma {:induction false} LoopUncounted(env: Env, opts: Options, purge: bool, specs: seq<NodeSpec>, run: Run)
    requires Sound(run.db) && run.error == None && !opts.dryRun
    requires var r := UpsertNodes(env, opts, purge, specs, run); r.error == None && r.report.Total() == run.report.Total()
    ensures SameTables(run.db, UpsertNodes(env, opts, purge, specs, run).db)
    ensures AllSettled(purge, specs, run.db)
    decreases specs
  {
    hide UpsertNode, FavsSettled, Sound, Under;
    if specs != [] {
      var run1 := UpsertNode(env, opts, purge, specs[0], run);
      UpsertNodeFacts(env, opts, purge, specs[0], run);
      UpsertNodesFacts(env, opts, purge, specs[1..], run1);
      PassUncounted(env, opts, purge, specs[0], run);
      LoopUncounted(env, opts, purge, specs[1..], run1);
      forall s | s in specs ensures NodeSettled(purge, s, run.db) {
        if s != specs[0] { assert s in specs[1..] && NodeSettled(purge, s, run1.db); }
      }
    }
  }

  // --------------------------------------------------------------- reports

  ghost predicate DistinctNodes(specs: seq<NodeSpec>) {
    && (forall i, j :: 0 <= i < j < |specs| ==> specs[i].number != specs[j].number)
    && (forall s :: s in specs ==> DistinctFavs(s.favorites))
  }

  function NodesTally(specs: seq<NodeSpec>, db: Db): Tally {
    if specs == [] then ZERO
    else NodeDelta(specs[0], Find(db.nodes.rows, specs[0].number)).Plus(NodesTally(specs[1..], db))
  }

  function FavsTally(opts: Options, purge: bool, specs: seq<NodeSpec>, db: Db): Tally {
    if specs == [] then ZERO
    else FavsOf(opts, purge, specs[0], db).Plus(FavsTally(opts, purge, specs[1..], db))
  }

  /** The entry's node and favorites are in `b` as in `a`. */
  ghost predicate SameNode(s: NodeSpec, a: Db, b: Db) {
    var row := Find(a.nodes.rows, s.number);
    && Find(b.nodes.rows, s.number) == row
    && (row.Some? ==> Under(b.favs.rows, row.value.id) == Under(a.favs.rows, row.value.id))
  }

  lemma {:induction false} LoopReport(env: Env, opts: Options, purge: bool, specs: seq<NodeSpec>, run: Run, db0: Db)
    requires Sound(run.db) && run.error == None && !opts.dryRun && DistinctNodes(specs)
    requires UpsertNodes(env, opts, purge, specs, run).error == None
    requires forall s :: s in specs ==> SameNode(s, db0, run.db)
    ensures var r := UpsertNodes(env, opts, purge, specs, run);
      && r.report.nodes == run.report.nodes.Plus(NodesTally(specs, db0))
      && r.report.favs == run.report.favs.Plus(FavsTally(opts, purge, specs, db0))
    decreases specs
  {
    if specs != [] {
      var s0, run1 := specs[0], UpsertNode(env, opts, purge, specs[0], run);
      assert s0 in specs && SameNode(s0, db0, run.db);
      assert FavsOf(opts, purge, s0, run.db) == FavsOf(opts, purge, s0, db0);
      UpsertNodeFacts(env, opts, purge, s0, run);
      forall s | s in specs[1..] ensures s in specs && SameNode(s, db0, run1.db) {
        LaterNodeSame(env, opts, purge, specs, run, s, db0);
      }
      hide UpsertNode, Sound, Under, FavsOf, SameNode, NodeDelta, NodeMatches;
      UpsertNodeReport(env, opts, purge, s0, run);
      LoopReport(env, opts, purge, specs[1..], run1, db0);
      PlusAssociative(run.report.nodes, NodeDelta(s0, Find(db0.nodes.rows, s0.number)), NodesTally(specs[1..], db0));
      PlusAssociative(run.report.favs, FavsOf(opts, purge, s0, db0), FavsTally(opts, purge, specs[1..], db0));
    }
  }

  lemma LaterNodeSame(env: Env, opts: Options, purge: bool, specs: seq<NodeSpec>, run: Run, s: NodeSpec, db0: Db)
    requires Sound(run.db) && run.error == None && !opts.dryRun && DistinctNodes(specs)
    requires specs != [] && s in specs[1..] && forall t :: t in specs ==> SameNode(t, db0, run.db)
    ensures s in specs && SameNode(s, db0, UpsertNode(env, opts, purge, specs[0], run).db)
  {
    var j :| 0 <= j < |specs[1..]| && specs[1..][j] == s;
    assert specs[j + 1] == s && specs[0].number != specs[j + 1].number;
    assert SameNode(s, db0, run.db);
    var row := Find(run.db.nodes.rows, s.number);
    if row.Some? { OtherId(run.db, row.value, specs[0].number); }
    hide UpsertNode, Sound, Under;
    UpsertNodeFacts(env, opts, purge, specs[0], run);
  }

  lemma {:induction false} LoopDry(env: Env, opts: Options, purge: bool, specs: seq<NodeSpec>, run: Run, db0: Db)
    requires run.error == None && opts.dryRun && SameTables(run.db, db0)
    ensures var r := UpsertNodes(env, opts, purge, specs, run);
      && SameTables(r.db, run.db) && r.report.users == run.report.users
      && (Reliable(env) && (forall s :: s in specs ==> CheckFavs(s.favorites) == None) ==> r.error == None)
      && (r.error == None ==>
            && r.report.nodes == run.report.nodes.Plus(NodesTally(specs, db0))
            && r.report.favs == run.report.favs.Plus(FavsTally(opts, purge, specs, db0)))
    decreases specs
  {
    if specs != [] {
      var s0, run1 := specs[0], UpsertNode(env, opts, purge, specs[0], run);
      assert s0 in specs && FavsOf(opts, purge, s0, run.db) == FavsOf(opts, purge, s0, db0);
      hide UpsertNode, Under, FavsOf, NodeDelta, NodeMatches, CheckFavs;
      UpsertNodeDry(env, opts, purge, s0, run);
      if run1.error == None { LoopDry(env, opts, purge, specs[1..], run1, db0); }
      PlusAssociative(run.report.nodes, NodeDelta(s0, Find(db0.nodes.rows, s0.number)), NodesTally(specs[1..], db0));
      PlusAssociative(run.report.favs, FavsOf(opts, purge, s0, db0), FavsTally(opts, purge, specs[1..], db0));
    }
  }
}
