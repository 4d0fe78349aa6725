/** The node purge, whose deletions cascade to favorites. */
module NodePurgeLaws {
  import opened Wrappers
  import opened Tables
  import opened Sorting
  import opened Sql
  import opened ApplySpec
  import opened UserPurgeLaws
  import opened FavLaws
  import opened NodeLaws

  function UnlistedNode(specs: seq<NodeSpec>): NodeRow -> bool {
    (x: NodeRow) => !ListsNode(specs, x.key)
  }

  /** Favorites whose node is not among these rows. */
  function Orphaned(nodes: seq<NodeRow>): FavRow -> bool {
    (f: FavRow) => FindId(nodes, f.key.nodeId).None?
  }

  /** One cascade: the favorites it removes are orphans of every later state of the nodes table. */
  lemma {:induction false} CascadeCount(rows: seq<FavRow>, id: nat, nodes: seq<NodeRow>)
    requires FindId(nodes, id).None?
    ensures Count(Orphaned(nodes), rows) + |NotUnder(rows, id)| == Count(Orphaned(nodes), NotUnder(rows, id)) + |rows|
  {
    if rows != [] {
      CascadeCount(rows[1..], id, nodes);
      if rows[0].key.nodeId != id {
        assert NotUnder(rows, id)[1..] == NotUnder(rows[1..], id);
      }
    }
  }

  lemma DeletedNode(db: Db, row: NodeRow, db': Db)
    requires Consistent(db) && row in db.nodes.rows
    requires db' == Tick(db).(nodes := Delete(db.nodes, row.id), favs := db.favs.(rows := NotUnder(db.favs.rows, row.id)))
    ensures Consistent(db') && |db'.nodes.rows| == |db.nodes.rows| - 1
    ensures forall x :: x in db'.nodes.rows <==> x in db.nodes.rows && x != row
    ensures forall id :: FindId(db'.nodes.rows, id).Some? <==> FindId(db.nodes.rows, id).Some? && id != row.id
    ensures forall id :: id != row.id ==> Under(db'.favs.rows, id) == Under(db.favs.rows, id)
  {
    DeleteFacts(db.nodes, row);
    UnderDistinct(db.favs.rows, row.id);
    forall id | id != row.id { UnderNotUnder(db.favs.rows, row.id, id); }
    forall id ensures FindId(db'.nodes.rows, id).Some? <==> FindId(db.nodes.rows, id).Some? && id != row.id {
      if FindId(db.nodes.rows, id).Some? && id != row.id {
        assert FindId(db.nodes.rows, id).value in db'.nodes.rows;
      }
    }
  }

  /** One pass of the purge loop: it keeps the tables, or deletes exactly this unlisted node. */
  lemma PurgeNodeFacts(env: Env, opts: Options, specs: seq<NodeSpec>, row: NodeRow, run: Run)
    requires Consistent(run.db) && run.error == None && !opts.dryRun && row in run.db.nodes.rows
    ensures var r := PurgeNode(env, opts, specs, row, run);
      && r.db.users == run.db.users && r.report.users == run.report.users && r.report.favs == run.report.favs
      && (if r.error.Some? || ListsNode(specs, row.key) then SameTables(run.db, r.db) && r.report == run.report
          else && r.report.nodes == run.report.nodes.OneDeleted()
               && r.db == Tick(run.db).(nodes := Delete(run.db.nodes, row.id),
                                        favs := run.db.favs.(rows := NotUnder(run.db.favs.rows, row.id))))
      && (Reliable(env) ==> r.error == None)
  {
  }

  /** Every state the purge loop reaches from `a`. */
  ghost predicate Purged(a: Db, b: Db) {
    && Consistent(b) && b.users == a.users
    && (forall x :: x in b.nodes.rows ==> x in a.nodes.rows)
    && (forall id :: FindId(b.nodes.rows, id).Some? ==> FindId(a.nodes.rows, id).Some?)
    && (forall f :: f in b.favs.rows <==> f in a.favs.rows && FindId(b.nodes.rows, f.key.nodeId).Some?)
    && (forall id :: FindId(b.nodes.rows, id).Some? ==> Under(b.favs.rows, id) == Under(a.favs.rows, id))
    && |b.favs.rows| == |a.favs.rows| - Count(Orphaned(b.nodes.rows), a.favs.rows)
  }

  lemma PurgedRefl(a: Db, b: Db)
    requires Consistent(a) && SameTables(a, b)
    ensures Purged(a, b)
  {
    CountPositive(Orphaned(b.nodes.rows), a.favs.rows);
  }

  lemma PurgedStep(a: Db, row: NodeRow, mid: Db, b: Db)
    requires Consistent(a) && row in a.nodes.rows
    requires mid == Tick(a).(nodes := Delete(a.nodes, row.id), favs := a.favs.(rows := NotUnder(a.favs.rows, row.id)))
    requires Purged(mid, b)
    ensures Purged(a, b)
  {
    DeletedNode(a, row, mid);
    CascadeCount(a.favs.rows, row.id, b.nodes.rows);
  }

  /** Any real run of the purge loop, stopped early or not. */
  lemma {:induction false} PurgeNodesFacts(env: Env, opts: Options, specs: seq<NodeSpec>, listing: seq<NodeRow>, run: Run)
    requires Consistent(run.db) && run.error == None && !opts.dryRun
    requires DistinctIds(listing) && forall x :: x in listing ==> x in run.db.nodes.rows
    ensures var r := PurgeNodes(env, opts, specs, listing, run);
      && Purged(run.db, r.db) && NodeBalance(r) == NodeBalance(run)
      && r.report.users == run.report.users && r.report.favs == run.report.favs
      && r.report.nodes == run.report.nodes.(deleted := r.report.nodes.deleted)
      && run.report.nodes.deleted <= r.report.nodes.deleted
      && (r.report.nodes.deleted == run.report.nodes.deleted ==> SameTables(run.db, r.db))
      && (Reliable(env) ==> r.error == None)
    decreases listing
  {
    hide Consistent, Purged, Orphaned;
    if listing == [] {
      PurgedRefl(run.db, run.db);
    } else {
      var row := listing[0];
      var run1 := PurgeNode(env, opts, specs, row, run);
      PurgeNodeFacts(env, opts, specs, row, run);
      TailRows(listing);
      if run1.error.Some? {
        PurgedRefl(run.db, run1.db);
      } else if ListsNode(specs, row.key) {
        PurgeNodesFacts(env, opts, specs, listing[1..], run1);
      } else {
        DeletedNode(run.db, row, run1.db);
        PurgeNodesFacts(env, opts, specs, listing[1..], run1);
        PurgedStep(run.db, row, run1.db, PurgeNodes(env, opts, specs, listing[1..], run1).db);
      }
    }
  }

  /** What the purge loop leaves: listed nodes and nodes outside the listing, and when it finishes nothing else. */
  lemma {:induction false} PurgeNodesLeaves(env: Env, opts: Options, specs: seq<NodeSpec>, listing: seq<NodeRow>,
                                            run: Run, x: NodeRow)
    requires Consistent(run.db) && run.error == None && !opts.dryRun && x in run.db.nodes.rows
    requires DistinctIds(listing) && forall y :: y in listing ==> y in run.db.nodes.rows
    ensures var r := PurgeNodes(env, opts, specs, listing, run);
      && (ListsNode(specs, x.key) || x !in listing ==> x in r.db.nodes.rows)
      && (r.error == None && !ListsNode(specs, x.key) && x in listing ==> x !in r.db.nodes.rows)
      && (r.error == None ==>
            r.report.nodes.deleted == run.report.nodes.deleted + Count(UnlistedNode(specs), listing))
    decreases listing
  {
    if listing != [] {
      var row := listing[0];
      var run1 := PurgeNode(env, opts, specs, row, run);
      PurgeNodeFacts(env, opts, specs, row, run);
      TailRows(listing);
      hide PurgeNode, Consistent, Purged;
      if run1.error == None {
        if ListsNode(specs, row.key) {
          PurgeNodesLeaves(env, opts, specs, listing[1..], run1, x);
        } else {
          DeletedNode(run.db, row, run1.db);
          if x == row {
            PurgeNodesFacts(env, opts, specs, listing[1..], run1);
            PurgedNodes(run1.db, PurgeNodes(env, opts, specs, listing[1..], run1).db);
            PurgeNodesCount(env, opts, specs, listing[1..], run1);
          } else {
            PurgeNodesLeaves(env, opts, specs, listing[1..], run1, x);
          }
        }
      }
    }
  }

  /** Duplicates do not appear. */
  lemma PurgedSound(a: Db, b: Db)
    requires Sound(a) && Purged(a, b)
    ensures Sound(b)
  {
  }

  lemma PurgedNodes(a: Db, b: Db)
    requires Purged(a, b)
    ensures forall x :: x in b.nodes.rows ==> x in a.nodes.rows
  {
  }

  lemma {:induction false} PurgeNodesCount(env: Env, opts: Options, specs: seq<NodeSpec>, listing: seq<NodeRow>, run: Run)
    requires run.error == None
    ensures var r := PurgeNodes(env, opts, specs, listing, run);
      && (r.error == None ==>
            r.report == run.report.(nodes := run.report.nodes.Plus(ZERO.(deleted := Count(UnlistedNode(specs), listing)))))
      && (opts.dryRun ==> r.db == run.db && r.error == None)
    decreases listing
  {
    if listing != [] {
      var run1 := PurgeNode(env, opts, specs, listing[0], run);
      if run1.error == None { PurgeNodesCount(env, opts, specs, listing[1..], run1); }
    }
  }
}
