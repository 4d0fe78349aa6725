/** Importing a favorites.ini into a node, and previewing it. */
module Import {
  import opened Sequences
  import opened Tables
  import opened Sql
  import opened Databases
  import opened Text
  import opened Ini
  import opened FavoriteLists
  import opened FavoriteCopy

  function WillAdd(existing: set<string>, favs: seq<ImportedFav>): nat
    decreases favs
  {
    if favs == [] then 0
    else (if favs[0].number in existing then 0 else 1) + WillAdd(existing, favs[1..])
  }

  /** The numbers an import's listing tells it: its error is ignored, and the rows read so far are used. */
  function Listed(env: Env, db: Db, nodeId: nat): set<string> {
    NumberSet(RowsRead(env, db.clock, Listing(db.favs.rows, nodeId)))
  }

  method ImportPreview(db: Database, nodeId: nat, data: string) returns (total: nat, willAdd: nat, willSkip: nat)
    modifies db`clock
    ensures db.State() == ListFavoritesByNode(db.env, old(db.State()), nodeId).db
    ensures var favs := ParseLines(EMPTY, Lines(data)).favs;
      && total == |favs| && willAdd + willSkip == total
      && willAdd == WillAdd(Listed(db.env, old(db.State()), nodeId), favs)
  {
    var favs := ParseINI(data);
    var listed, _ := db.ListFavoritesByNode(nodeId);
    var existing := NumberSet(listed);
    total, willAdd, willSkip := |favs|, 0, 0;
    for i := 0 to |favs|
      invariant willAdd + willSkip == i && willAdd + WillAdd(existing, favs[i..]) == WillAdd(existing, favs)
    {
      assert favs[i..][1..] == favs[i+1..];
      if favs[i].number in existing { willSkip := willSkip + 1; } else { willAdd := willAdd + 1; }
    }
  }

  /** The favorite a parsed entry becomes: its group is left empty. */
  function AsFav(f: ImportedFav): Fav {
    Fav(f.callsign, f.description, "", "", 0, "", 0)
  }

  /** The import loop: its lookup set never grows, and a failed insert is skipped. */
  function ImportMany(env: Env, db: Db, nodeId: nat, existing: set<string>, favs: seq<ImportedFav>, added: nat): (Db, nat)
    decreases favs
  {
    if favs == [] then (db, added)
    else if favs[0].number in existing then ImportMany(env, db, nodeId, existing, favs[1..], added)
    else
      var reply := CreateFavorite(env, db, FavKey(nodeId, favs[0].number), AsFav(favs[0]));
      ImportMany(env, reply.db, nodeId, existing, favs[1..], if reply.result.Ok? then added + 1 else added)
  }

  function ImportFavs(env: Env, db: Db, nodeId: nat, favs: seq<ImportedFav>): (Db, nat) {
    ImportMany(env, Tick(db), nodeId, Listed(env, db, nodeId), favs, 0)
  }

  lemma ImportStep(env: Env, db: Db, nodeId: nat, existing: set<string>, favs: seq<ImportedFav>, i: nat, added: nat)
    requires i < |favs|
    ensures ImportMany(env, db, nodeId, existing, favs[i..], added) ==
      if favs[i].number in existing then ImportMany(env, db, nodeId, existing, favs[i+1..], added)
      else var reply := CreateFavorite(env, db, FavKey(nodeId, favs[i].number), AsFav(favs[i]));
        ImportMany(env, reply.db, nodeId, existing, favs[i+1..], if reply.result.Ok? then added + 1 else added)
  {
    assert favs[i..][1..] == favs[i+1..];
  }

  lemma {:induction false} ImportManyBound(env: Env, db: Db, nodeId: nat, existing: set<string>,
                                           favs: seq<ImportedFav>, added: nat)
    ensures added <= ImportMany(env, db, nodeId, existing, favs, added).1 <= added + |favs|
    decreases favs
  {
    if favs != [] {
      var reply := CreateFavorite(env, db, FavKey(nodeId, favs[0].number), AsFav(favs[0]));
      ImportManyBound(env, db, nodeId, existing, favs[1..], added);
      ImportManyBound(env, reply.db, nodeId, existing, favs[1..], if reply.result.Ok? then added + 1 else added);
    }
  }

  method ImportFile(db: Database, nodeId: nat, data: string) returns (added: nat, skipped: nat)
    modifies db`clock, db`favs
    ensures var favs := ParseLines(EMPTY, Lines(data)).favs;
      && (db.State(), added) == ImportFavs(db.env, old(db.State()), nodeId, favs)
      && skipped == |favs| - added
  {
    hide Sql.CreateFavorite, ImportMany, ParseLines, Lines, RowsRead, AsFav, IsNodeNumber;
    var favs := ParseINI(data);
    var listed, _ := db.ListFavoritesByNode(nodeId);
    var existing := NumberSet(listed);
    added := 0;
    ghost var start := db.State();
    ImportManyBound(db.env, start, nodeId, existing, favs, 0);
    assert favs[0..] == favs;
    for i := 0 to |favs|
      invariant added <= i
      invariant ImportMany(db.env, start, nodeId, existing, favs, 0)
             == ImportMany(db.env, db.State(), nodeId, existing, favs[i..], added)
    {
      ImportStep(db.env, db.State(), nodeId, existing, favs, i, added);
      if favs[i].number in existing { continue; }
      var created := db.CreateFavorite(FavKey(nodeId, favs[i].number), AsFav(favs[i]));
      if created.Err? { continue; }
      added := added + 1;
    }
    ImportDone(db.env, db.State(), nodeId, existing, favs, added);
    skipped := |favs| - added;
  }

  lemma ImportDone(env: Env, db: Db, nodeId: nat, existing: set<string>, favs: seq<ImportedFav>, added: nat)
    ensures ImportMany(env, db, nodeId, existing, favs[|favs|..], added) == (db, added)
  {
  }

  // ------------------------------------------------------------------ laws

  /** The parsed entries whose number the node lacks, as rows to append. */
  function NewItems(nodeId: nat, existing: set<string>, favs: seq<ImportedFav>): (r: seq<FavRow>)
    ensures |r| == WillAdd(existing, favs)
    decreases favs
  {
    if favs == [] then []
    else if favs[0].number in existing then NewItems(nodeId, existing, favs[1..])
    else [Row(0, FavKey(nodeId, favs[0].number), AsFav(favs[0]))] + NewItems(nodeId, existing, favs[1..])
  }

  /** The new items' numbers are the parsed ones the node lacks. */
  lemma {:induction false} NewItemsNumbers(nodeId: nat, existing: set<string>, favs: seq<ImportedFav>, n: string)
    ensures n in NumberSet(NewItems(nodeId, existing, favs)) <==> n !in existing && exists f :: f in favs && f.number == n
    decreases favs
  {
    if favs != [] {
      NewItemsNumbers(nodeId, existing, favs[1..], n);
      var rest, r := NewItems(nodeId, existing, favs[1..]), NewItems(nodeId, existing, favs);
      assert forall f :: f in favs <==> f == favs[0] || f in favs[1..];
      assert favs[0].number !in existing ==>
        forall x :: x in r <==> x == Row(0, FavKey(nodeId, favs[0].number), AsFav(favs[0])) || x in rest;
    }
  }

  lemma {:induction false} NewItemsDistinct(nodeId: nat, existing: set<string>, favs: seq<ImportedFav>)
    requires DistinctParsed(favs)
    ensures NoRepeats(Numbers(NewItems(nodeId, existing, favs)))
    decreases favs
  {
    if favs != [] {
      NewItemsDistinct(nodeId, existing, favs[1..]);
      var rest := NewItems(nodeId, existing, favs[1..]);
      forall f | f in favs[1..] ensures f.number != favs[0].number {
        var k :| 0 <= k < |favs[1..]| && favs[1..][k] == f;
        assert favs[0].number != favs[k + 1].number;
      }
      forall j | 0 <= j < |rest| ensures rest[j].key.number != favs[0].number {
        assert rest[j] in rest;
        NewItemsNumbers(nodeId, existing, favs[1..], rest[j].key.number);
      }
      var r := NewItems(nodeId, existing, favs);
      if favs[0].number !in existing {
        forall i, j | 0 <= i < j < |r| ensures Numbers(r)[i] != Numbers(r)[j] {
          assert r[j] == rest[j - 1];
          if i > 0 { assert Numbers(rest)[i - 1] != Numbers(rest)[j - 1]; }
        }
      }
    }
  }

  lemma NewItemsFacts(nodeId: nat, existing: set<string>, favs: seq<ImportedFav>)
    requires DistinctParsed(favs)
    ensures var r := NewItems(nodeId, existing, favs);
      && NoRepeats(Numbers(r))
      && (forall n :: n in NumberSet(r) <==> n !in existing && exists f :: f in favs && f.number == n)
  {
    NewItemsDistinct(nodeId, existing, favs);
    forall n { NewItemsNumbers(nodeId, existing, favs, n); }
  }

  /** The new entries whose insert went through. */
  function Created(env: Env, db: Db, nodeId: nat, existing: set<string>, favs: seq<ImportedFav>): seq<FavRow>
    decreases favs
  {
    if favs == [] then []
    else if favs[0].number in existing then Created(env, db, nodeId, existing, favs[1..])
    else
      var reply := CreateFavorite(env, db, FavKey(nodeId, favs[0].number), AsFav(favs[0]));
      (if reply.result.Ok? then [Row(0, FavKey(nodeId, favs[0].number), AsFav(favs[0]))] else [])
      + Created(env, reply.db, nodeId, existing, favs[1..])
  }

  /** No insert of the import fails of itself. */
  ghost predicate CreatesWork(env: Env, db: Db) {
    forall n: nat :: n > db.clock ==> !env.fails(n)
  }

  lemma InsertReply(env: Env, db: Db, key: FavKey, f: Fav)
    ensures var reply := CreateFavorite(env, db, key, f);
      && reply.db.nodes == db.nodes && reply.db.users == db.users && reply.db.clock == db.clock + 1
      && (reply.result.Ok? <==> !Down(env, db) && FindId(db.nodes.rows, key.nodeId).Some?)
      && reply.db.favs == if reply.result.Err? then db.favs else Append(db.favs, key, f)
  {
    hide FindId, NextPosition;
  }

  /** Whatever fails, the loop appends the created ones and counts them. */
  lemma {:induction false} ImportManyCreates(env: Env, db: Db, nodeId: nat, existing: set<string>,
                                             favs: seq<ImportedFav>, added: nat)
    ensures var (db', n) := ImportMany(env, db, nodeId, existing, favs, added);
      var items := Created(env, db, nodeId, existing, favs);
      && db'.nodes == db.nodes && db'.users == db.users
      && db'.favs == AppendAll(db.favs, nodeId, items) && n == added + |items|
    decreases favs
  {
    hide CreateFavorite, Append, AsFav, FindId;
    if favs != [] {
      var key, f := FavKey(nodeId, favs[0].number), AsFav(favs[0]);
      var reply := CreateFavorite(env, db, key, f);
      InsertReply(env, db, key, f);
      if favs[0].number in existing {
        ImportManyCreates(env, db, nodeId, existing, favs[1..], added);
      } else {
        ImportManyCreates(env, reply.db, nodeId, existing, favs[1..], if reply.result.Ok? then added + 1 else added);
        var rest := Created(env, reply.db, nodeId, existing, favs[1..]);
        assert reply.result.Err? ==> [] + rest == rest;
        assert ([Row(0, key, f)] + rest)[1..] == rest;
      }
    }
  }

  /** A row with what was parsed of an entry, and nothing else. */
  ghost predicate FromEntry(x: FavRow, f: ImportedFav) {
    && x.key.number == f.number && x.value.callsign == f.callsign && x.value.description == f.description
    && x.value.location == "" && x.value.cmd == "" && x.value.sortOrder == 0 && x.value.groupName == ""
  }

  /** The created ones are new parsed entries, each number once. */
  lemma {:induction false} CreatedFacts(env: Env, db: Db, nodeId: nat, existing: set<string>, favs: seq<ImportedFav>)
    requires DistinctParsed(favs)
    ensures var r := Created(env, db, nodeId, existing, favs);
      && NoRepeats(Numbers(r))
      && forall x :: x in r ==> x.key.number !in existing && exists f :: f in favs && FromEntry(x, f)
    decreases favs
  {
    hide CreateFavorite;
    if favs != [] {
      TailDistinct(favs);
      var reply := CreateFavorite(env, db, FavKey(nodeId, favs[0].number), AsFav(favs[0]));
      CreatedFacts(env, if favs[0].number in existing then db else reply.db, nodeId, existing, favs[1..]);
      if favs[0].number !in existing {
        var rest := Created(env, reply.db, nodeId, existing, favs[1..]);
        assert FromEntry(Row(0, FavKey(nodeId, favs[0].number), AsFav(favs[0])), favs[0]);
        if reply.result.Ok? {
          FirstNew(Row(0, FavKey(nodeId, favs[0].number), AsFav(favs[0])), rest);
        } else {
          assert [] + rest == rest;
        }
      }
    }
  }

  /** Those of the items whose insert does not fail, the inserts being one statement each from this one on. */
  function Surviving(env: Env, at: nat, items: seq<FavRow>): seq<FavRow>
    decreases items
  {
    if items == [] then []
    else (if env.fails(at) then [] else [items[0]]) + Surviving(env, at + 1, items[1..])
  }

  /** Under a node that exists, every new entry is created whose own insert does not fail, and in file order. */
  lemma {:induction false} CreatedAreSurviving(env: Env, db: Db, nodeId: nat, existing: set<string>, favs: seq<ImportedFav>)
    requires FindId(db.nodes.rows, nodeId).Some?
    ensures Created(env, db, nodeId, existing, favs) == Surviving(env, db.clock, NewItems(nodeId, existing, favs))
    decreases favs
  {
    hide CreateFavorite, AsFav, FindId, Append;
    if favs != [] {
      var key, f := FavKey(nodeId, favs[0].number), AsFav(favs[0]);
      InsertReply(env, db, key, f);
      var items := NewItems(nodeId, existing, favs);
      if favs[0].number in existing {
        CreatedAreSurviving(env, db, nodeId, existing, favs[1..]);
      } else {
        assert items[1..] == NewItems(nodeId, existing, favs[1..]);
        CreatedAreSurviving(env, CreateFavorite(env, db, key, f).db, nodeId, existing, favs[1..]);
      }
    }
  }

  /** The new entries come in file order. */
  lemma {:induction false} NewItemsInOrder(nodeId: nat, existing: set<string>, favs: seq<ImportedFav>)
    ensures Subsequence(Numbers(NewItems(nodeId, existing, favs)), ParsedNumbers(favs))
    decreases favs
  {
    if favs != [] {
      NewItemsInOrder(nodeId, existing, favs[1..]);
      var items := NewItems(nodeId, existing, favs);
      assert ParsedNumbers(favs)[1..] == ParsedNumbers(favs[1..]);
      if favs[0].number !in existing {
        assert Numbers(items)[1..] == Numbers(NewItems(nodeId, existing, favs[1..]));
      }
    }
  }

  function ParsedNumbers(favs: seq<ImportedFav>): (r: seq<string>)
    ensures |r| == |favs| && forall i :: 0 <= i < |favs| ==> r[i] == favs[i].number
  {
    seq(|favs|, i requires 0 <= i < |favs| => favs[i].number)
  }

  lemma TailDistinct(favs: seq<ImportedFav>)
    requires DistinctParsed(favs) && favs != []
    ensures DistinctParsed(favs[1..])
    ensures forall f :: f in favs[1..] ==> f in favs && f.number != favs[0].number
  {
    forall f | f in favs[1..] ensures f.number != favs[0].number {
      var k :| 0 <= k < |favs[1..]| && favs[1..][k] == f;
      assert favs[0].number != favs[k + 1].number;
    }
  }

  lemma FirstNew(x: FavRow, rest: seq<FavRow>)
    requires NoRepeats(Numbers(rest)) && forall y :: y in rest ==> y.key.number != x.key.number
    ensures NoRepeats(Numbers([x] + rest))
  {
    var r := [x] + rest;
    forall i, j | 0 <= i < j < |r| ensures Numbers(r)[i] != Numbers(r)[j] {
      if i == 0 { assert r[j] in rest; } else { assert Numbers(rest)[i - 1] != Numbers(rest)[j - 1]; }
    }
  }

  /** Without a node nothing is created; with one, and no insert failing of itself, all new entries are. */
  lemma {:induction false} CreatedExactly(env: Env, db: Db, nodeId: nat, existing: set<string>, favs: seq<ImportedFav>)
    ensures FindId(db.nodes.rows, nodeId).None? ==> Created(env, db, nodeId, existing, favs) == []
    ensures FindId(db.nodes.rows, nodeId).Some? && (forall n: nat :: n >= db.clock ==> !env.fails(n)) ==>
            Created(env, db, nodeId, existing, favs) == NewItems(nodeId, existing, favs)
    decreases favs
  {
    hide CreateFavorite, AsFav, FindId, Append;
    if favs != [] {
      var key, f := FavKey(nodeId, favs[0].number), AsFav(favs[0]);
      InsertReply(env, db, key, f);
      CreatedExactly(env, if favs[0].number in existing then db else CreateFavorite(env, db, key, f).db,
                     nodeId, existing, favs[1..]);
    }
  }

  /** What the preview of these entries says will be added. */
  function Previewed(db: Db, nodeId: nat, favs: seq<ImportedFav>): nat {
    WillAdd(NodeNumbers(db, nodeId), favs)
  }

  function Added(env: Env, db: Db, nodeId: nat, favs: seq<ImportedFav>): seq<FavRow> {
    Created(env, Tick(db), nodeId, Listed(env, db, nodeId), favs)
  }

  /**
   Any import, whichever statements fail: the created entries stand behind the node's
   listing in file order, they are counted, and nothing else changes.
   */
  lemma ImportAppends(env: Env, db: Db, nodeId: nat, favs: seq<ImportedFav>, other: nat)
    requires Valid(db.favs)
    ensures var (db', added) := ImportFavs(env, db, nodeId, favs); var items := Added(env, db, nodeId, favs);
      && Valid(db'.favs) && db'.nodes == db.nodes && db'.users == db.users
      && added == |items|
      && Listing(db'.favs.rows, nodeId) == Listing(db.favs.rows, nodeId) + AddedRows(db.favs, nodeId, items)
      && (other != nodeId ==> Listing(db'.favs.rows, other) == Listing(db.favs.rows, other))
      && (added == 0 ==> SameTables(db, db'))
      && (forall n :: n in NodeNumbers(db', nodeId) <==> n in NodeNumbers(db, nodeId) || n in NumberSet(items))
  {
    hide ImportMany, Created, Append, Listing, Valid, AddedRows, Listed;
    var items := Added(env, db, nodeId, favs);
    ImportManyCreates(env, Tick(db), nodeId, Listed(env, db, nodeId), favs, 0);
    AppendAllElsewhere(db.favs, nodeId, items, other);
    AppendAllLists(db.favs, nodeId, items);
    UnionNumbers(Listing(db.favs.rows, nodeId), db.favs, nodeId, items);
  }

  /** Each row an import appends holds the number, callsign and description of a parsed entry, and blanks. */
  lemma ImportStoresEntries(env: Env, db: Db, nodeId: nat, favs: seq<ImportedFav>, i: nat)
    requires Valid(db.favs) && DistinctParsed(favs) && i < ImportFavs(env, db, nodeId, favs).1
    ensures var before, after := Listing(db.favs.rows, nodeId), Listing(ImportFavs(env, db, nodeId, favs).0.favs.rows, nodeId);
      |after| > |before| + i && exists f :: f in favs && FromEntry(after[|before| + i], f)
  {
    hide ImportFavs, Created, Listing, Append, Valid, Listed, NoRepeats;
    var items := Added(env, db, nodeId, favs);
    ImportAppends(env, db, nodeId, favs, nodeId);
    CreatedFacts(env, Tick(db), nodeId, Listed(env, db, nodeId), favs);
    AddedAreCopies(db.favs, nodeId, items, i);
    assert items[i] in items;
    var f :| f in favs && FromEntry(items[i], f);
    assert FromEntry(AddedRows(db.favs, nodeId, items)[i], f);
  }

  /** The listing told the import of every parsed number that the node has. */
  ghost predicate ListsAll(env: Env, db: Db, nodeId: nat, favs: seq<ImportedFav>) {
    forall f :: f in favs && f.number in NodeNumbers(db, nodeId) ==> f.number in Listed(env, db, nodeId)
  }

  lemma ListedAmong(env: Env, db: Db, nodeId: nat)
    ensures Listed(env, db, nodeId) <= NodeNumbers(db, nodeId)
    ensures !Down(env, db) ==> Listed(env, db, nodeId) == NodeNumbers(db, nodeId)
  {
    hide Listing;
  }

  lemma {:induction false} WillAddCounts(fewer: set<string>, more: set<string>, favs: seq<ImportedFav>)
    requires fewer <= more
    ensures WillAdd(more, favs) <= WillAdd(fewer, favs)
    ensures WillAdd(fewer, favs) == WillAdd(more, favs) <==>
            forall f :: f in favs && f.number in more ==> f.number in fewer
    decreases favs
  {
    if favs != [] {
      WillAddCounts(fewer, more, favs[1..]);
      assert forall f :: f in favs <==> f == favs[0] || f in favs[1..];
    }
  }

  /**
   When no insert fails of itself: nothing is added to a node that is gone; to one that
   exists, all entries its listing did not name - so the numbers become the union of old
   and parsed, and the count is the preview's exactly if the listing named every parsed
   number the node has.
   */
  lemma ImportAddsAll(env: Env, db: Db, nodeId: nat, favs: seq<ImportedFav>)
    requires Valid(db.favs) && DistinctParsed(favs) && CreatesWork(env, db)
    ensures var (db', added) := ImportFavs(env, db, nodeId, favs);
      if FindId(db.nodes.rows, nodeId).None? then added == 0 && SameTables(db, db')
      else
        && added == WillAdd(Listed(env, db, nodeId), favs)
        && (added == Previewed(db, nodeId, favs) <==> ListsAll(env, db, nodeId, favs))
        && (forall n :: n in NodeNumbers(db', nodeId) <==>
              n in NodeNumbers(db, nodeId) || exists f :: f in favs && f.number == n)
    ensures !Down(env, db) ==> ListsAll(env, db, nodeId, favs)
  {
    hide ImportFavs, Created, Listing, Append, Valid, AddedRows, FindId, AsFav, RowsRead;
    var existing := Listed(env, db, nodeId);
    ListedAmong(env, db, nodeId);
    ImportAppends(env, db, nodeId, favs, nodeId);
    CreatedExactly(env, Tick(db), nodeId, existing, favs);
    if FindId(db.nodes.rows, nodeId).Some? {
      NewItemsFacts(nodeId, existing, favs);
      WillAddCounts(existing, NodeNumbers(db, nodeId), favs);
    }
  }

  lemma UnionNumbers(listing: seq<FavRow>, t: Table<FavKey, Fav>, nodeId: nat, items: seq<FavRow>)
    ensures forall n :: n in NumberSet(listing + AddedRows(t, nodeId, items)) <==>
                        n in NumberSet(listing) || n in NumberSet(items)
  {
    var added := AddedRows(t, nodeId, items);
    forall i | 0 <= i < |items| ensures added[i].key.number == items[i].key.number { AddedAreCopies(t, nodeId, items, i); }
    forall n ensures n in NumberSet(added) <==> n in NumberSet(items) {
      if n in NumberSet(added) {
        var x :| x in added && x.key.number == n;
        var i :| 0 <= i < |added| && added[i] == x;
        assert items[i] in items;
      }
      if n in NumberSet(items) {
        var x :| x in items && x.key.number == n;
        var i :| 0 <= i < |items| && items[i] == x;
        assert added[i] in added;
      }
    }
    assert forall x :: x in listing + added <==> x in listing || x in added;
  }

  /** The numbers under the node stay unique exactly when none of the created ones was there. */
  lemma UniqueWhenNew(env: Env, db: Db, nodeId: nat, favs: seq<ImportedFav>)
    requires Valid(db.favs) && DistinctParsed(favs) && NoRepeats(Numbers(Listing(db.favs.rows, nodeId)))
    ensures NoRepeats(Numbers(Listing(ImportFavs(env, db, nodeId, favs).0.favs.rows, nodeId))) <==>
            forall x :: x in Added(env, db, nodeId, favs) ==> x.key.number !in NodeNumbers(db, nodeId)
  {
    hide ImportFavs, Created, Listing, Append, Valid, AddedRows, NoRepeats, DistinctParsed, Listed, Numbers, NumberSet;
    var items := Added(env, db, nodeId, favs);
    ImportAppends(env, db, nodeId, favs, nodeId);
    CreatedFacts(env, Tick(db), nodeId, Listed(env, db, nodeId), favs);
    NumbersCopied(db.favs, nodeId, items);
    UniqueAppend(Listing(db.favs.rows, nodeId), items, AddedRows(db.favs, nodeId, items));
  }

  /**
   Importing keeps the node's numbers unique whichever inserts fail, although the loop's
   lookup set never grows - if the listing named every parsed number the node has.  A listing
   that fails is used as far as it was read: with every insert going through, only then.
   */
  lemma ImportKeepsUnique(env: Env, db: Db, nodeId: nat, favs: seq<ImportedFav>)
    requires Valid(db.favs) && DistinctParsed(favs) && NoRepeats(Numbers(Listing(db.favs.rows, nodeId)))
    ensures var unique := NoRepeats(Numbers(Listing(ImportFavs(env, db, nodeId, favs).0.favs.rows, nodeId)));
      && (ListsAll(env, db, nodeId, favs) ==> unique)
      && (CreatesWork(env, db) && FindId(db.nodes.rows, nodeId).Some? ==>
            (unique <==> ListsAll(env, db, nodeId, favs)))
    ensures !Down(env, db) ==> ListsAll(env, db, nodeId, favs)
  {
    hide ImportFavs, Created, Listing, NoRepeats, Valid, FindId, AsFav, RowsRead;
    ListedAmong(env, db, nodeId);
    UniqueWhenNew(env, db, nodeId, favs);
    CreatedFacts(env, Tick(db), nodeId, Listed(env, db, nodeId), favs);
    if CreatesWork(env, db) && FindId(db.nodes.rows, nodeId).Some? {
      var items := Added(env, db, nodeId, favs);
      CreatedExactly(env, Tick(db), nodeId, Listed(env, db, nodeId), favs);
      NewItemsFacts(nodeId, Listed(env, db, nodeId), favs);
      if !ListsAll(env, db, nodeId, favs) {
        var f :| f in favs && f.number in NodeNumbers(db, nodeId) && f.number !in Listed(env, db, nodeId);
        assert f.number in NumberSet(items);
      }
    }
  }

  /** So does importing any file: the parser never repeats a number. */
  lemma FileKeepsUnique(env: Env, db: Db, nodeId: nat, data: string)
    requires Valid(db.favs) && NoRepeats(Numbers(Listing(db.favs.rows, nodeId)))
    ensures var favs := ParseLines(EMPTY, Lines(data)).favs;
      var unique := NoRepeats(Numbers(Listing(ImportFavs(env, db, nodeId, favs).0.favs.rows, nodeId)));
      && (ListsAll(env, db, nodeId, favs) ==> unique)
      && (CreatesWork(env, db) && FindId(db.nodes.rows, nodeId).Some? ==>
            (unique <==> ListsAll(env, db, nodeId, favs)))
  {
    hide ImportFavs, ListsAll, Listing, NoRepeats, Valid, FindId, ParseLines, Lines;
    ParsedNumbersDistinct(EMPTY, Lines(data));
    ImportKeepsUnique(env, db, nodeId, ParseLines(EMPTY, Lines(data)).favs);
  }

  const TWICE := [ImportedFav("1", "", "")]

  /** An import whose listing alone fails lists a favorite of the node twice. */
  lemma UnreadListingRepeats(env: Env)
    requires FirstReadLost(env)
    ensures !NoRepeats(Numbers(Listing(ImportFavs(env, OneFavorite(), 1, TWICE).0.favs.rows, 1)))
  {
    hide ImportFavs, Listing, NoRepeats, NodeNumbers, RowsRead;
    OneFavoriteListed();
    ImportKeepsUnique(env, OneFavorite(), 1, TWICE);
    assert TWICE[0] in TWICE;
  }

  lemma {:induction false} NothingToAdd(existing: set<string>, favs: seq<ImportedFav>)
    ensures WillAdd(existing, favs) == 0 <==> forall f :: f in favs ==> f.number in existing
    decreases favs
  {
    if favs != [] {
      assert forall f :: f in favs <==> f == favs[0] || f in favs[1..];
      NothingToAdd(existing, favs[1..]);
    }
  }

  /**
   Importing the same file again, when its inserts went through the first time: nothing is
   added exactly if the node is gone or the second listing named every parsed number.
   */
  lemma RepeatedImportAddsNothing(env1: Env, env2: Env, db: Db, nodeId: nat, favs: seq<ImportedFav>)
    requires Valid(db.favs) && DistinctParsed(favs)
    requires CreatesWork(env1, db) && CreatesWork(env2, ImportFavs(env1, db, nodeId, favs).0)
    ensures var db1 := ImportFavs(env1, db, nodeId, favs).0; var (db2, added2) := ImportFavs(env2, db1, nodeId, favs);
      && (added2 == 0 <==> FindId(db.nodes.rows, nodeId).None? || ListsAll(env2, db1, nodeId, favs))
      && (added2 == 0 ==> SameTables(db1, db2))
  {
    hide ImportFavs, Created, Listing, Valid, FindId, AddedRows, CreatesWork, Listed;
    var db1 := ImportFavs(env1, db, nodeId, favs).0;
    ImportAppends(env1, db, nodeId, favs, nodeId);
    ImportAppends(env2, db1, nodeId, favs, nodeId);
    ImportAddsAll(env1, db, nodeId, favs);
    ImportAddsAll(env2, db1, nodeId, favs);
    if FindId(db.nodes.rows, nodeId).Some? {
      NothingToAdd(NodeNumbers(db1, nodeId), favs);
    }
  }

  /** Whatever failed before, an import whose listing names every parsed number adds nothing. */
  lemma ListedImportAddsNothing(env: Env, db: Db, nodeId: nat, favs: seq<ImportedFav>)
    requires Valid(db.favs)
    requires forall f :: f in favs ==> f.number in Listed(env, db, nodeId)
    ensures var (db', added) := ImportFavs(env, db, nodeId, favs); added == 0 && SameTables(db, db')
  {
    hide ImportFavs, Created, Listing, Valid, AddedRows, Listed;
    ImportAppends(env, db, nodeId, favs, nodeId);
    NothingCreated(env, Tick(db), nodeId, Listed(env, db, nodeId), favs);
  }

  lemma {:induction false} NothingCreated(env: Env, db: Db, nodeId: nat, existing: set<string>, favs: seq<ImportedFav>)
    requires forall f :: f in favs ==> f.number in existing
    ensures Created(env, db, nodeId, existing, favs) == []
    decreases favs
  {
    if favs != [] {
      assert favs[0] in favs;
      NothingCreated(env, db, nodeId, existing, favs[1..]);
    }
  }
}
