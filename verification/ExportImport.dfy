/** A node's favorites exported to a file and imported under a node. */
module ExportImport {
  import opened Tables
  import opened Sql
  import opened Text
  import opened FavoriteLists
  import opened FavoriteCopy
  import opened Ini
  import opened IniRoundTrip
  import opened Import

  /** The entries the import of an export creates, if no insert fails. */
  lemma {:induction false} NewOnesOfExport(nodeId: nat, existing: set<string>, numbers: seq<string>, seen: set<string>)
    ensures Numbers(NewItems(nodeId, existing, Imported(FirstOnes(numbers, seen)))) == FirstOnes(numbers, seen + existing)
    decreases numbers
  {
    hide AsFav;
    if numbers == [] {
      assert Imported([]) == [];
    } else {
      var n, tail := numbers[0], numbers[1..];
      if n in seen {
        NewOnesOfExport(nodeId, existing, tail, seen);
      } else {
        NewOnesOfExport(nodeId, existing, tail, seen + {n});
        var rest := Imported(FirstOnes(tail, seen + {n}));
        var favs := Imported(FirstOnes(numbers, seen));
        assert favs == [ImportedFav(n, "", "")] + rest && favs[1..] == rest;
        var items := NewItems(nodeId, existing, favs);
        if n in existing {
          assert seen + {n} + existing == seen + existing;
        } else {
          assert seen + {n} + existing == seen + existing + {n};
          assert Numbers(items) == [n] + Numbers(NewItems(nodeId, existing, rest));
        }
      }
    }
  }

  lemma AddedNumbers(t: Table<FavKey, Fav>, nodeId: nat, items: seq<FavRow>)
    ensures Numbers(AddedRows(t, nodeId, items)) == Numbers(items)
  {
    hide AddedRows;
    forall i | 0 <= i < |items| ensures Numbers(AddedRows(t, nodeId, items))[i] == Numbers(items)[i] {
      AddedAreCopies(t, nodeId, items, i);
    }
  }

  lemma NumbersConcat(a: seq<FavRow>, b: seq<FavRow>)
    ensures Numbers(a + b) == Numbers(a) + Numbers(b)
  {
  }

  /** With nothing failing, an import's list goes on with the numbers of the new entries. */
  lemma ImportLists(env: Env, db: Db, nodeId: nat, favs: seq<ImportedFav>)
    requires Valid(db.favs) && FindId(db.nodes.rows, nodeId).Some? && forall t: nat :: t >= db.clock ==> !env.fails(t)
    ensures var before, after := Listing(db.favs.rows, nodeId), Listing(ImportFavs(env, db, nodeId, favs).0.favs.rows, nodeId);
      Numbers(after) == Numbers(before) + Numbers(NewItems(nodeId, NumberSet(before), favs))
  {
    hide Listing, NewItems, ImportFavs, Valid, FindId, AddedRows, Created, Listed, Numbers, NumberSet;
    var before, items := Listing(db.favs.rows, nodeId), NewItems(nodeId, NumberSet(Listing(db.favs.rows, nodeId)), favs);
    ListedAmong(env, db, nodeId);
    CreatedExactly(env, Tick(db), nodeId, NumberSet(before), favs);
    assert Added(env, db, nodeId, favs) == items;
    ImportAppends(env, db, nodeId, favs, nodeId);
    NumbersConcat(before, AddedRows(db.favs, nodeId, items));
    AddedNumbers(db.favs, nodeId, items);
  }

  /** The file a node's favorites are exported to. */
  function ExportOf(db: Db, nodeId: nat, home: string, stamp: string): string {
    Header(home, stamp) + Entries(home, Numbers(Listing(db.favs.rows, nodeId)))
  }

  /**
   A node's favorites exported and imported under another: the other's list goes on with the
   numbers it lacked, the first of each, in the exported order.
   */
  lemma ExportThenImport(env: Env, db: Db, src: nat, dst: nat, home: string, stamp: string)
    requires Valid(db.favs) && FindId(db.nodes.rows, dst).Some? && forall t: nat :: t >= db.clock ==> !env.fails(t)
    requires Lacks(home, '\n') && Lacks(stamp, '\n')
    requires forall x :: x in Listing(db.favs.rows, src) ==> IsNodeNumber(x.key.number)
    ensures var favs := ParseLines(EMPTY, Lines(ExportOf(db, src, home, stamp))).favs;
      var before, after := Listing(db.favs.rows, dst), Listing(ImportFavs(env, db, dst, favs).0.favs.rows, dst);
      Numbers(after) == Numbers(before) + FirstOnes(Numbers(Listing(db.favs.rows, src)), NumberSet(before))
  {
    hide Lines, ParseLines, Header, Entries, Listing, NewItems, FirstOnes, ImportFavs, Valid, FindId, IsNodeNumber, Lacks;
    var rows := Listing(db.favs.rows, src);
    forall i | 0 <= i < |rows| ensures IsNodeNumber(Numbers(rows)[i]) {
      assert rows[i] in rows;
    }
    ExportParses(home, stamp, Numbers(rows));
    var existing := NumberSet(Listing(db.favs.rows, dst));
    ImportLists(env, db, dst, Imported(FirstOnes(Numbers(rows), {})));
    NewOnesOfExport(dst, existing, Numbers(rows), {});
    assert {} + existing == existing;
  }
}
