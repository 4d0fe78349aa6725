/** Copying selected favorites from one node to another. */
module FavoriteCopy {
  import opened Wrappers
  import opened Sequences
  import opened Tables
  import opened Sql
  import opened Databases
  import opened UserPurgeLaws
  import opened FavoriteLists

  /** SELECT ... WHERE id = ? AND node_id = ?. */
  function Select(rows: seq<FavRow>, id: nat, nodeId: nat): (r: Option<FavRow>)
    ensures r.Some? ==> r.value in rows && r.value.id == id && r.value.key.nodeId == nodeId
  {
    match FindId(rows, id)
    case None => None
    case Some(x) => if x.key.nodeId == nodeId then Some(x) else None
  }

  datatype Progress = Progress(db: Db, existing: set<string>, copied: nat, ok: bool)

  /** One requested id: a row that cannot be read is skipped, and so is a number the target has. */
  function CopyOne(env: Env, src: nat, dst: nat, id: nat, p: Progress): Progress {
    var row := if Down(env, p.db) then None else Select(p.db.favs.rows, id, src);
    var db := Tick(p.db);
    if row.None? || row.value.key.number in p.existing then p.(db := db)
    else
      var reply := CreateFavorite(env, db, FavKey(dst, row.value.key.number), row.value.value);
      if reply.result.Err? then p.(db := reply.db, ok := false)
      else Progress(reply.db, p.existing + {row.value.key.number}, p.copied + 1, true)
  }

  function CopyMany(env: Env, src: nat, dst: nat, ids: seq<nat>, p: Progress): Progress
    decreases ids
  {
    if ids == [] || !p.ok then p else CopyMany(env, src, dst, ids[1..], CopyOne(env, src, dst, ids[0], p))
  }

  function NumberSet(rows: seq<FavRow>): (r: set<string>)
    ensures forall n :: n in r <==> exists x :: x in rows && x.key.number == n
  {
    set x | x in rows :: x.key.number
  }

  datatype Outcome = Outcome(db: Db, copied: nat, result: Result<(), SqlError>)

  /** The numbers of the target that the copy reads; a query that breaks off goes unnoticed. */
  function Seen(env: Env, db: Db, dst: nat): set<string> {
    NumberSet(RowsRead(env, db.clock, Under(db.favs.rows, dst)))
  }

  function Begun(env: Env, db: Db, dst: nat): Progress {
    Progress(Tick(Tick(db)), Seen(env, db, dst), 0, true)
  }

  function CopyFavorites(env: Env, db: Db, src: nat, dst: nat, ids: seq<nat>): Outcome {
    if ids == [] then Outcome(db, 0, Ok(()))
    else if Refused(env, db.clock) then Outcome(Tick(db), 0, Err(StatementFailed))
    else if Down(env, Tick(db)) then Outcome(Tick(Tick(db)), 0, Err(StatementFailed))
    else
      var p := CopyMany(env, src, dst, ids, Begun(env, db, dst));
      if !p.ok then Outcome(RolledBack(db, p.db), p.copied, Err(StatementFailed))
      else if Down(env, p.db) then Outcome(RolledBack(db, Tick(p.db)), p.copied, Err(StatementFailed))
      else Outcome(Tick(p.db), p.copied, Ok(()))
  }

  lemma CopyManyStep(env: Env, src: nat, dst: nat, ids: seq<nat>, i: nat, p: Progress)
    requires i < |ids| && p.ok
    ensures CopyMany(env, src, dst, ids[i..], p) == CopyMany(env, src, dst, ids[i+1..], CopyOne(env, src, dst, ids[i], p))
  {
    assert ids[i..][1..] == ids[i+1..];
  }

  /** One pass of the copy loop. */
  method CopyRow(db: Database, src: nat, dst: nat, id: nat, existing0: set<string>, copied0: nat)
    returns (existing: set<string>, copied: nat, ok: bool)
    modifies db`clock, db`favs
    ensures Progress(db.State(), existing, copied, ok)
         == CopyOne(db.env, src, dst, id, Progress(old(db.State()), existing0, copied0, true))
  {
    existing, copied, ok := existing0, copied0, true;
    var row := Select(db.favs.rows, id, src);
    var read := db.Exec();
    if !read || row.None? { return; }
    if row.value.key.number in existing { return; }
    var created := db.CreateFavorite(FavKey(dst, row.value.key.number), row.value.value);
    if created.Err? {
      ok := false;
      return;
    }
    existing := existing + {row.value.key.number};
    copied := copied + 1;
  }

  method Copy(db: Database, src: nat, dst: nat, ids: seq<nat>) returns (copied: nat, r: Result<(), SqlError>)
    modifies db`clock, db`favs
    ensures Outcome(db.State(), copied, r) == CopyFavorites(db.env, old(db.State()), src, dst, ids)
  {
    hide CopyOne;
    copied, r := 0, Ok(());
    if ids == [] { return; }
    var refused := Refused(db.env, db.clock);
    var existing := NumberSet(RowsRead(db.env, db.clock, Under(db.favs.rows, dst)));
    var _ := db.Exec();
    if refused { return 0, Err(StatementFailed); }
    var inTransaction := db.Exec();
    if !inTransaction { return 0, Err(StatementFailed); }
    var saved := db.favs;
    ghost var begun := Progress(db.State(), existing, 0, true);
    var ok := true;
    for i := 0 to |ids|
      invariant CopyMany(db.env, src, dst, ids, begun)
             == CopyMany(db.env, src, dst, ids[i..], Progress(db.State(), existing, copied, true))
      invariant db.users == old(db.users) && db.nodes == old(db.nodes)
    {
      CopyManyStep(db.env, src, dst, ids, i, Progress(db.State(), existing, copied, true));
      existing, copied, ok := CopyRow(db, src, dst, ids[i], existing, copied);
      if !ok {
        db.favs := saved;
        return copied, Err(StatementFailed);
      }
    }
    var committed := db.Exec();
    if !committed {
      db.favs := saved;
      r := Err(StatementFailed);
    }
  }

  // ------------------------------------------------------------------ laws

  /** The rows a request copies: of each number the target lacks, the first requested row. */
  function NewOnes(rows: seq<FavRow>, src: nat, existing: set<string>, ids: seq<nat>): seq<FavRow>
    decreases ids
  {
    if ids == [] then []
    else
      var row := Select(rows, ids[0], src);
      if row.None? || row.value.key.number in existing then NewOnes(rows, src, existing, ids[1..])
      else [row.value] + NewOnes(rows, src, existing + {row.value.key.number}, ids[1..])
  }

  ghost predicate Subsequence<T>(a: seq<T>, b: seq<T>)
    decreases b
  {
    a == [] || (b != [] && ((a[0] == b[0] && Subsequence(a[1..], b[1..])) || Subsequence(a, b[1..])))
  }

  /** Each new number once, in request order, none missing. */
  lemma {:induction false} NewOnesFacts(rows: seq<FavRow>, src: nat, existing: set<string>, ids: seq<nat>)
    ensures var r := NewOnes(rows, src, existing, ids);
      && (forall i :: 0 <= i < |r| ==> r[i] in rows && r[i].key.nodeId == src && r[i].key.number !in existing)
      && NoRepeats(Numbers(r))
      && (forall k :: 0 <= k < |ids| && Select(rows, ids[k], src).Some? ==>
            var n := Select(rows, ids[k], src).value.key.number; n in existing || n in NumberSet(r))
      && Subsequence(Ids(r), ids)
    decreases ids
  {
    if ids != [] {
      var row := Select(rows, ids[0], src);
      if row.None? || row.value.key.number in existing {
        NewOnesFacts(rows, src, existing, ids[1..]);
        var r := NewOnes(rows, src, existing, ids[1..]);
        forall k | 0 < k < |ids| && Select(rows, ids[k], src).Some?
          ensures var n := Select(rows, ids[k], src).value.key.number; n in existing || n in NumberSet(r) {
          assert ids[1..][k - 1] == ids[k];
        }
      } else {
        var existing' := existing + {row.value.key.number};
        NewOnesFacts(rows, src, existing', ids[1..]);
        var rest := NewOnes(rows, src, existing', ids[1..]);
        var r := [row.value] + rest;
        assert Ids(r)[1..] == Ids(rest);
        assert forall x :: x in r <==> x == row.value || x in rest;
        forall k | 0 < k < |ids| && Select(rows, ids[k], src).Some?
          ensures var n := Select(rows, ids[k], src).value.key.number; n in existing || n in NumberSet(r) {
          assert ids[1..][k - 1] == ids[k];
        }
      }
    }
  }

  /** After an append a selection finds what it found before, or the appended row. */
  lemma SelectAfterAppend(t: Table<FavKey, Fav>, key: FavKey, f: Fav, src: nat, id: nat)
    requires Valid(t)
    ensures var before, after := Select(t.rows, id, src), Select(Append(t, key, f).rows, id, src);
      after == before || (before.None? && after == Some(NewRow(t, key, f)))
  {
    InsertMembers(t, key, NewRow(t, key, f).value);
    var t' := Append(t, key, f);
    var a, b := FindId(t.rows, id), FindId(t'.rows, id);
    if a.Some? {
      FindIdOfRow(t'.rows, a.value);
    } else if b.Some? {
      assert b.value in t'.rows;
    }
  }

  lemma {:induction false} NewOnesAfterAppend(t: Table<FavKey, Fav>, key: FavKey, f: Fav, src: nat,
                                              existing: set<string>, ids: seq<nat>)
    requires Valid(t) && key.number in existing
    ensures NewOnes(Append(t, key, f).rows, src, existing, ids) == NewOnes(t.rows, src, existing, ids)
    decreases ids
  {
    if ids != [] {
      SelectAfterAppend(t, key, f, src, ids[0]);
      var row := Select(t.rows, ids[0], src);
      hide Append, Select;
      NewOnesAfterAppend(t, key, f, src, if row.None? then existing else existing + {row.value.key.number}, ids[1..]);
      NewOnesAfterAppend(t, key, f, src, existing, ids[1..]);
    }
  }

  /** The requested ids whose row could be read; the loop skips the others. */
  function Readable(env: Env, src: nat, dst: nat, ids: seq<nat>, p: Progress): seq<nat>
    decreases ids
  {
    if ids == [] || !p.ok then []
    else (if Down(env, p.db) then [] else [ids[0]]) + Readable(env, src, dst, ids[1..], CopyOne(env, src, dst, ids[0], p))
  }

  lemma {:induction false} ReadableFacts(env: Env, src: nat, dst: nat, ids: seq<nat>, p: Progress)
    ensures Subsequence(Readable(env, src, dst, ids, p), ids)
    ensures Reliable(env) && CopyMany(env, src, dst, ids, p).ok ==> Readable(env, src, dst, ids, p) == ids
    decreases ids
  {
    hide CopyOne;
    if ids != [] && p.ok {
      var rest := Readable(env, src, dst, ids[1..], CopyOne(env, src, dst, ids[0], p));
      ReadableFacts(env, src, dst, ids[1..], CopyOne(env, src, dst, ids[0], p));
      assert [] + rest == rest && ([ids[0]] + rest)[1..] == rest;
    }
  }

  /** What one pass does to the table. */
  lemma CopyOneAppends(env: Env, src: nat, dst: nat, id: nat, p: Progress)
    requires p.ok && Valid(p.db.favs)
    ensures var r := CopyOne(env, src, dst, id, p); var row := Select(p.db.favs.rows, id, src);
      && r.db.nodes == p.db.nodes && r.db.users == p.db.users
      && if Down(env, p.db) || row.None? || row.value.key.number in p.existing
         then r.db.favs == p.db.favs && r.existing == p.existing && r.copied == p.copied && r.ok
         else (r.ok ==>
                 && r.db.favs == Append(p.db.favs, FavKey(dst, row.value.key.number), row.value.value)
                 && r.existing == p.existing + {row.value.key.number} && r.copied == p.copied + 1)
              && (!r.ok ==> r.copied == p.copied)
              && r.db.clock == p.db.clock + 2
              && (r.ok <==> !env.fails(p.db.clock + 1) && FindId(p.db.nodes.rows, dst).Some?)
  {
    hide Select, FindId, Valid;
  }

  /** A loop that gets through appends exactly the new ones it could read. */
  lemma {:induction false} CopyManyAppends(env: Env, src: nat, dst: nat, ids: seq<nat>, p: Progress)
    requires p.ok && Valid(p.db.favs)
    ensures var r := CopyMany(env, src, dst, ids, p);
      var items := NewOnes(p.db.favs.rows, src, p.existing, Readable(env, src, dst, ids, p));
      r.ok ==>
        && r.db.favs == AppendAll(p.db.favs, dst, items) && r.copied == p.copied + |items|
        && r.db.nodes == p.db.nodes && r.db.users == p.db.users
    decreases ids
  {
    hide CopyOne, Append, Select, Valid, Insert, FindId;
    if ids != [] {
      var t, row := p.db.favs, Select(p.db.favs.rows, ids[0], src);
      var p1 := CopyOne(env, src, dst, ids[0], p);
      CopyOneAppends(env, src, dst, ids[0], p);
      if !p1.ok {
        assert CopyMany(env, src, dst, ids[1..], p1) == p1;
      } else {
        var read := Readable(env, src, dst, ids[1..], p1);
        assert !Down(env, p.db) ==> ([ids[0]] + read)[1..] == read;
        assert Down(env, p.db) ==> [] + read == read;
        if !Down(env, p.db) && row.Some? && row.value.key.number !in p.existing {
          CreatedIsLast(t, FavKey(dst, row.value.key.number), row.value.value, dst);
          NewOnesAfterAppend(t, FavKey(dst, row.value.key.number), row.value.value, src, p1.existing, read);
        }
        CopyManyAppends(env, src, dst, ids[1..], p1);
      }
    }
  }

  lemma NewOnesOfNothing(rows: seq<FavRow>, src: nat, existing: set<string>)
    ensures NewOnes(rows, src, existing, []) == []
  {
  }

  /** Where a loop that stops has stopped: at an insert that failed, or that found no target. */
  lemma {:induction false} CopyManyStops(env: Env, src: nat, dst: nat, ids: seq<nat>, p: Progress)
    requires p.ok && Valid(p.db.favs)
    ensures var r := CopyMany(env, src, dst, ids, p);
      var items := NewOnes(p.db.favs.rows, src, p.existing, Readable(env, src, dst, ids, p));
      && (!r.ok ==> r.db.clock > 0 && (env.fails(r.db.clock - 1) || (FindId(p.db.nodes.rows, dst).None? && items != [])))
      && (r.ok ==> FindId(p.db.nodes.rows, dst).Some? || items == [])
    decreases ids
  {
    hide CopyOne, Append, Select, Valid, Insert, FindId;
    if ids != [] {
      var t, row := p.db.favs, Select(p.db.favs.rows, ids[0], src);
      var p1 := CopyOne(env, src, dst, ids[0], p);
      var read := Readable(env, src, dst, ids[1..], p1);
      CopyOneAppends(env, src, dst, ids[0], p);
      assert !Down(env, p.db) ==> ([ids[0]] + read)[1..] == read;
      assert Down(env, p.db) ==> [] + read == read;
      if !p1.ok {
        assert CopyMany(env, src, dst, ids[1..], p1) == p1;
      } else {
        if !Down(env, p.db) && row.Some? && row.value.key.number !in p.existing {
          CreatedIsLast(t, FavKey(dst, row.value.key.number), row.value.value, dst);
          NewOnesAfterAppend(t, FavKey(dst, row.value.key.number), row.value.value, src, p1.existing, read);
        }
        CopyManyStops(env, src, dst, ids[1..], p1);
      }
    }
  }

  lemma NewOnesOf(rows: seq<FavRow>, src: nat, existing: set<string>, id: nat, rest: seq<nat>)
    ensures var row := Select(rows, id, src);
      NewOnes(rows, src, existing, [id] + rest) ==
        if row.None? || row.value.key.number in existing then NewOnes(rows, src, existing, rest)
        else [row.value] + NewOnes(rows, src, existing + {row.value.key.number}, rest)
  {
    assert ([id] + rest)[1..] == rest;
  }

  /** It counts all it came to copy, but for the one it stopped at. */
  lemma {:induction false} CopyManyCounts(env: Env, src: nat, dst: nat, ids: seq<nat>, p: Progress)
    requires p.ok && Valid(p.db.favs)
    ensures var r := CopyMany(env, src, dst, ids, p);
      p.copied + |NewOnes(p.db.favs.rows, src, p.existing, Readable(env, src, dst, ids, p))|
      == r.copied + if r.ok then 0 else 1
    decreases ids
  {
    hide CopyOne, Append, Select, Valid, Insert, FindId, NewOnes;
    if ids == [] {
      NewOnesOfNothing(p.db.favs.rows, src, p.existing);
    } else {
      var t, row := p.db.favs, Select(p.db.favs.rows, ids[0], src);
      var p1 := CopyOne(env, src, dst, ids[0], p);
      var read := Readable(env, src, dst, ids[1..], p1);
      CopyOneAppends(env, src, dst, ids[0], p);
      if Down(env, p.db) {
        assert [] + read == read;
      } else {
        NewOnesOf(t.rows, src, p.existing, ids[0], read);
        if row.Some? && row.value.key.number !in p.existing {
          if !p1.ok {
            NewOnesOfNothing(t.rows, src, p.existing + {row.value.key.number});
          } else {
            CreatedIsLast(t, FavKey(dst, row.value.key.number), row.value.value, dst);
            NewOnesAfterAppend(t, FavKey(dst, row.value.key.number), row.value.value, src, p1.existing, read);
          }
        }
      }
      if p1.ok {
        CopyManyCounts(env, src, dst, ids[1..], p1);
      } else {
        assert CopyMany(env, src, dst, ids[1..], p1) == p1;
      }
    }
  }

  /** With no failing statement the loop gets through exactly if the target exists or nothing is new. */
  lemma {:induction false} CopyManyFinishes(env: Env, src: nat, dst: nat, ids: seq<nat>, p: Progress)
    requires p.ok && Valid(p.db.favs) && Reliable(env)
    ensures CopyMany(env, src, dst, ids, p).ok <==>
            FindId(p.db.nodes.rows, dst).Some? || NewOnes(p.db.favs.rows, src, p.existing, ids) == []
    decreases ids
  {
    hide CopyOne, Append, Select, Valid, Insert, FindId;
    if ids != [] {
      var t, row := p.db.favs, Select(p.db.favs.rows, ids[0], src);
      var p1 := CopyOne(env, src, dst, ids[0], p);
      CopyOneAppends(env, src, dst, ids[0], p);
      if !p1.ok {
        assert CopyMany(env, src, dst, ids[1..], p1) == p1;
      } else {
        if row.Some? && row.value.key.number !in p.existing {
          CreatedIsLast(t, FavKey(dst, row.value.key.number), row.value.value, dst);
          NewOnesAfterAppend(t, FavKey(dst, row.value.key.number), row.value.value, src, p1.existing, ids[1..]);
        }
        CopyManyFinishes(env, src, dst, ids[1..], p1);
      }
    }
  }

  /** Copying a node to itself finds every number there already. */
  lemma {:induction false} NothingNewAtHome(rows: seq<FavRow>, node: nat, existing: set<string>, ids: seq<nat>)
    requires forall x :: x in rows && x.key.nodeId == node ==> x.key.number in existing
    ensures NewOnes(rows, node, existing, ids) == []
    decreases ids
  {
    if ids != [] { NothingNewAtHome(rows, node, existing, ids[1..]); }
  }

  /** The requested ids a copy could read. */
  function ReadIds(env: Env, db: Db, src: nat, dst: nat, ids: seq<nat>): seq<nat> {
    Readable(env, src, dst, ids, Begun(env, db, dst))
  }

  /** The rows a copy adds copies of. */
  function Copied(env: Env, db: Db, src: nat, dst: nat, ids: seq<nat>): seq<FavRow> {
    NewOnes(db.favs.rows, src, Seen(env, db, dst), ReadIds(env, db, src, dst, ids))
  }

  lemma CopyIs(env: Env, db: Db, src: nat, dst: nat, ids: seq<nat>)
    ensures var r := CopyFavorites(env, db, src, dst, ids); var p := CopyMany(env, src, dst, ids, Begun(env, db, dst));
      && (r.result.Err? ==> SameTables(db, r.db))
      && (r.result.Ok? && ids == [] ==> r.db == db && r.copied == 0)
      && (r.result.Ok? && ids != [] ==> p.ok && SameTables(p.db, r.db) && r.copied == p.copied)
      && (Reliable(env) ==> (r.result.Ok? <==> ids == [] || p.ok))
  {
    hide CopyMany, Begun;
  }

  /** A table a copy left: it went through, and these rows were appended. */
  lemma CopyGoesThrough(env: Env, db: Db, src: nat, dst: nat, ids: seq<nat>)
    requires Valid(db.favs) && CopyFavorites(env, db, src, dst, ids).result.Ok?
    ensures var r := CopyFavorites(env, db, src, dst, ids); var items := Copied(env, db, src, dst, ids);
      && r.db.favs == AppendAll(db.favs, dst, items) && r.copied == |items|
      && r.db.nodes == db.nodes && r.db.users == db.users
  {
    hide CopyFavorites, CopyMany, Seen, Append, Valid, Select, Readable;
    CopyIs(env, db, src, dst, ids);
    if ids == [] {
      NothingReadable(env, src, dst, Begun(env, db, dst));
      NewOnesOfNothing(db.favs.rows, src, Seen(env, db, dst));
      assert AppendAll(db.favs, dst, []) == db.favs;
    } else {
      CopyManyAppends(env, src, dst, ids, Begun(env, db, dst));
    }
  }

  lemma AllAtHome(env: Env, db: Db, node: nat)
    requires !Down(env, db)
    ensures forall x :: x in db.favs.rows && x.key.nodeId == node ==> x.key.number in Seen(env, db, node)
  {
  }

  lemma NothingReadable(env: Env, src: nat, dst: nat, p: Progress)
    ensures Readable(env, src, dst, [], p) == []
  {
  }

  /**
   A copy that returns no error appends to the target's listing, in request order, one
   copy of each number it did not see there among the rows it could read, and says how many;
   no other listing changes.  When nothing fails it reads all.
   */
  lemma CopyAppends(env: Env, db: Db, src: nat, dst: nat, ids: seq<nat>, other: nat)
    requires Valid(db.favs) && CopyFavorites(env, db, src, dst, ids).result.Ok?
    ensures var r := CopyFavorites(env, db, src, dst, ids);
      var items := Copied(env, db, src, dst, ids); var added := AddedRows(db.favs, dst, items);
      && r.copied == |items| && |r.db.favs.rows| == |db.favs.rows| + r.copied
      && Listing(r.db.favs.rows, dst) == Listing(db.favs.rows, dst) + added
      && (forall i :: 0 <= i < |items| ==> CopyOf(items[i], added[i], dst))
      && (other != dst ==> Listing(r.db.favs.rows, other) == Listing(db.favs.rows, other))
      && Subsequence(ReadIds(env, db, src, dst, ids), ids)
      && (Reliable(env) ==> ReadIds(env, db, src, dst, ids) == ids)
  {
    hide CopyFavorites, CopyMany, Listing, Seen, NewOnes, Append, Valid, Readable, AddedRows, CopyOf, Subsequence;
    var items := Copied(env, db, src, dst, ids);
    CopyGoesThrough(env, db, src, dst, ids);
    CopyIs(env, db, src, dst, ids);
    ReadableFacts(env, src, dst, ids, Begun(env, db, dst));
    if ids == [] { NothingReadable(env, src, dst, Begun(env, db, dst)); }
    AppendAllLength(db.favs, dst, items);
    AppendAllLists(db.favs, dst, items);
    AppendAllElsewhere(db.favs, dst, items, other);
    forall i | 0 <= i < |items| ensures CopyOf(items[i], AddedRows(db.favs, dst, items)[i], dst) {
      AddedAreCopies(db.favs, dst, items, i);
    }
  }

  /** A node copied to itself is left alone, if its numbers were read to the end. */
  lemma CopyToItself(env: Env, db: Db, node: nat, ids: seq<nat>)
    requires Valid(db.favs) && !Down(env, db)
    ensures var r := CopyFavorites(env, db, node, node, ids); SameTables(db, r.db) && (r.result.Ok? ==> r.copied == 0)
  {
    hide CopyFavorites, Seen, NewOnes, Append, Valid, Readable;
    CopyIs(env, db, node, node, ids);
    if CopyFavorites(env, db, node, node, ids).result.Ok? {
      CopyGoesThrough(env, db, node, node, ids);
      AllAtHome(env, db, node);
      NothingNewAtHome(db.favs.rows, node, Seen(env, db, node), ReadIds(env, db, node, node, ids));
      assert AppendAll(db.favs, node, []) == db.favs;
    }
  }

  /**
   A copy returns no error if and only if its first query is not refused, its BEGIN and the last
   statement it sends, the COMMIT, do not fail, and there is nothing to add to a missing node.
   */
  lemma CopySucceedsExactly(env: Env, db: Db, src: nat, dst: nat, ids: seq<nat>)
    requires Valid(db.favs)
    ensures var r := CopyFavorites(env, db, src, dst, ids);
      r.result.Ok? <==>
        || ids == []
        || (&& !Refused(env, db.clock) && !env.fails(db.clock + 1) && r.db.clock > 0 && !env.fails(r.db.clock - 1)
            && (FindId(db.nodes.rows, dst).Some? || Copied(env, db, src, dst, ids) == []))
  {
    hide CopyMany, Readable, NewOnes, Valid, FindId, RowsRead;
    if ids != [] { CopyManyStops(env, src, dst, ids, Begun(env, db, dst)); }
  }

  /**
   The count a copy returns, whether or not it is rolled back: all there was to copy, but for the
   one whose insert failed; a copy that fails changes no table.
   */
  lemma CopyCounted(env: Env, db: Db, src: nat, dst: nat, ids: seq<nat>)
    requires Valid(db.favs)
    ensures var r := CopyFavorites(env, db, src, dst, ids); var n := |Copied(env, db, src, dst, ids)|;
      if ids == [] then r == Outcome(db, 0, Ok(()))
      else
        && (r.result.Err? ==> r.result == Err(StatementFailed) && SameTables(db, r.db))
        && (if Refused(env, db.clock) || env.fails(db.clock + 1) then r.copied == 0
            else r.copied == n || (r.result.Err? && r.copied == n - 1))
  {
    hide CopyMany, Readable, NewOnes, Valid, FindId, RowsRead;
    if ids != [] { CopyManyCounts(env, src, dst, ids, Begun(env, db, dst)); }
  }

  /** When nothing fails: exactly if the target exists or nothing is new. */
  lemma CopyWorksExactly(env: Env, db: Db, src: nat, dst: nat, ids: seq<nat>)
    requires Valid(db.favs) && Reliable(env)
    ensures CopyFavorites(env, db, src, dst, ids).result.Ok? <==>
            FindId(db.nodes.rows, dst).Some? || NewOnes(db.favs.rows, src, NumberSet(Under(db.favs.rows, dst)), ids) == []
  {
    hide CopyFavorites, CopyMany, Under, NewOnes, Valid, FindId;
    CopyIs(env, db, src, dst, ids);
    if ids == [] {
      NewOnesOfNothing(db.favs.rows, src, NumberSet(Under(db.favs.rows, dst)));
    } else {
      CopyManyFinishes(env, src, dst, ids, Begun(env, db, dst));
    }
  }

  lemma NoRepeatsAppend(listing: seq<FavRow>, added: seq<FavRow>, existing: set<string>)
    requires NoRepeats(Numbers(listing)) && NoRepeats(Numbers(added))
    requires forall x :: x in listing ==> x.key.number in existing
    requires forall i :: 0 <= i < |added| ==> added[i].key.number !in existing
    ensures NoRepeats(Numbers(listing + added))
  {
    var all := listing + added;
    forall i, j | 0 <= i < j < |all| ensures all[i].key.number != all[j].key.number {
      if j < |listing| {
        assert Numbers(listing)[i] != Numbers(listing)[j];
      } else if i < |listing| {
        assert all[i] in listing;
      } else {
        assert Numbers(added)[i - |listing|] != Numbers(added)[j - |listing|];
      }
    }
  }

  lemma RepeatsAppend(listing: seq<FavRow>, added: seq<FavRow>, i: nat)
    requires i < |added| && exists x :: x in listing && x.key.number == added[i].key.number
    ensures !NoRepeats(Numbers(listing + added))
  {
    var x :| x in listing && x.key.number == added[i].key.number;
    var k :| 0 <= k < |listing| && listing[k] == x;
    assert Numbers(listing + added)[k] == Numbers(listing + added)[|listing| + i];
  }

  /** Behind a listing without repeats, the numbers stay unique exactly if all appended ones are new. */
  lemma UniqueAppend(listing: seq<FavRow>, items: seq<FavRow>, added: seq<FavRow>)
    requires NoRepeats(Numbers(listing)) && NoRepeats(Numbers(items)) && Numbers(added) == Numbers(items)
    ensures NoRepeats(Numbers(listing + added)) <==> forall x :: x in items ==> x.key.number !in NumberSet(listing)
  {
    hide NoRepeats;
    assert forall i :: 0 <= i < |items| ==> items[i] in items && Numbers(added)[i] == Numbers(items)[i];
    if forall x :: x in items ==> x.key.number !in NumberSet(listing) {
      NoRepeatsAppend(listing, added, NumberSet(listing));
    } else {
      var x :| x in items && x.key.number in NumberSet(listing);
      var i :| 0 <= i < |items| && items[i] == x;
      RepeatsAppend(listing, added, i);
    }
  }

  lemma NumbersCopied(t: Table<FavKey, Fav>, nodeId: nat, items: seq<FavRow>)
    ensures Numbers(AddedRows(t, nodeId, items)) == Numbers(items)
  {
    hide AddedRows;
    forall i | 0 <= i < |items| ensures AddedRows(t, nodeId, items)[i].key.number == items[i].key.number {
      AddedAreCopies(t, nodeId, items, i);
    }
  }

  /** The numbers a node lists. */
  function NodeNumbers(db: Db, nodeId: nat): set<string> {
    NumberSet(Listing(db.favs.rows, nodeId))
  }

  lemma NodeNumbersUnder(db: Db, nodeId: nat)
    ensures NodeNumbers(db, nodeId) == NumberSet(Under(db.favs.rows, nodeId))
  {
    hide Under;
  }

  /** Each row the copy could read, if the target has its number, has one the copy saw there. */
  ghost predicate SeesAll(env: Env, db: Db, src: nat, dst: nat, ids: seq<nat>) {
    forall id :: id in ReadIds(env, db, src, dst, ids) ==>
      var row := Select(db.favs.rows, id, src);
      row.Some? && row.value.key.number in NodeNumbers(db, dst) ==> row.value.key.number in Seen(env, db, dst)
  }

  /**
   Copying keeps the target's numbers unique, whatever statements fail, if its numbers were read
   to the end: an error rolls it back.  A read that breaks off goes unnoticed, and then it does so
   exactly if the copy fails or saw each number it came to copy that was there.
   */
  lemma CopyKeepsUnique(env: Env, db: Db, src: nat, dst: nat, ids: seq<nat>)
    requires Valid(db.favs) && NoRepeats(Numbers(Listing(db.favs.rows, dst)))
    ensures var r := CopyFavorites(env, db, src, dst, ids);
      NoRepeats(Numbers(Listing(r.db.favs.rows, dst))) <==> r.result.Err? || SeesAll(env, db, src, dst, ids)
    ensures !Down(env, db) ==> SeesAll(env, db, src, dst, ids)
  {
    hide CopyFavorites, Listing, Under, NewOnes, Append, Valid, Select, Subsequence, AddedRows, NoRepeats, ReadIds,
         CopyOf, RowsRead;
    CopyIs(env, db, src, dst, ids);
    NodeNumbersUnder(db, dst);
    if CopyFavorites(env, db, src, dst, ids).result.Ok? {
      var items := Copied(env, db, src, dst, ids);
      CopyAppends(env, db, src, dst, ids, dst);
      NewOnesFacts(db.favs.rows, src, Seen(env, db, dst), ReadIds(env, db, src, dst, ids));
      NumbersCopied(db.favs, dst, items);
      UniqueAppend(Listing(db.favs.rows, dst), items, AddedRows(db.favs, dst, items));
      SeenOrNew(env, db, src, dst, ids);
    }
  }

  /** The copied numbers are all new to the target exactly if those that are not were seen. */
  lemma SeenOrNew(env: Env, db: Db, src: nat, dst: nat, ids: seq<nat>)
    ensures SeesAll(env, db, src, dst, ids) <==>
            forall x :: x in Copied(env, db, src, dst, ids) ==> x.key.number !in NodeNumbers(db, dst)
  {
    hide NewOnes, Select, ReadIds, Seen, NodeNumbers, NoRepeats;
    var rows, seen, read := db.favs.rows, Seen(env, db, dst), ReadIds(env, db, src, dst, ids);
    var items := Copied(env, db, src, dst, ids);
    NewOnesFacts(rows, src, seen, read);
    NewOnesSelected(rows, src, seen, read);
    forall x | x in items ensures x.key.number !in seen {
      var i :| 0 <= i < |items| && items[i] == x;
    }
    forall id | id in read && Select(rows, id, src).Some?
      ensures var n := Select(rows, id, src).value.key.number; n in seen || n in NumberSet(items)
    {
      var k :| 0 <= k < |read| && read[k] == id;
    }
  }

  lemma {:induction false} NewOnesSelected(rows: seq<FavRow>, src: nat, existing: set<string>, ids: seq<nat>)
    ensures forall x :: x in NewOnes(rows, src, existing, ids) ==>
              exists id :: id in ids && Select(rows, id, src) == Some(x)
    decreases ids
  {
    hide Select;
    if ids != [] {
      var row := Select(rows, ids[0], src);
      assert forall id :: id in ids[1..] ==> id in ids;
      NewOnesSelected(rows, src, existing, ids[1..]);
      if row.Some? { NewOnesSelected(rows, src, existing + {row.value.key.number}, ids[1..]); }
    }
  }

  // ------------------------------------------------------------ a lost read

  function OneFavorite(): Db {
    var node := Row(1, "2", Node("", "", 0, "", "", true, "", ""));
    Db(Table([], 1), Table([node], 2), Table([Row(1, FavKey(1, "1"), Fav("", "", "", "", 0, "", 0))], 2), 0)
  }

  lemma OneFavoriteListed()
    ensures var db := OneFavorite(); var rows := db.favs.rows;
      && Consistent(db) && NoDuplicates(db) && FindId(db.nodes.rows, 1).Some? && FindId(rows, 1) == Some(rows[0])
      && NoRepeats(Numbers(Listing(rows, 1))) && NodeNumbers(db, 1) == {"1"}
      && Under(rows, 1) == rows && Listing(rows, 1) == rows
  {
    var rows := OneFavorite().favs.rows;
    assert rows[1..] == [] && Under(rows, 1) == [rows[0]];
    assert Listing(rows, 1) == [rows[0]];
    assert rows[0] in [rows[0]];
  }

  /** Only the first statement, a query, fails, and it hands out no row. */
  ghost predicate FirstReadLost(env: Env) {
    env.fails(0) && RowsRead(env, 0, OneFavorite().favs.rows) == [] && forall n: nat :: n > 0 ==> !env.fails(n)
  }

  /** A copy whose first query breaks off succeeds, and the favorite is listed twice. */
  lemma BrokenReadRepeats(env: Env)
    requires FirstReadLost(env) && !Refused(env, 0)
    ensures var r := CopyFavorites(env, OneFavorite(), 1, 1, [1]);
      r.result.Ok? && !NoRepeats(Numbers(Listing(r.db.favs.rows, 1)))
  {
    hide Listing, NoRepeats, NodeNumbers, RowsRead, Under, FindId, NextPosition;
    var db := OneFavorite();
    OneFavoriteListed();
    assert [1][1..] == [];
    assert ReadIds(env, db, 1, 1, [1]) == [1];
    assert 1 in ReadIds(env, db, 1, 1, [1]) && Select(db.favs.rows, 1, 1) == Some(db.favs.rows[0]);
    CopyKeepsUnique(env, db, 1, 1, [1]);
  }
}
