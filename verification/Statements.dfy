/** What each write statement does to the columns of every row. */
module Statements {
  import opened Wrappers
  import opened Tables
  import opened Sql

  /** The statement found its table in order and went through; the other tables are as they were. */
  ghost predicate Went<T>(db: Db, reply: Reply<T>, users: bool, nodes: bool, favs: bool) {
    && reply.result.Ok? && reply.db.clock == db.clock + 1
    && (!users ==> reply.db.users == db.users) && (!nodes ==> reply.db.nodes == db.nodes)
    && (!favs ==> reply.db.favs == db.favs)
  }

  /** The rows keep their places, and all but those with this id their columns. */
  ghost predicate InPlace<K(!new), V(!new)>(a: Table<K, V>, b: Table<K, V>, id: nat) {
    && |b.rows| == |a.rows| && b.next == a.next
    && forall i :: 0 <= i < |a.rows| ==> b.rows[i].id == a.rows[i].id && (a.rows[i].id != id ==> b.rows[i] == a.rows[i])
  }

  lemma FoundAt<K(!new), V(!new)>(rows: seq<Row<K, V>>, i: nat)
    requires DistinctIds(rows) && i < |rows|
    ensures FindId(rows, rows[i].id) == Some(rows[i])
  {
    FindIdOfRow(rows, rows[i]);
  }

  lemma PutInPlace<K(!new), V(!new)>(t: Table<K, V>, row: Row<K, V>)
    ensures InPlace(t, Put(t, row), row.id)
  {
  }

  /** An update of a user sets one column, of the row with the id if there is one. */
  lemma UserUpdates(env: Env, db: Db, id: nat, text: string, i: nat)
    requires Valid(db.users) && !env.fails(db.clock) && i < |db.users.rows|
    ensures var r := UpdateUserPermission(env, db, id, text);
      && Went(db, r, true, false, false) && InPlace(db.users, r.db.users, id)
      && var x, y := db.users.rows[i], r.db.users.rows[i];
         x.id == id ==> y.key == x.key && y.value.permission == text && y.value.password == x.value.password
                        && y.value.profile == x.value.profile
    ensures var r := UpdateUserPassword(env, db, id, text);
      && Went(db, r, true, false, false) && InPlace(db.users, r.db.users, id)
      && var x, y := db.users.rows[i], r.db.users.rows[i];
         x.id == id ==> y.key == x.key && y.value.password == text && y.value.permission == x.value.permission
                        && y.value.profile == x.value.profile
  {
    hide FindId;
    var u := FindId(db.users.rows, id);
    if u.Some? {
      PutInPlace(db.users, u.value.(value := u.value.value.(permission := text)));
      PutInPlace(db.users, u.value.(value := u.value.value.(password := text)));
    }
    FoundAt(db.users.rows, i);
  }

  /** An update of a node sets every column. */
  lemma NodeUpdates(env: Env, db: Db, id: nat, number: string, n: Node, i: nat)
    requires !env.fails(db.clock) && i < |db.nodes.rows|
    ensures var r := UpdateNode(env, db, id, number, n);
      && Went(db, r, false, true, false) && InPlace(db.nodes, r.db.nodes, id)
      && (db.nodes.rows[i].id == id ==> r.db.nodes.rows[i] == Row(id, number, n))
  {
    PutInPlace(db.nodes, Row(id, number, n));
  }

  /** An update of a favorite sets its number and six columns; owner and position stay. */
  lemma FavoriteUpdates(env: Env, db: Db, id: nat, number: string, f: Fav, i: nat)
    requires Valid(db.favs) && !env.fails(db.clock) && i < |db.favs.rows|
    ensures var r := UpdateFavorite(env, db, id, number, f);
      && Went(db, r, false, false, true) && InPlace(db.favs, r.db.favs, id)
      && var x, y := db.favs.rows[i], r.db.favs.rows[i];
         x.id == id ==> y.key.nodeId == x.key.nodeId && y.key.number == number && y.value.position == x.value.position
                        && y.value.(position := f.position) == f
  {
    hide FindId;
    var x := FindId(db.favs.rows, id);
    if x.Some? {
      PutInPlace(db.favs, Row(id, FavKey(x.value.key.nodeId, number), f.(position := x.value.value.position)));
    }
    FoundAt(db.favs.rows, i);
  }

  /** One more row at the end, with an id no row has, and that id is the answer. */
  ghost predicate Added<K(!new), V(!new)>(a: Table<K, V>, b: Table<K, V>, key: K, value: V, r: Result<nat, SqlError>) {
    && r.Ok? && b.rows == a.rows + [Row(r.value, key, value)] && (forall x :: x in a.rows ==> x.id != r.value)
    && Valid(b)
  }

  /** An insert adds one row with the columns given, a favorite behind all others of its node. */
  lemma Inserts(env: Env, db: Db, name: string, text: string, permission: string, n: Node, key: FavKey, f: Fav)
    requires Valid(db.users) && Valid(db.nodes) && Valid(db.favs) && !env.fails(db.clock)
    ensures var r := CreateUser(env, db, name, text, permission);
      if exists x :: x in db.users.rows && x.key == name then r == Reply(db.(clock := db.clock + 1), Err(StatementFailed))
      else
        && Went(db, r, true, false, false)
        && Added(db.users, r.db.users, name, User(text, permission, Profile("", "", "", "", "", "")), r.result)
    ensures var r := CreateNode(env, db, name, n);
      Went(db, r, false, true, false) && Added(db.nodes, r.db.nodes, name, n, r.result)
    ensures var r := CreateFavorite(env, db, key, f);
      if forall x :: x in db.nodes.rows ==> x.id != key.nodeId
      then r == Reply(db.(clock := db.clock + 1), Err(StatementFailed))
      else
        && Went(db, r, false, false, true)
        && exists p :: Added(db.favs, r.db.favs, key, f.(position := p), r.result)
             && forall x :: x in db.favs.rows && x.key.nodeId == key.nodeId ==> x.value.position < p
  {
    hide Find, FindId, NextPosition;
    InsertMembers(db.users, name, User(text, permission, BLANK_PROFILE));
    InsertMembers(db.nodes, name, n);
    var p := NextPosition(db.favs.rows, key.nodeId);
    InsertMembers(db.favs, key, f.(position := p));
    if FindId(db.nodes.rows, key.nodeId).Some? {
      assert Added(db.favs, CreateFavorite(env, db, key, f).db.favs, key, f.(position := p),
                   CreateFavorite(env, db, key, f).result);
    }
  }

  /** A delete takes the row with the id, a node its favorites too, and no other row. */
  lemma Deletes(env: Env, db: Db, id: nat)
    requires !env.fails(db.clock)
    ensures var r := DeleteUser(env, db, id);
      Went(db, r, true, false, false) && forall x :: x in r.db.users.rows <==> x in db.users.rows && x.id != id
    ensures var r := DeleteFavorite(env, db, id);
      Went(db, r, false, false, true) && forall x :: x in r.db.favs.rows <==> x in db.favs.rows && x.id != id
    ensures var r := DeleteNode(env, db, id);
      && Went(db, r, false, true, true)
      && (forall x :: x in r.db.nodes.rows <==> x in db.nodes.rows && x.id != id)
      && (forall x :: x in r.db.favs.rows <==> x in db.favs.rows && x.key.nodeId != id)
  {
  }

  /** A write that fails changes no table. */
  lemma FailedWrites(env: Env, db: Db, id: nat, name: string, text: string, n: Node, key: FavKey, f: Fav)
    requires env.fails(db.clock)
    ensures var down := db.(clock := db.clock + 1);
      && CreateUser(env, db, name, text, text) == Reply(down, Err(StatementFailed)) == CreateNode(env, db, name, n)
      && CreateFavorite(env, db, key, f) == Reply(down, Err(StatementFailed))
      && UpdateUserPermission(env, db, id, text) == Reply(down, Err(StatementFailed))
      && UpdateUserPassword(env, db, id, text) == Reply(down, Err(StatementFailed))
      && UpdateNode(env, db, id, name, n) == Reply(down, Err(StatementFailed))
      && UpdateFavorite(env, db, id, name, f) == Reply(down, Err(StatementFailed))
      && DeleteUser(env, db, id) == Reply(down, Err(StatementFailed))
      && DeleteNode(env, db, id) == Reply(down, Err(StatementFailed)) == DeleteFavorite(env, db, id)
  {
  }
}
