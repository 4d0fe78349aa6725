/** The database handle: the tables as fields that every statement updates in place. */
module Databases {
  import opened Wrappers
  import opened Tables
  import opened Sorting
  import opened Sql

  class Database {
    const env: Env
    var users: Table<string, User>
    var nodes: Table<string, Node>
    var favs: Table<FavKey, Fav>
    var clock: nat

    ghost function State(): Db
      reads this
    {
      Db(users, nodes, favs, clock)
    }

    constructor (env: Env)
      ensures this.env == env && State() == Db(Table([], 1), Table([], 1), Table([], 1), 0)
    {
      this.env := env;
      users, nodes, favs, clock := Table([], 1), Table([], 1), Table([], 1), 0;
    }

    /** Sends one statement; false when it fails. */
    method Exec() returns (ok: bool)
      modifies this`clock
      ensures clock == old(clock) + 1 && ok == !env.fails(old(clock))
    {
      ok := !env.fails(clock);
      clock := clock + 1;
    }

    method GetUser(username: string) returns (r: Result<UserRow, SqlError>)
      modifies this`clock
      ensures Reply(State(), r) == Sql.GetUser(env, old(State()), username)
    {
      var ok := Exec();
      if !ok { return Err(StatementFailed); }
      r := Found(Find(users.rows, username));
    }

    method ListUsers() returns (r: Result<seq<UserRow>, SqlError>)
      modifies this`clock
      ensures Reply(State(), r) == Sql.ListUsers(env, old(State()))
    {
      var ok := Exec();
      if !ok { return Err(StatementFailed); }
      r := Ok(Sort(UserBefore, users.rows));
    }

    method CreateUser(username: string, hash: string, permission: string) returns (r: Result<nat, SqlError>)
      modifies this`clock, this`users
      ensures Reply(State(), r) == Sql.CreateUser(env, old(State()), username, hash, permission)
    {
      var ok := Exec();
      if !ok || Find(users.rows, username).Some? { return Err(StatementFailed); }
      r := Ok(users.next);
      users := Insert(users, username, User(hash, permission, BLANK_PROFILE));
    }

    method UpdateUserPermission(id: nat, permission: string) returns (r: Result<(), SqlError>)
      modifies this`clock, this`users
      ensures Reply(State(), r) == Sql.UpdateUserPermission(env, old(State()), id, permission)
    {
      var ok := Exec();
      if !ok { return Err(StatementFailed); }
      r := Ok(());
      var u := FindId(users.rows, id);
      if u.Some? {
        users := Put(users, u.value.(value := u.value.value.(permission := permission)));
      }
    }

    method UpdateUserPassword(id: nat, hash: string) returns (r: Result<(), SqlError>)
      modifies this`clock, this`users
      ensures Reply(State(), r) == Sql.UpdateUserPassword(env, old(State()), id, hash)
    {
      var ok := Exec();
      if !ok { return Err(StatementFailed); }
      r := Ok(());
      var u := FindId(users.rows, id);
      if u.Some? {
        users := Put(users, u.value.(value := u.value.value.(password := hash)));
      }
    }

    method DeleteUser(id: nat) returns (r: Result<(), SqlError>)
      modifies this`clock, this`users
      ensures Reply(State(), r) == Sql.DeleteUser(env, old(State()), id)
    {
      var ok := Exec();
      if !ok { return Err(StatementFailed); }
      users := Delete(users, id);
      r := Ok(());
    }

    method CountSuperusers() returns (r: Result<nat, SqlError>)
      modifies this`clock
      ensures Reply(State(), r) == Sql.CountSuperusers(env, old(State()))
    {
      var ok := Exec();
      if !ok { return Err(StatementFailed); }
      r := Ok(Superusers(users.rows));
    }

    method GetNodeByNumber(number: string) returns (r: Result<NodeRow, SqlError>)
      modifies this`clock
      ensures Reply(State(), r) == Sql.GetNodeByNumber(env, old(State()), number)
    {
      var ok := Exec();
      if !ok { return Err(StatementFailed); }
      r := Found(Find(nodes.rows, number));
    }

    method ListNodes() returns (r: Result<seq<NodeRow>, SqlError>)
      modifies this`clock
      ensures Reply(State(), r) == Sql.ListNodes(env, old(State()))
    {
      var ok := Exec();
      if !ok { return Err(StatementFailed); }
      r := Ok(Sort(NodeBefore, nodes.rows));
    }

    method CreateNode(number: string, n: Node) returns (r: Result<nat, SqlError>)
      modifies this`clock, this`nodes
      ensures Reply(State(), r) == Sql.CreateNode(env, old(State()), number, n)
    {
      var ok := Exec();
      if !ok { return Err(StatementFailed); }
      r := Ok(nodes.next);
      nodes := Insert(nodes, number, n);
    }

    method UpdateNode(id: nat, number: string, n: Node) returns (r: Result<(), SqlError>)
      modifies this`clock, this`nodes
      ensures Reply(State(), r) == Sql.UpdateNode(env, old(State()), id, number, n)
    {
      var ok := Exec();
      if !ok { return Err(StatementFailed); }
      nodes := Put(nodes, Row(id, number, n));
      r := Ok(());
    }

    method DeleteNode(id: nat) returns (r: Result<(), SqlError>)
      modifies this`clock, this`nodes, this`favs
      ensures Reply(State(), r) == Sql.DeleteNode(env, old(State()), id)
    {
      var ok := Exec();
      if !ok { return Err(StatementFailed); }
      nodes := Delete(nodes, id);
      favs := favs.(rows := NotUnder(favs.rows, id));
      r := Ok(());
    }

    /** The rows come with the error too, as far as they were read. */
    method ListFavoritesByNode(nodeId: nat) returns (read: seq<FavRow>, r: Result<seq<FavRow>, SqlError>)
      modifies this`clock
      ensures Reply(State(), r) == Sql.ListFavoritesByNode(env, old(State()), nodeId)
      ensures read == RowsRead(env, old(clock), Listing(favs.rows, nodeId))
    {
      read := RowsRead(env, clock, Listing(favs.rows, nodeId));
      var ok := Exec();
      if !ok { return read, Err(StatementFailed); }
      r := Ok(read);
    }

    method GetFavoriteByNodeNumber(nodeId: nat, number: string) returns (r: Result<FavRow, SqlError>)
      modifies this`clock
      ensures Reply(State(), r) == Sql.GetFavoriteByNodeNumber(env, old(State()), nodeId, number)
    {
      var ok := Exec();
      if !ok { return Err(StatementFailed); }
      r := Found(Find(favs.rows, FavKey(nodeId, number)));
    }

    method CreateFavorite(key: FavKey, f: Fav) returns (r: Result<nat, SqlError>)
      modifies this`clock, this`favs
      ensures Reply(State(), r) == Sql.CreateFavorite(env, old(State()), key, f)
    {
      var ok := Exec();
      if !ok || FindId(nodes.rows, key.nodeId).None? { return Err(StatementFailed); }
      r := Ok(favs.next);
      favs := Insert(favs, key, f.(position := NextPosition(favs.rows, key.nodeId)));
    }

    method UpdateFavorite(id: nat, number: string, f: Fav) returns (r: Result<(), SqlError>)
      modifies this`clock, this`favs
      ensures Reply(State(), r) == Sql.UpdateFavorite(env, old(State()), id, number, f)
    {
      var ok := Exec();
      if !ok { return Err(StatementFailed); }
      r := Ok(());
      var x := FindId(favs.rows, id);
      if x.Some? {
        favs := Put(favs, Row(id, FavKey(x.value.key.nodeId, number), f.(position := x.value.value.position)));
      }
    }

    method DeleteFavorite(id: nat) returns (r: Result<(), SqlError>)
      modifies this`clock, this`favs
      ensures Reply(State(), r) == Sql.DeleteFavorite(env, old(State()), id)
    {
      var ok := Exec();
      if !ok { return Err(StatementFailed); }
      favs := Delete(favs, id);
      r := Ok(());
    }
  }
}
