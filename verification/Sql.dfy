/**
 The three tables the program reconciles, and what each SQL statement does to them.
 A statement may fail: `Env.fails` says which of the statements, counted by `clock`,
 do.  A failed statement changes no row.  A failing query may have handed out rows before:
 `Env.breaksAfter` says how many, or None if it is refused at once.
 */
module Sql {
  import opened Wrappers
  import opened Tables
  import opened Sorting

  datatype Profile = Profile(fullName: string, avatarUrl: string, qrzUsername: string,
                             qrzPasswordEnc: string, lookupSource: string, webAuthnId: string)

  const BLANK_PROFILE := Profile("", "", "", "", "", "")

  datatype User = User(password: string, permission: string, profile: Profile)

  datatype Node = Node(name: string, amiHost: string, amiPort: int, amiUser: string, amiPass: string,
                       enabled: bool, description: string, location: string)

  datatype FavKey = FavKey(nodeId: nat, number: string)

  datatype Fav = Fav(callsign: string, description: string, location: string, cmd: string,
                     sortOrder: int, groupName: string, position: int)

  type UserRow = Row<string, User>
  type NodeRow = Row<string, Node>
  type FavRow = Row<FavKey, Fav>

  datatype Db = Db(users: Table<string, User>, nodes: Table<string, Node>, favs: Table<FavKey, Fav>, clock: nat)

  /** What the tables do not determine: failing statements and the salted password hash. */
  datatype Env = Env(fails: nat -> bool, breaksAfter: nat -> Option<nat>,
                     bcrypt: (string, nat) -> Option<string>)

  datatype SqlError = NotFound | StatementFailed

  datatype Reply<+T> = Reply(db: Db, result: Result<T, SqlError>)

  const SUPERUSER := "superuser"

  predicate ValidPermission(p: string) {
    p in {SUPERUSER, "admin", "readwrite", "readonly", "none"}
  }

  // ------------------------------------------------------------ invariants

  /** Primary keys, UNIQUE(username) and the foreign key of favorites. */
  ghost predicate Consistent(db: Db) {
    && Valid(db.users) && Valid(db.nodes) && Valid(db.favs)
    && UniqueKeys(db.users.rows)
    && NoOrphans(db)
  }

  ghost predicate NoOrphans(db: Db) {
    forall f :: f in db.favs.rows ==> FindId(db.nodes.rows, f.key.nodeId).Some?
  }

  /** Not constraints of the schema: no node number twice, no favorite twice under one node. */
  ghost predicate NoDuplicates(db: Db) {
    UniqueKeys(db.nodes.rows) && UniqueKeys(db.favs.rows)
  }

  ghost predicate SameTables(a: Db, b: Db) {
    a.users == b.users && a.nodes == b.nodes && a.favs == b.favs
  }

  // ------------------------------------------------------------ statements

  function Tick(db: Db): Db {
    db.(clock := db.clock + 1)
  }

  predicate Down(env: Env, db: Db) {
    env.fails(db.clock)
  }

  /** The query with this number is refused before its first row. */
  predicate Refused(env: Env, at: nat) {
    env.fails(at) && env.breaksAfter(at).None?
  }

  /** Those of its rows that a query hands out, whether it fails or not. */
  function RowsRead<T>(env: Env, at: nat, rows: seq<T>): (r: seq<T>)
    ensures r <= rows && (!env.fails(at) ==> r == rows)
  {
    if !env.fails(at) then rows
    else match env.breaksAfter(at)
      case None => []
      case Some(n) => if n < |rows| then rows[..n] else rows
  }

  function Failed<T>(db: Db): Reply<T> {
    Reply(Tick(db), Err(StatementFailed))
  }

  function Found<T>(row: Option<T>): Result<T, SqlError> {
    if row.Some? then Ok(row.value) else Err(NotFound)
  }

  function GetUser(env: Env, db: Db, username: string): Reply<UserRow> {
    if Down(env, db) then Failed(db) else Reply(Tick(db), Found(Find(db.users.rows, username)))
  }

  /** The lexicographic order of ORDER BY on a text column. */
  predicate StrLe(a: string, b: string) {
    a == "" || (b != "" && (a[0] < b[0] || (a[0] == b[0] && StrLe(a[1..], b[1..]))))
  }

  predicate UserBefore(x: UserRow, y: UserRow) { StrLe(x.key, y.key) }

  function ListUsers(env: Env, db: Db): Reply<seq<UserRow>> {
    if Down(env, db) then Failed(db) else Reply(Tick(db), Ok(Sort(UserBefore, db.users.rows)))
  }

  function CreateUser(env: Env, db: Db, username: string, hash: string, permission: string): Reply<nat> {
    if Down(env, db) || Find(db.users.rows, username).Some? then Failed(db)
    else Reply(Tick(db).(users := Insert(db.users, username, User(hash, permission, BLANK_PROFILE))), Ok(db.users.next))
  }

  function UpdateUserPermission(env: Env, db: Db, id: nat, permission: string): Reply<()> {
    if Down(env, db) then Failed(db)
    else match FindId(db.users.rows, id)
      case None => Reply(Tick(db), Ok(()))
      case Some(u) => Reply(Tick(db).(users := Put(db.users, u.(value := u.value.(permission := permission)))), Ok(()))
  }

  function UpdateUserPassword(env: Env, db: Db, id: nat, hash: string): Reply<()> {
    if Down(env, db) then Failed(db)
    else match FindId(db.users.rows, id)
      case None => Reply(Tick(db), Ok(()))
      case Some(u) => Reply(Tick(db).(users := Put(db.users, u.(value := u.value.(password := hash)))), Ok(()))
  }

  function DeleteUser(env: Env, db: Db, id: nat): Reply<()> {
    if Down(env, db) then Failed(db) else Reply(Tick(db).(users := Delete(db.users, id)), Ok(()))
  }

  predicate IsSuperuser(u: UserRow) { u.value.permission == SUPERUSER }

  function Superusers(rows: seq<UserRow>): nat {
    Count(IsSuperuser, rows)
  }

  function CountSuperusers(env: Env, db: Db): Reply<nat> {
    if Down(env, db) then Failed(db) else Reply(Tick(db), Ok(Superusers(db.users.rows)))
  }

  function GetNodeByNumber(env: Env, db: Db, number: string): Reply<NodeRow> {
    if Down(env, db) then Failed(db) else Reply(Tick(db), Found(Find(db.nodes.rows, number)))
  }

  predicate NodeBefore(x: NodeRow, y: NodeRow) { StrLe(x.value.name, y.value.name) }

  function ListNodes(env: Env, db: Db): Reply<seq<NodeRow>> {
    if Down(env, db) then Failed(db) else Reply(Tick(db), Ok(Sort(NodeBefore, db.nodes.rows)))
  }

  function CreateNode(env: Env, db: Db, number: string, n: Node): Reply<nat> {
    if Down(env, db) then Failed(db)
    else Reply(Tick(db).(nodes := Insert(db.nodes, number, n)), Ok(db.nodes.next))
  }

  function UpdateNode(env: Env, db: Db, id: nat, number: string, n: Node): Reply<()> {
    if Down(env, db) then Failed(db) else Reply(Tick(db).(nodes := Put(db.nodes, Row(id, number, n))), Ok(()))
  }

  /** The favorites that do not belong to a node. */
  function NotUnder(rows: seq<FavRow>, nodeId: nat): (r: seq<FavRow>)
    ensures forall x :: x in r <==> x in rows && x.key.nodeId != nodeId
  {
    if rows == [] then []
    else
      assert forall x :: x in rows <==> x == rows[0] || x in rows[1..];
      if rows[0].key.nodeId == nodeId then NotUnder(rows[1..], nodeId) else [rows[0]] + NotUnder(rows[1..], nodeId)
  }

  /** The favorites of a node, in table order. */
  function Under(rows: seq<FavRow>, nodeId: nat): (r: seq<FavRow>)
    ensures forall x :: x in r <==> x in rows && x.key.nodeId == nodeId
  {
    if rows == [] then []
    else
      assert forall x :: x in rows <==> x == rows[0] || x in rows[1..];
      if rows[0].key.nodeId == nodeId then [rows[0]] + Under(rows[1..], nodeId) else Under(rows[1..], nodeId)
  }

  /** The foreign key is ON DELETE CASCADE. */
  function DeleteNode(env: Env, db: Db, id: nat): Reply<()> {
    if Down(env, db) then Failed(db)
    else Reply(Tick(db).(nodes := Delete(db.nodes, id), favs := db.favs.(rows := NotUnder(db.favs.rows, id))), Ok(()))
  }

  predicate FavBefore(x: FavRow, y: FavRow) {
    x.value.position < y.value.position || (x.value.position == y.value.position && x.id <= y.id)
  }

  /** A node's favorites ORDER BY position, id. */
  function Listing(rows: seq<FavRow>, nodeId: nat): (r: seq<FavRow>)
    ensures forall x :: x in r <==> x in rows && x.key.nodeId == nodeId
  {
    Sort(FavBefore, Under(rows, nodeId))
  }

  function ListFavoritesByNode(env: Env, db: Db, nodeId: nat): Reply<seq<FavRow>> {
    if Down(env, db) then Failed(db) else Reply(Tick(db), Ok(Listing(db.favs.rows, nodeId)))
  }

  function GetFavoriteByNodeNumber(env: Env, db: Db, nodeId: nat, number: string): Reply<FavRow> {
    if Down(env, db) then Failed(db) else Reply(Tick(db), Found(Find(db.favs.rows, FavKey(nodeId, number))))
  }

  /** COALESCE((SELECT MAX(position)+1 ...), 0). */
  function NextPosition(rows: seq<FavRow>, nodeId: nat): (p: int)
    ensures forall x :: x in rows && x.key.nodeId == nodeId ==> x.value.position < p
  {
    var mine := Under(rows, nodeId);
    if mine == [] then 0 else MaxPosition(mine) + 1
  }

  function MaxPosition(rows: seq<FavRow>): (p: int)
    requires rows != []
    ensures forall x :: x in rows ==> x.value.position <= p
    ensures exists x :: x in rows && x.value.position == p
  {
    assert rows == [rows[0]] + rows[1..];
    if |rows| == 1 then rows[0].value.position
    else
      var m := MaxPosition(rows[1..]);
      if m < rows[0].value.position then rows[0].value.position else m
  }

  /** INSERT INTO favorites: the foreign key must hold, the position is the node's next one. */
  function CreateFavorite(env: Env, db: Db, key: FavKey, f: Fav): Reply<nat> {
    if Down(env, db) || FindId(db.nodes.rows, key.nodeId).None? then Failed(db)
    else
      Reply(Tick(db).(favs := Insert(db.favs, key, f.(position := NextPosition(db.favs.rows, key.nodeId)))),
            Ok(db.favs.next))
  }

  /** UPDATE favorites: the owning node and the position stay. */
  function UpdateFavorite(env: Env, db: Db, id: nat, number: string, f: Fav): Reply<()> {
    if Down(env, db) then Failed(db)
    else match FindId(db.favs.rows, id)
      case None => Reply(Tick(db), Ok(()))
      case Some(x) =>
        var row := Row(id, FavKey(x.key.nodeId, number), f.(position := x.value.position));
        Reply(Tick(db).(favs := Put(db.favs, row)), Ok(()))
  }

  function DeleteFavorite(env: Env, db: Db, id: nat): Reply<()> {
    if Down(env, db) then Failed(db) else Reply(Tick(db).(favs := Delete(db.favs, id)), Ok(()))
  }

  // -------------------------------------------------------------- ORDER BY

  lemma {:induction false} StrTotal(a: string, b: string)
    ensures StrLe(a, b) || StrLe(b, a)
    decreases a
  {
    if a != "" && b != "" && a[0] == b[0] { StrTotal(a[1..], b[1..]); }
  }

  lemma {:induction false} StrTransitive(a: string, b: string, c: string)
    requires StrLe(a, b) && StrLe(b, c)
    ensures StrLe(a, c)
    decreases a
  {
    if a != "" && a[0] == b[0] && b[0] == c[0] { StrTransitive(a[1..], b[1..], c[1..]); }
  }

  lemma NameOrders()
    ensures TotalOrder(UserBefore) && TotalOrder(NodeBefore)
  {
    hide StrLe;
    forall a, b { StrTotal(a, b); }
    forall a, b, c | StrLe(a, b) && StrLe(b, c) { StrTransitive(a, b, c); }
  }

  /** One text begins the other, or has the smaller character where they first differ. */
  ghost predicate Alphabetical(a: string, b: string) {
    a <= b || exists i: nat :: i < |a| && i < |b| && a[..i] == b[..i] && a[i] < b[i]
  }

  lemma {:induction false} StrLeMeans(a: string, b: string)
    ensures StrLe(a, b) ==> Alphabetical(a, b)
    decreases a
  {
    if StrLe(a, b) && a != "" {
      if a[0] < b[0] {
        assert a[..0] == b[..0];
      } else {
        StrLeMeans(a[1..], b[1..]);
        assert a == [a[0]] + a[1..] && b == [b[0]] + b[1..];
        if !(a[1..] <= b[1..]) {
          var i: nat :| i < |a[1..]| && i < |b[1..]| && a[1..][..i] == b[1..][..i] && a[1..][i] < b[1..][i];
          assert a[..i+1] == [a[0]] + a[1..][..i] && b[..i+1] == [b[0]] + b[1..][..i];
          assert a[i+1] < b[i+1];
        }
      }
    }
  }

  /** The listings of users and of nodes hold every row, in the order of their names. */
  lemma ListingsOrdered(env: Env, db: Db)
    ensures var users := ListUsers(env, db).result;
      users.Ok? ==>
        && multiset(users.value) == multiset(db.users.rows)
        && forall i, j :: 0 <= i < j < |users.value| ==> Alphabetical(users.value[i].key, users.value[j].key)
    ensures var nodes := ListNodes(env, db).result;
      nodes.Ok? ==>
        && multiset(nodes.value) == multiset(db.nodes.rows)
        && forall i, j :: 0 <= i < j < |nodes.value| ==>
             Alphabetical(nodes.value[i].value.name, nodes.value[j].value.name)
  {
    NameOrders();
    SortSorted(UserBefore, db.users.rows);
    SortSorted(NodeBefore, db.nodes.rows);
    hide StrLe, Alphabetical, Sort;
    forall a, b { StrLeMeans(a, b); }
  }
}
