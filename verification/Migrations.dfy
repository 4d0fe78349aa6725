/** The ordered schema migrations, and what each statement does to the tables there are. */
module Migrations {
  import opened Wrappers

  datatype Table =
    | Nodes | Favorites | Users | Configs | TlsCerts | TailscaleLogins
    | StatsCache | QrzCache | WebauthnCredentials | WebauthnSessions

  datatype Column =
    | Id | Name | NodeNumber | AmiHost | AmiPort | AmiUser | AmiPass | Enabled | CreatedAt
    | NodeId | Callsign | Description | Location | Cmd | SortOrder | GroupName | Position
    | Username | Password | Permission | FullName | AvatarUrl | TailscaleUsernames
    | Key | Value | UpdatedAt | CertPem | KeyPem | GeneratedAt
    | Login | UserId | StatsJson | RecordJson | FetchedAt
    | QrzUsername | QrzPasswordEnc | LookupSource
    | WebauthnId | CredentialId | CredentialJson | LastUsedAt
    | SessionId | Ceremony | SessionJson | ExpiresAt | Rpid | Origin

  type Schema = map<Table, set<Column>>

  datatype Statement =
    | CreateIfMissing(table: Table, columns: set<Column>)
    | AddColumn(table: Table, column: Column)
    | DropIfPresent(table: Table, column: Column)

  const COUNT := 11

  datatype Migration = Migration(version: nat, statements: seq<Statement>)

  function MigrationList(): (list: seq<Migration>)
    ensures |list| == COUNT && forall i :: 0 <= i < COUNT ==> list[i].version == i + 1
  {
    [
      Migration(1, [
        CreateIfMissing(Nodes, {Id, Name, NodeNumber, AmiHost, AmiPort, AmiUser, AmiPass, Enabled, CreatedAt}),
        CreateIfMissing(Favorites,
          {Id, NodeId, NodeNumber, Callsign, Description, Location, Cmd, SortOrder, GroupName, CreatedAt}),
        CreateIfMissing(Users, {Id, Username, Password, Permission, CreatedAt}),
        CreateIfMissing(Configs, {Key, Value, UpdatedAt}),
        CreateIfMissing(TlsCerts, {Id, CertPem, KeyPem, GeneratedAt})]),
      Migration(2, [AddColumn(Favorites, Position)]),
      Migration(3, [AddColumn(Nodes, Description), AddColumn(Nodes, Location)]),
      Migration(4, [AddColumn(Users, FullName), AddColumn(Users, AvatarUrl)]),
      Migration(5, [AddColumn(Users, TailscaleUsernames)]),
      Migration(6, [CreateIfMissing(TailscaleLogins, {Login, UserId}), DropIfPresent(Users, TailscaleUsernames)]),
      Migration(7, [CreateIfMissing(StatsCache, {NodeNumber, StatsJson, UpdatedAt})]),
      Migration(8, [CreateIfMissing(QrzCache, {Callsign, RecordJson, FetchedAt})]),
      Migration(9, [AddColumn(Users, QrzUsername), AddColumn(Users, QrzPasswordEnc), AddColumn(Users, LookupSource)]),
      Migration(10, [
        AddColumn(Users, WebauthnId),
        CreateIfMissing(WebauthnCredentials, {Id, UserId, CredentialId, Name, CredentialJson, CreatedAt, LastUsedAt}),
        CreateIfMissing(WebauthnSessions, {SessionId, Ceremony, UserId, SessionJson, ExpiresAt})]),
      Migration(11, [AddColumn(WebauthnSessions, Rpid), AddColumn(WebauthnSessions, Origin)])
    ]
  }

  /**
   One statement; it fails on a table that is missing or a column that is there. Whether a column
   is present is a query of its own, and when that fails the column counts as absent.
   */
  function Execute(s: Schema, st: Statement, queryWorks: bool): Option<Schema> {
    match st
    case CreateIfMissing(t, cols) => Some(if t in s then s else s[t := cols])
    case AddColumn(t, c) => if t in s && c !in s[t] then Some(s[t := s[t] + {c}]) else None
    case DropIfPresent(t, c) => Some(if queryWorks && t in s && c in s[t] then s[t := s[t] - {c}] else s)
  }

  function ExecuteAll(s: Schema, sts: seq<Statement>, queryWorks: bool): Option<Schema>
    decreases sts
  {
    if sts == [] then Some(s)
    else
      match Execute(s, sts[0], queryWorks)
      case Some(s') => ExecuteAll(s', sts[1..], queryWorks)
      case None => None
  }

  /** The schema after the first n migrations, each once and in order; `kept` if the column query failed. */
  function Built(n: nat, kept: bool): Option<Schema>
    requires n <= COUNT
  {
    if n == 0 then Some(map[])
    else
      match Built(n - 1, kept)
      case Some(s) => ExecuteAll(s, MigrationList()[n - 1].statements, !kept)
      case None => None
  }

  // -------------------------------------------------------------- opening

  /** The database file: its version table, if there is one yet, and its other tables. */
  datatype File = File(versions: Option<set<nat>>, schema: Schema)

  const NEW_FILE := File(None, map[])

  /**
   What goes wrong while a file is opened: `stops(v)` fails or interrupts the transaction of v,
   and migration 6 takes a failed column query for an absent column.
   */
  datatype Faults = Faults(createWorks: bool, readWorks: bool, columnQueryWorks: bool, stops: nat -> bool)

  function Versions(f: File): set<nat> {
    if f.versions.Some? then f.versions.value else {}
  }

  /** The transaction of one migration: all of it, or nothing. */
  function Transact(f: File, m: Migration, faults: Faults): Option<File> {
    match ExecuteAll(f.schema, m.statements, faults.columnQueryWorks)
    case None => None
    case Some(s) =>
      if m.version in Versions(f) || faults.stops(m.version) then None
      else Some(File(Some(Versions(f) + {m.version}), s))
  }

  /** The loop from migration i on; the flag says whether it got through. */
  function MigrateFrom(f: File, current: nat, i: nat, faults: Faults): (File, bool)
    requires i <= COUNT
    decreases COUNT - i
  {
    if i == COUNT then (f, true)
    else if MigrationList()[i].version <= current then MigrateFrom(f, current, i + 1, faults)
    else
      match Transact(f, MigrationList()[i], faults)
      case None => (f, false)
      case Some(f') => MigrateFrom(f', current, i + 1, faults)
  }

  ghost function LargestOf(s: set<nat>): (m: nat)
    ensures m == 0 || m in s
    ensures forall v :: v in s ==> v <= m
  {
    if s == {} then 0 else
      var v :| v in s;
      var m := LargestOf(s - {v});
      assert forall w :: w in s ==> w == v || w in s - {v};
      if m < v then v else m
  }

  ghost function Current(f: File, faults: Faults): nat {
    if faults.readWorks then LargestOf(Versions(f)) else 0
  }

  ghost function Opened(f: File, faults: Faults): (File, bool) {
    if !faults.createWorks then (f, false)
    else
      var f1 := f.(versions := Some(Versions(f)));
      MigrateFrom(f1, Current(f1, faults), 0, faults)
  }

  class SchemaFile {
    var versions: Option<set<nat>>
    var schema: Schema

    ghost function Contents(): File
      reads this
    {
      File(versions, schema)
    }

    constructor ()
      ensures Contents() == NEW_FILE
    {
      versions, schema := None, map[];
    }

    /** COALESCE(MAX(version), 0). */
    method MaxVersion() returns (m: nat)
      requires versions.Some?
      ensures m == LargestOf(versions.value)
    {
      m := 0;
      var todo := versions.value;
      while todo != {}
        invariant todo <= versions.value
        invariant m == 0 || m in versions.value
        invariant forall v :: v in versions.value && v !in todo ==> v <= m
        decreases |todo|
      {
        var v :| v in todo;
        if m < v { m := v; }
        todo := todo - {v};
      }
    }

    method Migrate(faults: Faults) returns (ok: bool)
      modifies this
      ensures (Contents(), ok) == Opened(old(Contents()), faults)
    {
      if !faults.createWorks { return false; }
      if versions.None? {
        versions := Some({});
      }
      var current := 0;
      if faults.readWorks {
        current := MaxVersion();
      }
      ghost var first := Contents();
      for i := 0 to COUNT
        invariant MigrateFrom(Contents(), current, i, faults) == MigrateFrom(first, current, 0, faults)
        invariant versions.Some?
      {
        var m := MigrationList()[i];
        if m.version <= current { continue; }
        // the open transaction works on a copy until it commits
        var changed := ExecuteAll(schema, m.statements, faults.columnQueryWorks);
        if changed.None? { return false; }
        if m.version in versions.value || faults.stops(m.version) { return false; }
        schema := changed.value;
        versions := Some(versions.value + {m.version});
      }
      ok := true;
    }
  }

  // ----------------------------------------------------------------- laws

  function Upto(n: nat): (s: set<nat>)
    ensures forall v :: v in s <==> 1 <= v <= n
  {
    if n == 0 then {} else Upto(n - 1) + {n}
  }

  /** The version that drops a column, if a query finds it. */
  const DROPS := 6

  /** The file holds exactly the first n migrations, but keeps the column of version 6 if `kept`. */
  ghost predicate Holds(f: File, n: nat, kept: bool) {
    && n <= COUNT
    && (kept ==> DROPS <= n)
    && Versions(f) == Upto(n)
    && Built(n, kept) == Some(f.schema)
  }

  ghost predicate HoldsFirst(f: File, n: nat) {
    Holds(f, n, false)
  }

  lemma LargestOfFirst(f: File, n: nat, kept: bool)
    requires Holds(f, n, kept)
    ensures LargestOf(Versions(f)) == n
  {
    if n > 0 { assert n in Versions(f); }
  }

  lemma OneStatement(s: Schema, st: Statement, q: bool)
    ensures ExecuteAll(s, [st], q) == Execute(s, st, q)
  {
    assert [st][1..] == [];
  }

  lemma MoreStatements(s: Schema, st: Statement, sts: seq<Statement>, q: bool)
    ensures ExecuteAll(s, [st] + sts, q) ==
            if Execute(s, st, q).Some? then ExecuteAll(Execute(s, st, q).value, sts, q) else None
  {
    assert ([st] + sts)[1..] == sts;
  }

  lemma TwoStatements(s: Schema, a: Statement, b: Statement, q: bool)
    ensures ExecuteAll(s, [a, b], q) ==
            if Execute(s, a, q).Some? then Execute(Execute(s, a, q).value, b, q) else None
  {
    assert [a] + [b] == [a, b];
    MoreStatements(s, a, [b], q);
    if Execute(s, a, q).Some? { OneStatement(Execute(s, a, q).value, b, q); }
  }

  lemma ThreeStatements(s: Schema, a: Statement, b: Statement, c: Statement, q: bool)
    ensures ExecuteAll(s, [a, b, c], q) ==
            if Execute(s, a, q).Some? then ExecuteAll(Execute(s, a, q).value, [b, c], q) else None
  {
    assert [a] + [b, c] == [a, b, c];
    MoreStatements(s, a, [b, c], q);
  }

  lemma AddOne(s: Schema, t: Table, c: Column, q: bool)
    requires t in s && c !in s[t]
    ensures ExecuteAll(s, [AddColumn(t, c)], q) == Some(s[t := s[t] + {c}])
  {
    OneStatement(s, AddColumn(t, c), q);
  }

  lemma AddTwo(s: Schema, t: Table, c: Column, d: Column, q: bool)
    requires t in s && c !in s[t] && d !in s[t] && c != d
    ensures ExecuteAll(s, [AddColumn(t, c), AddColumn(t, d)], q) == Some(s[t := s[t] + {c, d}])
  {
    hide ExecuteAll;
    TwoStatements(s, AddColumn(t, c), AddColumn(t, d), q);
    assert s[t] + {c} + {d} == s[t] + {c, d};
    assert s[t := s[t] + {c}][t := s[t] + {c, d}] == s[t := s[t] + {c, d}];
  }

  lemma AddThree(s: Schema, t: Table, c: Column, d: Column, e: Column, q: bool)
    requires t in s && s[t] !! {c, d, e} && c != d && c != e && d != e
    ensures ExecuteAll(s, [AddColumn(t, c), AddColumn(t, d), AddColumn(t, e)], q) == Some(s[t := s[t] + {c, d, e}])
  {
    hide ExecuteAll;
    var s' := s[t := s[t] + {c}];
    ThreeStatements(s, AddColumn(t, c), AddColumn(t, d), AddColumn(t, e), q);
    AddTwo(s', t, d, e, q);
    assert s[t] + {c} + {d, e} == s[t] + {c, d, e};
    assert s'[t := s[t] + {c, d, e}] == s[t := s[t] + {c, d, e}];
  }

  lemma CreateOne(s: Schema, t: Table, cols: set<Column>, q: bool)
    requires t !in s
    ensures ExecuteAll(s, [CreateIfMissing(t, cols)], q) == Some(s[t := cols])
  {
    OneStatement(s, CreateIfMissing(t, cols), q);
  }

  lemma CreateTwo(s: Schema, t: Table, cols: set<Column>, u: Table, cols': set<Column>, q: bool)
    requires t !in s && u !in s && t != u
    ensures ExecuteAll(s, [CreateIfMissing(t, cols), CreateIfMissing(u, cols')], q) == Some(s[t := cols][u := cols'])
  {
    hide ExecuteAll;
    TwoStatements(s, CreateIfMissing(t, cols), CreateIfMissing(u, cols'), q);
  }

  // --------------------------------------------------- the schema in full

  /** The migration that creates a table. */
  function BornIn(t: Table): nat {
    match t
    case TailscaleLogins => 6
    case StatsCache => 7
    case QrzCache => 8
    case WebauthnCredentials => 10
    case WebauthnSessions => 10
    case _ => 1
  }

  /** The columns a table has after the first n migrations. */
  function Columns(t: Table, n: nat, kept: bool): set<Column> {
    match t
    case Nodes =>
      {Id, Name, NodeNumber, AmiHost, AmiPort, AmiUser, AmiPass, Enabled, CreatedAt}
      + (if n >= 3 then {Description, Location} else {})
    case Favorites =>
      {Id, NodeId, NodeNumber, Callsign, Description, Location, Cmd, SortOrder, GroupName, CreatedAt}
      + (if n >= 2 then {Position} else {})
    case Users =>
      {Id, Username, Password, Permission, CreatedAt}
      + (if n >= 4 then {FullName, AvatarUrl} else {})
      + (if n == 5 || (n > 5 && kept) then {TailscaleUsernames} else {})
      + (if n >= 9 then {QrzUsername, QrzPasswordEnc, LookupSource} else {})
      + (if n >= 10 then {WebauthnId} else {})
    case Configs => {Key, Value, UpdatedAt}
    case TlsCerts => {Id, CertPem, KeyPem, GeneratedAt}
    case TailscaleLogins => {Login, UserId}
    case StatsCache => {NodeNumber, StatsJson, UpdatedAt}
    case QrzCache => {Callsign, RecordJson, FetchedAt}
    case WebauthnCredentials => {Id, UserId, CredentialId, Name, CredentialJson, CreatedAt, LastUsedAt}
    case WebauthnSessions =>
      {SessionId, Ceremony, UserId, SessionJson, ExpiresAt} + (if n >= 11 then {Rpid, Origin} else {})
  }

  ghost predicate IsSchema(s: Schema, n: nat, kept: bool) {
    forall t: Table :: (t in s <==> BornIn(t) <= n) && (t in s ==> s[t] == Columns(t, n, kept))
  }

  ghost predicate StepLeads(s: Schema, sts: seq<Statement>, n: nat, kept: bool) {
    ExecuteAll(s, sts, !kept).Some? && IsSchema(ExecuteAll(s, sts, !kept).value, n, kept)
  }

  /** The tables a migration creates or alters. */
  function ChangedIn(n: nat): set<Table> {
    match n
    case 2 => {Favorites}
    case 3 => {Nodes}
    case 6 => {TailscaleLogins, Users}
    case 7 => {StatsCache}
    case 8 => {QrzCache}
    case 10 => {Users, WebauthnCredentials, WebauthnSessions}
    case 11 => {WebauthnSessions}
    case _ => {Users}
  }

  lemma OthersUnchanged(t: Table, n: nat, kept: bool)
    requires 2 <= n <= COUNT && t !in ChangedIn(n)
    ensures BornIn(t) != n && Columns(t, n, kept) == Columns(t, n - 1, kept)
  {
  }

  lemma At(s: Schema, t: Table, n: nat, kept: bool)
    requires IsSchema(s, n, kept)
    ensures (t in s <==> BornIn(t) <= n) && (t in s ==> s[t] == Columns(t, n, kept))
  {
  }

  ghost predicate Changed(s': Schema, t: Table, n: nat, kept: bool) {
    t in s' && s'[t] == Columns(t, n, kept) && BornIn(t) <= n
  }

  lemma Follows(s: Schema, s': Schema, n: nat, kept: bool)
    requires 2 <= n <= COUNT && IsSchema(s, n - 1, kept)
    requires forall t: Table :: t in ChangedIn(n) ==> Changed(s', t, n, kept)
    requires forall t: Table :: t !in ChangedIn(n) ==> (t in s' <==> t in s) && (t in s ==> s'[t] == s[t])
    ensures IsSchema(s', n, kept)
  {
    hide BornIn, Columns, ChangedIn;
    forall t: Table
      ensures (t in s' <==> BornIn(t) <= n) && (t in s' ==> s'[t] == Columns(t, n, kept))
    {
      if t !in ChangedIn(n) { OthersUnchanged(t, n, kept); }
    }
  }

  lemma StepTo2(s: Schema, kept: bool)
    requires IsSchema(s, 1, kept)
    ensures StepLeads(s, [AddColumn(Favorites, Position)], 2, kept)
  {
    hide ExecuteAll, IsSchema;
    At(s, Favorites, 1, kept);
    AddOne(s, Favorites, Position, !kept);
    Follows(s, s[Favorites := s[Favorites] + {Position}], 2, kept);
  }

  lemma StepTo3(s: Schema, kept: bool)
    requires IsSchema(s, 2, kept)
    ensures StepLeads(s, [AddColumn(Nodes, Description), AddColumn(Nodes, Location)], 3, kept)
  {
    hide ExecuteAll, IsSchema;
    At(s, Nodes, 2, kept);
    AddTwo(s, Nodes, Description, Location, !kept);
    Follows(s, s[Nodes := s[Nodes] + {Description, Location}], 3, kept);
  }

  lemma StepTo4(s: Schema, kept: bool)
    requires IsSchema(s, 3, kept)
    ensures StepLeads(s, [AddColumn(Users, FullName), AddColumn(Users, AvatarUrl)], 4, kept)
  {
    hide ExecuteAll, IsSchema;
    At(s, Users, 3, kept);
    AddTwo(s, Users, FullName, AvatarUrl, !kept);
    Follows(s, s[Users := s[Users] + {FullName, AvatarUrl}], 4, kept);
  }

  lemma StepTo5(s: Schema, kept: bool)
    requires IsSchema(s, 4, kept)
    ensures StepLeads(s, [AddColumn(Users, TailscaleUsernames)], 5, kept)
  {
    hide ExecuteAll, IsSchema;
    At(s, Users, 4, kept);
    AddOne(s, Users, TailscaleUsernames, !kept);
    Follows(s, s[Users := s[Users] + {TailscaleUsernames}], 5, kept);
  }

  lemma StepTo6(s: Schema, kept: bool)
    requires IsSchema(s, 5, kept)
    ensures StepLeads(s, [CreateIfMissing(TailscaleLogins, {Login, UserId}), DropIfPresent(Users, TailscaleUsernames)],
                      6, kept)
  {
    hide ExecuteAll, IsSchema;
    At(s, Users, 5, kept);
    At(s, TailscaleLogins, 5, kept);
    TwoStatements(s, CreateIfMissing(TailscaleLogins, {Login, UserId}), DropIfPresent(Users, TailscaleUsernames), !kept);
    var s1 := s[TailscaleLogins := {Login, UserId}];
    Follows(s, if kept then s1 else s1[Users := s[Users] - {TailscaleUsernames}], 6, kept);
  }

  lemma StepTo7(s: Schema, kept: bool)
    requires IsSchema(s, 6, kept)
    ensures StepLeads(s, [CreateIfMissing(StatsCache, {NodeNumber, StatsJson, UpdatedAt})], 7, kept)
  {
    hide ExecuteAll, IsSchema;
    At(s, StatsCache, 6, kept);
    CreateOne(s, StatsCache, {NodeNumber, StatsJson, UpdatedAt}, !kept);
    Follows(s, s[StatsCache := {NodeNumber, StatsJson, UpdatedAt}], 7, kept);
  }

  lemma StepTo8(s: Schema, kept: bool)
    requires IsSchema(s, 7, kept)
    ensures StepLeads(s, [CreateIfMissing(QrzCache, {Callsign, RecordJson, FetchedAt})], 8, kept)
  {
    hide ExecuteAll, IsSchema;
    At(s, QrzCache, 7, kept);
    CreateOne(s, QrzCache, {Callsign, RecordJson, FetchedAt}, !kept);
    Follows(s, s[QrzCache := {Callsign, RecordJson, FetchedAt}], 8, kept);
  }

  lemma LookupColumns(kept: bool)
    ensures Columns(Users, 9, kept) == Columns(Users, 8, kept) + {QrzUsername, QrzPasswordEnc, LookupSource}
    ensures Columns(Users, 8, kept) !! {QrzUsername, QrzPasswordEnc, LookupSource}
    ensures Columns(Users, 10, kept) == Columns(Users, 9, kept) + {WebauthnId}
    ensures WebauthnId !in Columns(Users, 9, kept)
  {
  }

  lemma StepTo9(s: Schema, kept: bool)
    requires IsSchema(s, 8, kept)
    ensures StepLeads(s, [AddColumn(Users, QrzUsername), AddColumn(Users, QrzPasswordEnc), AddColumn(Users, LookupSource)],
                      9, kept)
  {
    hide ExecuteAll, IsSchema, Columns;
    LookupColumns(kept);
    At(s, Users, 8, kept);
    AddThree(s, Users, QrzUsername, QrzPasswordEnc, LookupSource, !kept);
    Follows(s, s[Users := s[Users] + {QrzUsername, QrzPasswordEnc, LookupSource}], 9, kept);
  }

  lemma SessionColumns(kept: bool)
    ensures Columns(WebauthnCredentials, 10, kept) ==
            {Id, UserId, CredentialId, Name, CredentialJson, CreatedAt, LastUsedAt}
    ensures Columns(WebauthnSessions, 10, kept) == {SessionId, Ceremony, UserId, SessionJson, ExpiresAt}
    ensures Columns(WebauthnSessions, 11, kept) == Columns(WebauthnSessions, 10, kept) + {Rpid, Origin}
    ensures Columns(WebauthnSessions, 10, kept) !! {Rpid, Origin}
  {
  }

  lemma StepTo10(s: Schema, kept: bool)
    requires IsSchema(s, 9, kept)
    ensures StepLeads(s, [
        AddColumn(Users, WebauthnId),
        CreateIfMissing(WebauthnCredentials, {Id, UserId, CredentialId, Name, CredentialJson, CreatedAt, LastUsedAt}),
        CreateIfMissing(WebauthnSessions, {SessionId, Ceremony, UserId, SessionJson, ExpiresAt})], 10, kept)
  {
    hide ExecuteAll, IsSchema, Columns;
    LookupColumns(kept);
    At(s, Users, 9, kept);
    At(s, WebauthnCredentials, 9, kept);
    At(s, WebauthnSessions, 9, kept);
    var credentials: set<Column> := {Id, UserId, CredentialId, Name, CredentialJson, CreatedAt, LastUsedAt};
    var sessions: set<Column> := {SessionId, Ceremony, UserId, SessionJson, ExpiresAt};
    var s1 := s[Users := s[Users] + {WebauthnId}];
    ThreeStatements(s, AddColumn(Users, WebauthnId), CreateIfMissing(WebauthnCredentials, credentials),
                    CreateIfMissing(WebauthnSessions, sessions), !kept);
    assert Columns(WebauthnCredentials, 10, kept) == credentials && Columns(WebauthnSessions, 10, kept) == sessions by {
      SessionColumns(kept);
    }
    CreateTwo(s1, WebauthnCredentials, credentials, WebauthnSessions, sessions, !kept);
    Follows(s, s1[WebauthnCredentials := credentials][WebauthnSessions := sessions], 10, kept);
  }

  lemma StepTo11(s: Schema, kept: bool)
    requires IsSchema(s, 10, kept)
    ensures StepLeads(s, [AddColumn(WebauthnSessions, Rpid), AddColumn(WebauthnSessions, Origin)], 11, kept)
  {
    hide ExecuteAll, IsSchema, Columns;
    SessionColumns(kept);
    At(s, WebauthnSessions, 10, kept);
    AddTwo(s, WebauthnSessions, Rpid, Origin, !kept);
    Follows(s, s[WebauthnSessions := s[WebauthnSessions] + {Rpid, Origin}], 11, kept);
  }

  lemma StepTo(s: Schema, n: nat, kept: bool)
    requires 1 <= n <= 10 && IsSchema(s, n, kept)
    ensures StepLeads(s, MigrationList()[n].statements, n + 1, kept)
  {
    hide IsSchema, StepLeads;
    match n {
      case 1 => StepTo2(s, kept);
      case 2 => StepTo3(s, kept);
      case 3 => StepTo4(s, kept);
      case 4 => StepTo5(s, kept);
      case 5 => StepTo6(s, kept);
      case 6 => StepTo7(s, kept);
      case 7 => StepTo8(s, kept);
      case 8 => StepTo9(s, kept);
      case 9 => StepTo10(s, kept);
      case _ => StepTo11(s, kept);
    }
  }

  lemma FirstStep(kept: bool)
    ensures StepLeads(map[], MigrationList()[0].statements, 1, kept)
  {
    hide ExecuteAll;
    var sts := MigrationList()[0].statements;
    var s: Schema := map[Nodes := sts[0].columns];
    var s2 := s[Favorites := sts[1].columns];
    assert [sts[0]] + sts[1..] == sts && [sts[1]] + sts[2..] == sts[1..] && sts[2..] == [sts[2], sts[3], sts[4]];
    MoreStatements(map[], sts[0], sts[1..], !kept);
    MoreStatements(s, sts[1], sts[2..], !kept);
    ThreeStatements(s2, sts[2], sts[3], sts[4], !kept);
    CreateTwo(s2[Users := sts[2].columns], Configs, sts[3].columns, TlsCerts, sts[4].columns, !kept);
  }

  /** The tables and columns there are after the first n migrations, table by table. */
  lemma {:induction false} SchemaInFull(n: nat, kept: bool)
    requires 1 <= n <= COUNT
    ensures Built(n, kept).Some? && IsSchema(Built(n, kept).value, n, kept)
    decreases n
  {
    hide IsSchema, ExecuteAll, MigrationList;
    if n == 1 {
      FirstStep(kept);
      assert Built(0, kept) == Some(map[]);
    } else {
      SchemaInFull(n - 1, kept);
      StepTo(Built(n - 1, kept).value, n - 1, kept);
    }
  }

  // ------------------------------------------------- the column that is kept

  function WithColumn(s: Schema): Schema
    requires Users in s
  {
    s[Users := s[Users] + {TailscaleUsernames}]
  }

  lemma {:induction false} QueryUnused(s: Schema, sts: seq<Statement>, a: bool, b: bool)
    requires forall i :: 0 <= i < |sts| ==> !sts[i].DropIfPresent?
    ensures ExecuteAll(s, sts, a) == ExecuteAll(s, sts, b)
    decreases sts
  {
    if sts != [] && Execute(s, sts[0], a).Some? {
      QueryUnused(Execute(s, sts[0], a).value, sts[1..], a, b);
    }
  }

  lemma OnlySixthAsks(s: Schema, i: nat, a: bool, b: bool)
    requires i < COUNT && i != 5
    ensures ExecuteAll(s, MigrationList()[i].statements, a) == ExecuteAll(s, MigrationList()[i].statements, b)
  {
    hide ExecuteAll;
    QueryUnused(s, MigrationList()[i].statements, a, b);
  }

  lemma SameBeforeSixth()
    ensures Built(5, true) == Built(5, false)
  {
    hide Built;
    SchemaInFull(5, true);
    SchemaInFull(5, false);
    SameSchema(Built(5, true).value, Built(5, false).value, 5);
  }

  lemma SameSchema(a: Schema, b: Schema, n: nat)
    requires n < DROPS && IsSchema(a, n, true) && IsSchema(b, n, false)
    ensures a == b
  {
    hide BornIn;
    assert forall t: Table :: Columns(t, n, true) == Columns(t, n, false);
  }

  lemma OneColumnMore(a: Schema, b: Schema, n: nat)
    requires DROPS <= n && IsSchema(a, n, true) && IsSchema(b, n, false)
    ensures a == WithColumn(b)
  {
    assert Columns(Users, n, true) == Columns(Users, n, false) + {TailscaleUsernames};
    assert forall t: Table :: t != Users ==> Columns(t, n, true) == Columns(t, n, false);
  }

  /** A failed column query leaves the list's schema with the one column kept, and nothing else changed. */
  lemma KeptIsOneColumn(n: nat)
    requires DROPS <= n <= COUNT
    ensures Built(n, false).Some? && Users in Built(n, false).value
    ensures TailscaleUsernames !in Built(n, false).value[Users]
    ensures Built(n, true) == Some(WithColumn(Built(n, false).value))
  {
    hide Built;
    SchemaInFull(n, true);
    SchemaInFull(n, false);
    OneColumnMore(Built(n, true).value, Built(n, false).value, n);
  }

  // ------------------------------------------------------------- one open

  /** Version 6 is committed between n and m, with its column query lost. */
  predicate Keeps(n: nat, m: nat, faults: Faults) {
    n < DROPS <= m && !faults.columnQueryWorks
  }

  lemma TransactFirst(f: File, n: nat, kept: bool, faults: Faults)
    requires Holds(f, n, kept) && n < COUNT
    ensures Transact(f, MigrationList()[n], faults).Some? <==> !faults.stops(n + 1)
    ensures !faults.stops(n + 1) ==>
              Holds(Transact(f, MigrationList()[n], faults).value, n + 1, kept || Keeps(n, n + 1, faults))
  {
    hide ExecuteAll, MigrationList, IsSchema;
    var kept' := kept || Keeps(n, n + 1, faults);
    SchemaInFull(n + 1, kept');
    if n == 5 {
      SameBeforeSixth();
    } else {
      OnlySixthAsks(f.schema, n, faults.columnQueryWorks, !kept);
    }
  }

  /** The file has lost none of the first n migrations; `kept` tells of the file as it was. */
  ghost predicate Reached(f: File, n: nat, kept: bool, faults: Faults) {
    exists k: nat :: HoldsFrom(f, n, k, kept, faults)
  }

  ghost predicate HoldsFrom(f: File, n: nat, k: nat, kept: bool, faults: Faults) {
    n <= k && Holds(f, k, kept || Keeps(n, k, faults))
  }

  lemma ReachedNow(f: File, n: nat, kept: bool, faults: Faults)
    requires Holds(f, n, kept)
    ensures Reached(f, n, kept, faults)
  {
    hide Holds;
    assert HoldsFrom(f, n, n, kept, faults);
  }

  lemma ReachedLater(f: File, n: nat, kept: bool, faults: Faults)
    requires Reached(f, n + 1, kept || Keeps(n, n + 1, faults), faults)
    ensures Reached(f, n, kept, faults)
  {
    hide Holds;
    var k: nat :| HoldsFrom(f, n + 1, k, kept || Keeps(n, n + 1, faults), faults);
    assert HoldsFrom(f, n, k, kept, faults);
  }

  /** Some transaction still to come does not go through. */
  ghost predicate StopsAfter(faults: Faults, n: nat) {
    exists v :: n < v <= COUNT && faults.stops(v)
  }

  lemma {:induction false} LoopFromCurrent(f: File, current: nat, i: nat, kept: bool, faults: Faults)
    requires i <= COUNT && current <= COUNT && Holds(f, if i < current then current else i, kept)
    ensures var (g, ok) := MigrateFrom(f, current, i, faults);
      var n := if i < current then current else i;
      && (ok <==> !StopsAfter(faults, n))
      && Reached(g, n, kept, faults)
      && (ok ==> Holds(g, COUNT, kept || Keeps(n, COUNT, faults)))
    decreases COUNT - i
  {
    hide Holds, Reached, MigrationList, Transact;
    ReachedNow(f, if i < current then current else i, kept, faults);
    if i < COUNT {
      if i < current {
        LoopFromCurrent(f, current, i + 1, kept, faults);
      } else {
        TransactFirst(f, i, kept, faults);
        if !faults.stops(i + 1) {
          var f' := Transact(f, MigrationList()[i], faults).value;
          LoopFromCurrent(f', current, i + 1, kept || Keeps(i, i + 1, faults), faults);
          ReachedLater(MigrateFrom(f', current, i + 1, faults).0, i, kept, faults);
        }
      }
    }
  }

  /** Started again from the first migration, the loop stops at the version row there is. */
  lemma LoopFromNothing(f: File, n: nat, kept: bool, faults: Faults)
    requires Holds(f, n, kept) && n > 0
    ensures MigrateFrom(f, 0, 0, faults) == (f, false)
  {
    assert 1 in Versions(f);
    hide ExecuteAll;
  }

  /**
   One open, whatever goes wrong: the file keeps to the list and loses nothing, and the open
   succeeds exactly when nothing it checks failed, having applied all.
   */
  lemma OpenSound(f: File, n: nat, kept: bool, faults: Faults)
    requires Holds(f, n, kept)
    ensures var (g, ok) := Opened(f, faults);
      && Reached(g, n, kept, faults)
      && (ok <==> faults.createWorks && (faults.readWorks || n == 0) && !StopsAfter(faults, n))
      && (ok ==> Holds(g, COUNT, kept || Keeps(n, COUNT, faults)))
  {
    hide MigrateFrom, Holds, Reached, StopsAfter, LargestOf;
    ReachedNow(f, n, kept, faults);
    if faults.createWorks {
      var f1 := f.(versions := Some(Versions(f)));
      SameHeld(f, f1, n, kept);
      if faults.readWorks {
        LargestOfFirst(f1, n, kept);
        LoopFromCurrent(f1, n, 0, kept, faults);
      } else if n == 0 {
        LoopFromCurrent(f1, 0, 0, kept, faults);
      } else {
        LoopFromNothing(f1, n, kept, faults);
        ReachedNow(f1, n, kept, faults);
      }
    }
  }

  lemma SameHeld(f: File, g: File, n: nat, kept: bool)
    requires Holds(f, n, kept) && Versions(f) == Versions(g) && f.schema == g.schema
    ensures Holds(g, n, kept) && n <= COUNT
  {
  }

  /** Opening a file that has everything changes no table, even when something fails. */
  lemma FullFileUnchanged(f: File, kept: bool, faults: Faults)
    requires Holds(f, COUNT, kept)
    ensures Opened(f, faults).0.schema == f.schema && Versions(Opened(f, faults).0) == Versions(f)
  {
    hide Opened, Built;
    OpenSound(f, COUNT, kept, faults);
  }

  // ------------------------------------------------------------- all opens

  ghost function OpenedAll(f: File, opens: seq<Faults>): File
    decreases |opens|
  {
    if opens == [] then f else OpenedAll(Opened(f, opens[0]).0, opens[1..])
  }

  /** This open commits version 6 and loses its column query. */
  ghost predicate LosesColumnQuery(f: File, faults: Faults) {
    DROPS !in Versions(f) && DROPS in Versions(Opened(f, faults).0) && !faults.columnQueryWorks
  }

  ghost predicate SomeLosesColumnQuery(f: File, opens: seq<Faults>)
    decreases |opens|
  {
    opens != [] && (LosesColumnQuery(f, opens[0]) || SomeLosesColumnQuery(Opened(f, opens[0]).0, opens[1..]))
  }

  lemma OpenKeeps(f: File, n: nat, kept: bool, faults: Faults) returns (k: nat)
    requires Holds(f, n, kept)
    ensures n <= k && Holds(Opened(f, faults).0, k, kept || LosesColumnQuery(f, faults))
  {
    hide Opened, Built;
    OpenSound(f, n, kept, faults);
    k :| HoldsFrom(Opened(f, faults).0, n, k, kept, faults);
  }

  /** After any opens with any faults a file holds a longer prefix, keeping the column if an open lost its query. */
  lemma {:induction false} AlwaysAPrefix(f: File, n: nat, kept: bool, opens: seq<Faults>) returns (k: nat)
    requires Holds(f, n, kept)
    ensures n <= k && Holds(OpenedAll(f, opens), k, kept || SomeLosesColumnQuery(f, opens))
    decreases opens
  {
    hide Holds, Opened, LosesColumnQuery;
    k := n;
    if opens != [] {
      k := OpenKeeps(f, n, kept, opens[0]);
      k := AlwaysAPrefix(Opened(f, opens[0]).0, k, kept || LosesColumnQuery(f, opens[0]), opens[1..]);
    }
  }

  lemma NewFileHoldsNone()
    ensures HoldsFirst(NEW_FILE, 0)
  {
  }

  lemma UptoInjective(n: nat, m: nat)
    ensures Upto(n) == Upto(m) ==> n == m
  {
    if n < m {
      assert m in Upto(m) && m !in Upto(n);
    } else if m < n {
      assert n in Upto(n) && n !in Upto(m);
    }
  }

  lemma KeptIsNoPrefix(f: File, k: nat, n: nat)
    requires Holds(f, k, true)
    ensures !HoldsFirst(f, n)
  {
    hide Built;
    KeptIsOneColumn(k);
    UptoInjective(k, n);
  }

  /** A file that holds a prefix of the list holds one after any opens if and only if none lost the column query. */
  lemma PrefixKeptExactly(f: File, n: nat, opens: seq<Faults>)
    requires HoldsFirst(f, n)
    ensures (exists m: nat :: HoldsFirst(OpenedAll(f, opens), m)) <==> !SomeLosesColumnQuery(f, opens)
  {
    var k := AlwaysAPrefix(f, n, false, opens);
    hide Holds, OpenedAll, SomeLosesColumnQuery;
    var g := OpenedAll(f, opens);
    if SomeLosesColumnQuery(f, opens) {
      forall m: nat
        ensures !HoldsFirst(g, m)
      {
        KeptIsNoPrefix(g, k, m);
      }
    } else {
      assert HoldsFirst(g, k);
    }
  }

  /**
   Crash safety: whatever went wrong in the opens of a new file, it records the first n versions
   and has the schema they build, with the one column kept if and only if an open lost its query.
   */
  lemma EveryFileIsAPrefix(opens: seq<Faults>) returns (n: nat)
    ensures n <= COUNT && Built(n, false).Some?
    ensures var g := OpenedAll(NEW_FILE, opens); var built := Built(n, false).value;
      && Versions(g) == Upto(n)
      && (SomeLosesColumnQuery(NEW_FILE, opens) ==>
            Users in built && TailscaleUsernames !in built[Users] && g.schema == WithColumn(built))
      && (!SomeLosesColumnQuery(NEW_FILE, opens) ==> g.schema == built)
  {
    hide OpenedAll, SomeLosesColumnQuery, Built;
    NewFileHoldsNone();
    n := AlwaysAPrefix(NEW_FILE, 0, false, opens);
    if SomeLosesColumnQuery(NEW_FILE, opens) { KeptIsOneColumn(n); }
  }

  /** One open of a new file in which only the column query fails: it succeeds, and no prefix builds its schema. */
  lemma LostQueryGoesUnnoticed(n: nat)
    ensures var (g, ok) := Opened(NEW_FILE, Faults(true, true, false, v => false));
      ok && Versions(g) == Upto(COUNT) && !HoldsFirst(g, n)
  {
    var faults := Faults(true, true, false, v => false);
    hide Opened, Built;
    NewFileHoldsNone();
    OpenSound(NEW_FILE, 0, false, faults);
    KeptIsNoPrefix(Opened(NEW_FILE, faults).0, COUNT, n);
  }
}
