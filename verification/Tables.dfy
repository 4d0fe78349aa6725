/**
 A database table with an AUTOINCREMENT primary key: its rows in insertion order
 and the next id to hand out.  Each row carries the column set the program looks
 rows up by (`key`) and all its other columns (`value`).  Keys are not unique
 unless `UniqueKeys` is assumed.
 */
module Tables {
  import opened Wrappers
  import opened Sorting

  datatype Row<K, V> = Row(id: nat, key: K, value: V)

  datatype Table<K, V> = Table(rows: seq<Row<K, V>>, next: nat)

  /** The primary key constraint. */
  ghost predicate DistinctIds<K(!new), V(!new)>(rows: seq<Row<K, V>>) {
    forall i, j :: 0 <= i < j < |rows| ==> rows[i].id != rows[j].id
  }

  ghost predicate Valid<K(!new), V(!new)>(t: Table<K, V>) {
    && DistinctIds(t.rows)
    && forall x :: x in t.rows ==> x.id < t.next
  }

  ghost predicate UniqueKeys<K(!new), V(!new)>(rows: seq<Row<K, V>>) {
    forall x, y :: x in rows && y in rows && x.key == y.key ==> x == y
  }

  /** SELECT ... WHERE key = ?, first row in table order. */
  function Find<K(==,!new), V(!new)>(rows: seq<Row<K, V>>, key: K): (r: Option<Row<K, V>>)
    ensures r.Some? ==> r.value in rows && r.value.key == key
    ensures r.None? ==> forall x :: x in rows ==> x.key != key
  {
    if rows == [] then None
    else if rows[0].key == key then Some(rows[0])
    else Find(rows[1..], key)
  }

  /** SELECT ... WHERE id = ?. */
  function FindId<K(!new), V(!new)>(rows: seq<Row<K, V>>, id: nat): (r: Option<Row<K, V>>)
    ensures r.Some? ==> r.value in rows && r.value.id == id
    ensures r.None? ==> forall x :: x in rows ==> x.id != id
  {
    if rows == [] then None
    else if rows[0].id == id then Some(rows[0])
    else FindId(rows[1..], id)
  }

  /** INSERT. */
  function Insert<K(!new), V(!new)>(t: Table<K, V>, key: K, value: V): Table<K, V> {
    Table(t.rows + [Row(t.next, key, value)], t.next + 1)
  }

  /** The rows with every row that has `row`'s id replaced by `row`. */
  function PutRow<K(!new), V(!new)>(rows: seq<Row<K, V>>, row: Row<K, V>): (r: seq<Row<K, V>>)
    ensures |r| == |rows|
    ensures forall i :: 0 <= i < |r| ==> r[i] == if rows[i].id == row.id then row else rows[i]
  {
    if rows == [] then []
    else [if rows[0].id == row.id then row else rows[0]] + PutRow(rows[1..], row)
  }

  /** UPDATE ... WHERE id = ?. */
  function Put<K(!new), V(!new)>(t: Table<K, V>, row: Row<K, V>): Table<K, V> {
    Table(PutRow(t.rows, row), t.next)
  }

  /** The rows whose id is not `id`. */
  function Without<K(!new), V(!new)>(rows: seq<Row<K, V>>, id: nat): (r: seq<Row<K, V>>)
    ensures forall x :: x in r <==> x in rows && x.id != id
    ensures (forall x :: x in rows ==> x.id != id) ==> r == rows
  {
    if rows == [] then []
    else if rows[0].id == id then
      assert forall x :: x in rows <==> x == rows[0] || x in rows[1..];
      Without(rows[1..], id)
    else
      assert forall x :: x in rows <==> x == rows[0] || x in rows[1..];
      [rows[0]] + Without(rows[1..], id)
  }

  /** DELETE ... WHERE id = ?. */
  function Delete<K(!new), V(!new)>(t: Table<K, V>, id: nat): Table<K, V> {
    Table(Without(t.rows, id), t.next)
  }

  // ---------------------------------------------------------------- facts

  lemma SameIdSameRow<K(!new), V(!new)>(rows: seq<Row<K, V>>, x: Row<K, V>, y: Row<K, V>)
    requires DistinctIds(rows) && x in rows && y in rows && x.id == y.id
    ensures x == y
  {
    var i :| 0 <= i < |rows| && rows[i] == x;
    var j :| 0 <= j < |rows| && rows[j] == y;
  }

  lemma FindIdOfRow<K(!new), V(!new)>(rows: seq<Row<K, V>>, x: Row<K, V>)
    requires DistinctIds(rows) && x in rows
    ensures FindId(rows, x.id) == Some(x)
  {
    SameIdSameRow(rows, x, FindId(rows, x.id).value);
  }

  /** What an insertion does to the table. */
  lemma InsertMembers<K(!new), V(!new)>(t: Table<K, V>, key: K, value: V)
    requires Valid(t)
    ensures Valid(Insert(t, key, value))
    ensures forall x :: x in Insert(t, key, value).rows <==> x in t.rows || x == Row(t.next, key, value)
  {
    assert forall i :: 0 <= i < |t.rows| ==> t.rows[i] in t.rows;
    assert forall x :: x in Insert(t, key, value).rows ==> x in t.rows || x == Row(t.next, key, value);
  }

  /** What an insertion with a fresh key does to every lookup. */
  lemma InsertFacts<K(!new), V(!new)>(t: Table<K, V>, key: K, value: V)
    requires Valid(t) && UniqueKeys(t.rows) && Find(t.rows, key).None?
    ensures UniqueKeys(Insert(t, key, value).rows)
    ensures forall k :: Find(Insert(t, key, value).rows, k) ==
                        if k == key then Some(Row(t.next, key, value)) else Find(t.rows, k)
  {
    InsertMembers(t, key, value);
    var r := Insert(t, key, value).rows;
    forall k ensures Find(r, k) == if k == key then Some(Row(t.next, key, value)) else Find(t.rows, k) {
      if k == key {
        FindRow(r, Row(t.next, key, value));
      } else if Find(t.rows, k).Some? {
        FindRow(r, Find(t.rows, k).value);
      }
    }
  }

  /** What replacing an existing row does. */
  lemma PutMembers<K(!new), V(!new)>(t: Table<K, V>, before: Row<K, V>, row: Row<K, V>)
    requires Valid(t) && before in t.rows && before.id == row.id
    ensures Valid(Put(t, row))
    ensures |Put(t, row).rows| == |t.rows|
    ensures forall x :: x in Put(t, row).rows <==> x == row || (x in t.rows && x != before)
    ensures row == before ==> Put(t, row) == t
  {
    var r := Put(t, row).rows;
    forall x | x in t.rows && x.id == row.id ensures x == before { SameIdSameRow(t.rows, x, before); }
    forall i | 0 <= i < |r| ensures r[i] == if t.rows[i] == before then row else t.rows[i] {
      assert t.rows[i] in t.rows;
    }
    forall x | x == row || (x in t.rows && x != before) ensures x in r {
      var i :| 0 <= i < |t.rows| && t.rows[i] == if x == row then before else x;
      assert r[i] == x;
    }
    forall x | x in r ensures x == row || (x in t.rows && x != before) {
      var i :| 0 <= i < |r| && r[i] == x;
      assert t.rows[i] in t.rows;
    }
  }

  /** What replacing an existing row by one with the same key does to the lookups. */
  lemma PutFacts<K(!new), V(!new)>(t: Table<K, V>, before: Row<K, V>, row: Row<K, V>)
    requires Valid(t) && before in t.rows && before.id == row.id && before.key == row.key
    requires UniqueKeys(t.rows)
    ensures UniqueKeys(Put(t, row).rows)
    ensures forall k :: Find(Put(t, row).rows, k) == if k == row.key then Some(row) else Find(t.rows, k)
  {
    PutMembers(t, before, row);
    PutUnique(t, before, row);
    var r := Put(t, row).rows;
    forall k ensures Find(r, k) == if k == row.key then Some(row) else Find(t.rows, k) {
      if k == row.key {
        FindRow(r, row);
      } else if Find(t.rows, k).Some? {
        FindRow(r, Find(t.rows, k).value);
      }
    }
  }

  lemma PutUnique<K(!new), V(!new)>(t: Table<K, V>, before: Row<K, V>, row: Row<K, V>)
    requires Valid(t) && before in t.rows && before.id == row.id && before.key == row.key
    requires UniqueKeys(t.rows)
    ensures UniqueKeys(Put(t, row).rows)
  {
    PutMembers(t, before, row);
  }

  lemma {:induction false} WithoutDistinct<K(!new), V(!new)>(rows: seq<Row<K, V>>, id: nat)
    requires DistinctIds(rows)
    ensures DistinctIds(Without(rows, id))
  {
    if rows != [] {
      WithoutDistinct(rows[1..], id);
      var r := Without(rows[1..], id);
      forall j | 0 <= j < |r| ensures r[j].id != rows[0].id {
        assert r[j] in rows[1..];
      }
    }
  }

  lemma {:induction false} WithoutCount<K(!new), V(!new)>(rows: seq<Row<K, V>>, x: Row<K, V>)
    requires DistinctIds(rows) && x in rows
    ensures |Without(rows, x.id)| == |rows| - 1
  {
    if rows[0].id == x.id {
      forall y | y in rows[1..] ensures y.id != x.id {
        var j :| 0 <= j < |rows[1..]| && rows[1..][j] == y;
        assert rows[0].id != rows[j + 1].id;
      }
    } else {
      WithoutCount(rows[1..], x);
    }
  }

  /** What deleting an existing row does. */
  lemma DeleteFacts<K(!new), V(!new)>(t: Table<K, V>, x: Row<K, V>)
    requires Valid(t) && x in t.rows
    ensures Valid(Delete(t, x.id))
    ensures |Delete(t, x.id).rows| == |t.rows| - 1
    ensures forall y :: y in Delete(t, x.id).rows <==> y in t.rows && y != x
    ensures UniqueKeys(t.rows) ==>
      && UniqueKeys(Delete(t, x.id).rows)
      && forall k :: Find(Delete(t, x.id).rows, k) == if k == x.key then None else Find(t.rows, k)
  {
    WithoutDistinct(t.rows, x.id);
    WithoutCount(t.rows, x);
    var r := Without(t.rows, x.id);
    forall y ensures y in r <==> y in t.rows && y != x {
      if y in t.rows && y.id == x.id { SameIdSameRow(t.rows, x, y); }
    }
    if UniqueKeys(t.rows) {
      forall k ensures Find(r, k) == if k == x.key then None else Find(t.rows, k) {
        if k != x.key && Find(t.rows, k).Some? { assert Find(t.rows, k).value in r; }
      }
    }
  }

  /** With unique keys, the row with a key is the one that is found. */
  lemma FindRow<K(!new), V(!new)>(rows: seq<Row<K, V>>, x: Row<K, V>)
    requires UniqueKeys(rows) && x in rows
    ensures Find(rows, x.key) == Some(x)
  {
    assert Find(rows, x.key).Some?;
  }

  // ------------------------------------------------------------- counting

  /** How replacing one row changes a count. */
  lemma {:induction false} CountPut<K(!new), V(!new)>(p: Row<K, V> -> bool, rows: seq<Row<K, V>>,
                                                      before: Row<K, V>, row: Row<K, V>)
    requires DistinctIds(rows) && before in rows && before.id == row.id
    ensures Count(p, PutRow(rows, row)) + (if p(before) then 1 else 0)
         == Count(p, rows) + (if p(row) then 1 else 0)
  {
    if rows[0].id == row.id {
      SameIdSameRow(rows, rows[0], before);
      assert PutRow(rows, row)[1..] == rows[1..];
    } else {
      CountPut(p, rows[1..], before, row);
    }
  }

  /** How deleting one row changes a count. */
  lemma {:induction false} CountWithout<K(!new), V(!new)>(p: Row<K, V> -> bool, rows: seq<Row<K, V>>, x: Row<K, V>)
    requires DistinctIds(rows) && x in rows
    ensures Count(p, Without(rows, x.id)) + (if p(x) then 1 else 0) == Count(p, rows)
  {
    if rows[0].id == x.id {
      SameIdSameRow(rows, rows[0], x);
      forall y | y in rows[1..] ensures y.id != x.id {
        var j :| 0 <= j < |rows[1..]| && rows[1..][j] == y;
        assert rows[0].id != rows[j + 1].id;
      }
    } else {
      CountWithout(p, rows[1..], x);
      assert ([rows[0]] + Without(rows[1..], x.id))[1..] == Without(rows[1..], x.id);
    }
  }

  /** Sorting keeps the ids distinct. */
  lemma {:induction false} SortDistinct<K(!new), V(!new)>(le: (Row<K, V>, Row<K, V>) -> bool, rows: seq<Row<K, V>>)
    requires DistinctIds(rows)
    ensures DistinctIds(Sort(le, rows))
  {
    if rows != [] {
      SortDistinct(le, rows[1..]);
      forall y | y in Sort(le, rows[1..]) ensures y.id != rows[0].id {
        var j :| 0 <= j < |rows[1..]| && rows[1..][j] == y;
        assert rows[0].id != rows[j + 1].id;
      }
      PlaceDistinct(le, rows[0], Sort(le, rows[1..]));
    }
  }

  lemma {:induction false} PlaceDistinct<K(!new), V(!new)>(le: (Row<K, V>, Row<K, V>) -> bool, x: Row<K, V>,
                                                           s: seq<Row<K, V>>)
    requires DistinctIds(s) && forall y :: y in s ==> y.id != x.id
    ensures DistinctIds(Place(le, x, s))
  {
    if s != [] && !le(x, s[0]) {
      PlaceDistinct(le, x, s[1..]);
      var r := Place(le, x, s[1..]);
      forall j | 0 <= j < |r| ensures r[j].id != s[0].id {
        assert r[j] in r;
        if r[j] in s[1..] {
          var k :| 0 <= k < |s[1..]| && s[1..][k] == r[j];
          assert s[0].id != s[k + 1].id;
        }
      }
    }
  }
}
