/** What the buckets of a hash table hold, as values: rows of entries in chain order. */
module Rows {
  import opened Options

  datatype Entry<K, V> = Entry(key: K, value: V)

  type Row<K, V> = seq<Entry<K, V>>

  predicate DistinctKeys<K(==), V>(row: Row<K, V>) {
    forall i, j :: 0 <= i < j < |row| ==> row[i].key != row[j].key
  }

  /** The position of a key, or the length of the row. */
  function IndexOf<K(==), V>(row: Row<K, V>, key: K): (i: nat)
    ensures i <= |row|
  {
    if |row| == 0 then 0 else if row[0].key == key then 0 else 1 + IndexOf(row[1..], key)
  }

  lemma {:induction false} IndexOfIs<K, V>(row: Row<K, V>, key: K, i: nat)
    requires i <= |row| && (i < |row| ==> row[i].key == key)
    requires forall j :: 0 <= j < i ==> row[j].key != key
    ensures IndexOf(row, key) == i
  {
    if i > 0 { IndexOfIs(row[1..], key, i - 1); }
  }

  lemma {:induction false} IndexOfFinds<K, V>(row: Row<K, V>, key: K)
    ensures IndexOf(row, key) < |row| ==> row[IndexOf(row, key)].key == key
    ensures forall j :: 0 <= j < IndexOf(row, key) ==> row[j].key != key
  {
    if |row| > 0 && row[0].key != key { IndexOfFinds(row[1..], key); }
  }

  function Get<K(==), V>(row: Row<K, V>, key: K): Option<V> {
    var i := IndexOf(row, key);
    if i < |row| then Some(row[i].value) else None
  }

  /** A key that is there keeps its position; a new one goes last. */
  function Put<K(==), V>(row: Row<K, V>, key: K, value: V): Row<K, V> {
    var i := IndexOf(row, key);
    if i < |row| then row[i := Entry(key, value)] else row + [Entry(key, value)]
  }

  /** The rest keeps its order. */
  function Remove<K(==), V>(row: Row<K, V>, key: K): Row<K, V> {
    var i := IndexOf(row, key);
    if i < |row| then row[..i] + row[i + 1..] else row
  }

  /** Which entry a key has is a question of membership. */
  lemma GetIsMember<K, V>(row: Row<K, V>, key: K)
    requires DistinctKeys(row)
    ensures forall value :: Get(row, key) == Some(value) <==> Entry(key, value) in row
    ensures Get(row, key) == None <==> forall e :: e in row ==> e.key != key
  {
    IndexOfFinds(row, key);
    var i := IndexOf(row, key);
    if i < |row| { assert row[i] in row; }
  }

  lemma PutLaws<K, V>(row: Row<K, V>, key: K, value: V, other: K)
    requires DistinctKeys(row)
    ensures DistinctKeys(Put(row, key, value))
    ensures Get(Put(row, key, value), other) == if other == key then Some(value) else Get(row, other)
  {
    IndexOfFinds(row, key);
    IndexOfFinds(row, other);
    var row', i, j := Put(row, key, value), IndexOf(row, key), IndexOf(row, other);
    if other == key {
      IndexOfIs(row', other, i);
    } else {
      IndexOfIs(row', other, if j < |row| then j else |row'|);
    }
  }

  lemma RemoveLaws<K, V>(row: Row<K, V>, key: K, other: K)
    requires DistinctKeys(row)
    ensures DistinctKeys(Remove(row, key))
    ensures Get(Remove(row, key), other) == if other == key then None else Get(row, other)
  {
    IndexOfFinds(row, key);
    IndexOfFinds(row, other);
    var row', i, j := Remove(row, key), IndexOf(row, key), IndexOf(row, other);
    if other == key || j == |row| {
      IndexOfIs(row', other, |row'|);
    } else {
      IndexOfIs(row', other, if j < i then j else j - 1);
    }
  }

  lemma DropKeepsDistinct<K, V>(row: Row<K, V>, i: nat)
    requires DistinctKeys(row) && i < |row|
    ensures DistinctKeys(row[..i] + row[i + 1..])
  {
    var rest := row[..i] + row[i + 1..];
    assert forall j :: 0 <= j < |rest| ==> rest[j] == row[if j < i then j else j + 1];
  }

  // ---------------------------------------------------------------------------------------------
  // Whole tables
  // ---------------------------------------------------------------------------------------------

  /** The bucket of a key, for a table of n buckets. */
  function Home<K>(hash: K -> nat, n: nat, key: K): (b: nat)
    requires n > 0
    ensures b < n
  {
    hash(key) % n
  }

  /** Keys are distinct and only in their own buckets. */
  ghost predicate Homed<K, V>(hash: K -> nat, rows: seq<Row<K, V>>) {
    && |rows| > 0
    && (forall b :: 0 <= b < |rows| ==> DistinctKeys(rows[b]))
    && (forall b, e :: 0 <= b < |rows| && e in rows[b] ==> Home(hash, |rows|, e.key) == b)
  }

  function TableGet<K(==), V>(hash: K -> nat, rows: seq<Row<K, V>>, key: K): Option<V>
    requires |rows| > 0
  {
    Get(rows[Home(hash, |rows|, key)], key)
  }

  function TablePut<K(==), V>(hash: K -> nat, rows: seq<Row<K, V>>, key: K, value: V): seq<Row<K, V>>
    requires |rows| > 0
  {
    var b := Home(hash, |rows|, key);
    rows[b := Put(rows[b], key, value)]
  }

  function TableRemove<K(==), V>(hash: K -> nat, rows: seq<Row<K, V>>, key: K): seq<Row<K, V>>
    requires |rows| > 0
  {
    var b := Home(hash, |rows|, key);
    rows[b := Remove(rows[b], key)]
  }

  function Emptied<K, V>(rows: seq<Row<K, V>>): seq<Row<K, V>> {
    seq(|rows|, b => [])
  }

  ghost function Keys<K, V>(rows: seq<Row<K, V>>): set<K> {
    set b, e | 0 <= b < |rows| && e in rows[b] :: e.key
  }

  /** The map that a table stands for: all its entries, whatever the bucket. */
  ghost function MapOf<K, V>(hash: K -> nat, rows: seq<Row<K, V>>): map<K, V>
    requires Homed(hash, rows)
  {
    map key | key in Keys(rows) && TableGet(hash, rows, key).Some? :: TableGet(hash, rows, key).value
  }

  /** Looking in one bucket is looking in the whole table. */
  lemma GetIsLookup<K(!new), V>(hash: K -> nat, rows: seq<Row<K, V>>, key: K)
    requires Homed(hash, rows)
    ensures key in Keys(rows) <==> TableGet(hash, rows, key).Some?
    ensures TableGet(hash, rows, key) == if key in MapOf(hash, rows) then Some(MapOf(hash, rows)[key]) else None
  {
    var b := Home(hash, |rows|, key);
    hide Home;
    hide Get;
    GetIsMember(rows[b], key);
    if TableGet(hash, rows, key).Some? {
      assert Entry(key, TableGet(hash, rows, key).value) in rows[b];
    }
  }

  lemma PutIsUpdate<K(!new), V>(hash: K -> nat, rows: seq<Row<K, V>>, key: K, value: V)
    requires Homed(hash, rows)
    ensures Homed(hash, TablePut(hash, rows, key, value))
    ensures MapOf(hash, TablePut(hash, rows, key, value)) == MapOf(hash, rows)[key := value]
  {
    var rows' := TablePut(hash, rows, key, value);
    PutHomed(hash, rows, key, value);
    hide Home;
    hide Get;
    forall other
      ensures TableGet(hash, rows', other) == if other == key then Some(value) else TableGet(hash, rows, other)
    {
      PutLaws(rows[Home(hash, |rows|, key)], key, value, other);
    }
    SameMap(hash, rows', MapOf(hash, rows)[key := value]) by {
      forall other ensures TableGet(hash, rows', other) == Lookup(MapOf(hash, rows)[key := value], other) {
        GetIsLookup(hash, rows, other);
      }
    }
  }

  function Lookup<K(==), V>(m: map<K, V>, key: K): Option<V> {
    if key in m then Some(m[key]) else None
  }

  /** A table stands for the map that answers every lookup alike. */
  lemma SameMap<K(!new), V>(hash: K -> nat, rows: seq<Row<K, V>>, m: map<K, V>)
    requires Homed(hash, rows) && forall key :: TableGet(hash, rows, key) == Lookup(m, key)
    ensures MapOf(hash, rows) == m
  {
    hide TableGet;
    forall key ensures key in MapOf(hash, rows) <==> key in m {
      assert TableGet(hash, rows, key) == Lookup(m, key);
      GetIsLookup(hash, rows, key);
    }
  }

  lemma PutHomed<K, V>(hash: K -> nat, rows: seq<Row<K, V>>, key: K, value: V)
    requires Homed(hash, rows)
    ensures Homed(hash, TablePut(hash, rows, key, value))
  {
    var b := Home(hash, |rows|, key);
    hide Home;
    PutLaws(rows[b], key, value, key);
    IndexOfFinds(rows[b], key);
    hide IndexOf;
    forall e | e in Put(rows[b], key, value) ensures e in rows[b] || e.key == key {}
  }

  lemma RemoveHomed<K, V>(hash: K -> nat, rows: seq<Row<K, V>>, key: K)
    requires Homed(hash, rows)
    ensures Homed(hash, TableRemove(hash, rows, key))
  {
    var b := Home(hash, |rows|, key);
    hide Home;
    RemoveLaws(rows[b], key, key);
    hide IndexOf;
    forall e | e in Remove(rows[b], key) ensures e in rows[b] {}
  }

  lemma RemoveIsErase<K(!new), V>(hash: K -> nat, rows: seq<Row<K, V>>, key: K)
    requires Homed(hash, rows)
    ensures Homed(hash, TableRemove(hash, rows, key))
    ensures MapOf(hash, TableRemove(hash, rows, key)) == MapOf(hash, rows) - {key}
  {
    var rows' := TableRemove(hash, rows, key);
    RemoveHomed(hash, rows, key);
    hide Home;
    hide Get;
    forall other
      ensures TableGet(hash, rows', other) == if other == key then None else TableGet(hash, rows, other)
    {
      RemoveLaws(rows[Home(hash, |rows|, key)], key, other);
    }
    SameMap(hash, rows', MapOf(hash, rows) - {key}) by {
      forall other ensures TableGet(hash, rows', other) == Lookup(MapOf(hash, rows) - {key}, other) {
        GetIsLookup(hash, rows, other);
      }
    }
  }

  lemma EmptiedIsEmpty<K(!new), V>(hash: K -> nat, rows: seq<Row<K, V>>)
    requires |rows| > 0
    ensures Homed(hash, Emptied(rows)) && MapOf(hash, Emptied(rows)) == map[]
  {
  }

  // ---------------------------------------------------------------------------------------------
  // Sequences of operations
  // ---------------------------------------------------------------------------------------------

  datatype Operation<K, V> = Insert(key: K, value: V) | Erase(key: K) | Clear

  function TableAfter<K(==), V>(hash: K -> nat, rows: seq<Row<K, V>>, ops: seq<Operation<K, V>>)
    : (rows': seq<Row<K, V>>)
    requires |rows| > 0
    ensures |rows'| == |rows|
  {
    if |ops| == 0 then rows else
    var before := TableAfter(hash, rows, ops[..|ops| - 1]);
    match ops[|ops| - 1]
    case Insert(k, v) => TablePut(hash, before, k, v)
    case Erase(k) => TableRemove(hash, before, k)
    case Clear => Emptied(before)
  }

  function MapAfter<K(==), V>(m: map<K, V>, ops: seq<Operation<K, V>>): map<K, V> {
    if |ops| == 0 then m else
    var before := MapAfter(m, ops[..|ops| - 1]);
    match ops[|ops| - 1]
    case Insert(k, v) => before[k := v]
    case Erase(k) => before - {k}
    case Clear => map[]
  }

  /** After any operations the table stands for the map on which the same operations were done. */
  lemma {:induction false} OperationsRefine<K(!new), V>(hash: K -> nat, rows: seq<Row<K, V>>, ops: seq<Operation<K, V>>)
    requires Homed(hash, rows)
    ensures Homed(hash, TableAfter(hash, rows, ops))
    ensures MapOf(hash, TableAfter(hash, rows, ops)) == MapAfter(MapOf(hash, rows), ops)
  {
    assert |rows| > 0;
    hide Homed;
    hide MapOf;
    if |ops| > 0 {
      OperationsRefine(hash, rows, ops[..|ops| - 1]);
      var before := TableAfter(hash, rows, ops[..|ops| - 1]);
      match ops[|ops| - 1]
      case Insert(k, v) => PutIsUpdate(hash, before, k, v);
      case Erase(k) => RemoveIsErase(hash, before, k);
      case Clear => EmptiedIsEmpty(hash, before);
    }
  }
}
