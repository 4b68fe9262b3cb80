/**
 ConcurrentHashMap.hpp as objects: nodes linked by `next`, buckets, the table.  A call that holds its bucket's lock
 runs alone in that bucket, so its body is sequential; the locks and threads are the subject of TableMachine.
 */
module HashTables {
  import opened Options
  import opened Rows

  class HashNode<K(==), V> {
    var next: HashNode?<K, V>
    const key: K
    var value: V
    /** The bucket that made the node. */
    ghost const owner: HashBucket<K, V>
    /** The node was freed. */
    ghost var deleted: bool

    constructor (key: K, value: V, ghost owner: HashBucket<K, V>)
      ensures next == null && this.key == key && this.value == value && this.owner == owner && !deleted
    {
      next, this.key, this.value := null, key, value;
      this.owner := owner;
      deleted := false;
    }

    /** delete, with the destructor of lines 23-26; a node is freed once. */
    method Delete()
      requires !deleted
      modifies this
      ensures deleted && next == null && value == old(value)
    {
      next := null;
      deleted := true;
    }
  }

  class HashBucket<K(==), V> {
    var head: HashNode?<K, V>
    /** The nodes of the chain, in order, and what they hold. */
    ghost var spine: seq<HashNode<K, V>>
    ghost var row: Row<K, V>

    /** The node at a position of the chain; null at its end. */
    ghost function At(i: nat): HashNode?<K, V>
      reads this
    {
      if i < |spine| then spine[i] else null
    }

    /** The chain is the spine; no key occurs twice, so the chain has no cycle. */
    ghost predicate Valid()
      reads this, spine
    {
      && |row| == |spine| && head == At(0)
      && (forall i {:trigger spine[i].next} :: 0 <= i < |spine| ==> spine[i].next == At(i + 1))
      && (forall i :: 0 <= i < |spine| ==> row[i] == Entry(spine[i].key, spine[i].value))
      && DistinctKeys(row)
      && (forall n :: n in spine ==> n.owner == this && !n.deleted)
    }

    /** A bucket is as it was when neither it nor its nodes have changed. */
    twostate lemma Same()
      requires old(Valid()) && unchanged(this) && forall n :: n in spine ==> unchanged(n)
      ensures Valid()
    {
      forall i | 0 <= i < |spine|
        ensures spine[i].next == old(spine[i].next) && spine[i].value == old(spine[i].value) && !spine[i].deleted
      {
        assert spine[i] in spine;
      }
    }

    constructor ()
      ensures Valid() && spine == [] && row == []
    {
      head, spine, row := null, [], [];
    }

    /** Lines 50-66. */
    method Find(key: K) returns (r: Option<V>)
      requires Valid()
      ensures r == Get(row, key)
    {
      var node := head;
      ghost var i := 0;
      while node != null
        invariant 0 <= i <= |spine| && node == At(i)
        invariant forall j :: 0 <= j < i ==> row[j].key != key
        decreases |spine| - i
      {
        if node.key == key {
          IndexOfIs(row, key, i);
          return Some(node.value);
        }
        node := node.next;
        i := i + 1;
      }
      IndexOfIs(row, key, i);
      return None;
    }

    /** The walk that Insert and Erase begin with, lines 72-79 and 103-110. */
    method Walk(key: K) returns (prev: HashNode?<K, V>, node: HashNode?<K, V>, ghost i: nat)
      requires Valid()
      ensures i == IndexOf(row, key) <= |spine| && node == At(i)
      ensures prev == if i == 0 then null else spine[i - 1]
      ensures forall j :: 0 <= j < i ==> row[j].key != key
      ensures node != null ==> node.key == key
    {
      prev, node, i := null, head, 0;
      while node != null && node.key != key
        invariant 0 <= i <= |spine| && node == At(i)
        invariant prev == if i == 0 then null else spine[i - 1]
        invariant forall j :: 0 <= j < i ==> row[j].key != key
        decreases |spine| - i
      {
        prev := node;
        node := node.next;
        i := i + 1;
      }
      IndexOfIs(row, key, i);
    }

    /** Lines 81-91: a new node goes behind the last one. */
    method Append(prev: HashNode?<K, V>, key: K, value: V) returns (ghost added: HashNode<K, V>)
      requires Valid() && prev == (if |spine| == 0 then null else spine[|spine| - 1])
      requires forall j :: 0 <= j < |row| ==> row[j].key != key
      modifies this, spine
      ensures Valid() && fresh(added)
      ensures spine == old(spine) + [added] && row == old(row) + [Entry(key, value)]
    {
      var node := new HashNode<K, V>(key, value, this);
      if head == null {
        head := node;
      } else {
        prev.next := node;
      }
      added, spine, row := node, spine + [node], row + [Entry(key, value)];
    }

    /** Line 94: the node keeps its place. */
    method SetValue(node: HashNode<K, V>, value: V, ghost i: nat)
      requires Valid() && i < |spine| && node == spine[i]
      modifies this, spine
      ensures Valid() && spine == old(spine) && row == old(row)[i := Entry(node.key, value)]
    {
      node.value := value;
      row := row[i := Entry(node.key, value)];
    }

    /** Lines 68-97, where `memory` tells whether `new` succeeds.  When it throws nothing has changed. */
    method Insert(key: K, value: V, memory: bool) returns (ok: bool)
      requires Valid()
      modifies this, spine
      ensures Valid()
      ensures ok <==> memory || old(Get(row, key)).Some?
      ensures row == if ok then Put(old(row), key, value) else old(row)
      ensures forall n :: n in spine ==> n in old(spine) || fresh(n)
    {
      hide IndexOf;
      var prev, node, i := Walk(key);
      hide Valid;
      if node != null {
        SetValue(node, value, i);
      } else if memory {
        var added := Append(prev, key, value);
      } else {
        return false;
      }
      return true;
    }

    /** A node stands at one position of the chain. */
    lemma OnePlace(i: nat)
      requires Valid() && i < |spine|
      ensures forall j :: 0 <= j < |spine| && j != i ==> spine[j] != spine[i]
    {
      forall j | 0 <= j < |spine| && j != i ensures spine[j] != spine[i] {
        assert row[j].key != row[i].key;
      }
    }

    /** Lines 118-125: the node leaves the chain. */
    method Bypass(prev: HashNode?<K, V>, node: HashNode<K, V>, ghost i: nat)
      requires Valid() && i < |spine| && node == spine[i]
      requires prev == if i == 0 then null else spine[i - 1]
      modifies this, spine
      ensures Valid() && node !in spine && !node.deleted
      ensures spine == old(spine)[..i] + old(spine)[i + 1..] && row == old(row)[..i] + old(row)[i + 1..]
    {
      OnePlace(i);
      if i > 0 { OnePlace(i - 1); }
      DropKeepsDistinct(row, i);
      hide DistinctKeys;
      ghost var was, rest, less := spine, spine[..i] + spine[i + 1..], row[..i] + row[i + 1..];
      assert forall j :: 0 <= j < |rest| ==> rest[j] == was[if j < i then j else j + 1];
      assert forall j :: 0 <= j < |less| ==> less[j] == row[if j < i then j else j + 1];
      if head == node {
        head := node.next;
      } else {
        prev.next := node.next;
      }
      spine, row := rest, less;
    }

    /** Lines 118-126: the node leaves the chain and is freed. */
    method Unlink(prev: HashNode?<K, V>, node: HashNode<K, V>, ghost i: nat)
      requires Valid() && i < |spine| && node == spine[i]
      requires prev == if i == 0 then null else spine[i - 1]
      modifies this, spine
      ensures Valid() && node.deleted
      ensures spine == old(spine)[..i] + old(spine)[i + 1..] && row == old(row)[..i] + old(row)[i + 1..]
    {
      Bypass(prev, node, i);
      hide Valid;
      label L:
      node.Delete();
      Same@L();
    }

    /** Lines 99-128. */
    method Erase(key: K)
      requires Valid()
      modifies this, spine
      ensures Valid()
      ensures row == Remove(old(row), key)
      ensures forall n :: n in spine ==> n in old(spine)
      ensures forall n :: n in old(spine) ==> (n.deleted <==> n !in spine)
    {
      hide IndexOf;
      var prev, node, i := Walk(key);
      if node == null { return; }
      ghost var was := spine;
      Unlink(prev, node, i);
      forall n | n in was ensures n.deleted <==> n !in spine {
        if n != node {
          var j: nat :| j < |was| && was[j] == n;
          assert j != i && spine[if j < i then j else j - 1] == n;
        }
      }
    }

    /** Lines 130-143. */
    method Clear()
      requires Valid()
      modifies this, spine
      ensures Valid() && spine == [] && row == []
      ensures forall n :: n in old(spine) ==> n.deleted
    {
      var prev: HashNode?<K, V> := null;
      var node := head;
      ghost var i := 0;
      while node != null
        invariant 0 <= i <= |spine| && node == At(i) && spine == old(spine)
        invariant |row| == |spine| && forall j :: 0 <= j < |spine| ==> row[j].key == spine[j].key
        invariant DistinctKeys(row)
        invariant forall j {:trigger spine[j].deleted} :: 0 <= j < |spine| ==> (spine[j].deleted <==> j < i)
        invariant forall j {:trigger spine[j].next} ::
          0 <= j < |spine| ==> spine[j].next == if j < i then null else At(j + 1)
        decreases |spine| - i
      {
        prev := node;
        node := node.next;
        prev.Delete();
        i := i + 1;
      }
      head := null;
      spine, row := [], [];
    }
  }

  const HASH_SIZE_DEFAULT: nat := 1031

  /** The table is an array of buckets whose elements are never replaced. */
  class ConcurrentHashMap<K(==,!new), V> {
    const hash: K -> nat
    const buckets: seq<HashBucket<K, V>>
    /** What the buckets hold, and the map that this stands for. */
    ghost var rows: seq<Row<K, V>>
    ghost var contents: map<K, V>
    /** All nodes that were ever linked. */
    ghost var nodes: set<HashNode<K, V>>

    /** A bucket is well-formed and holds its row. */
    ghost predicate BucketOk(i: nat)
      requires i < |buckets|
      reads `rows, `nodes, buckets[i], nodes
    {
      && (forall n :: n in buckets[i].spine ==> n in nodes)
      && i < |rows| && buckets[i].Valid() && buckets[i].row == rows[i]
    }

    /** Valid buckets.  A node is only in the bucket that made it, so no node is in two chains. */
    ghost predicate BucketsOk()
      reads `rows, `nodes, buckets, nodes
    {
      && |rows| == |buckets|
      && (forall i, j :: 0 <= i < j < |buckets| ==> buckets[i] != buckets[j])
      && (forall i :: 0 <= i < |buckets| ==> BucketOk(i))
    }

    /** Valid buckets, and every key in its own bucket. */
    ghost predicate Valid()
      reads this, buckets, nodes
    {
      BucketsOk() && Homed(hash, rows) && contents == MapOf(hash, rows)
    }

    constructor (hash: K -> nat, hashSize: nat := HASH_SIZE_DEFAULT)
      requires hashSize > 0
      ensures Valid() && |buckets| == hashSize && this.hash == hash
      ensures contents == map[]
      ensures fresh(buckets) && nodes == {}
    {
      this.hash := hash;
      var made: seq<HashBucket<K, V>> := [];
      for i := 0 to hashSize
        invariant |made| == i
        invariant forall j :: 0 <= j < i ==>
                    fresh(made[j]) && made[j].Valid() && made[j].spine == [] && made[j].row == []
        invariant forall j, k :: 0 <= j < k < i ==> made[j] != made[k]
      {
        var bucket := new HashBucket<K, V>();
        made := made + [bucket];
      }
      buckets := made;
      rows, contents := seq(hashSize, _ => []), map[];
      nodes := {};
      new;
      EmptiedIsEmpty(hash, rows);
      assert rows == Emptied(rows);
    }

    /** No node is in two chains. */
    lemma Disjoint(i: nat, j: nat)
      requires Valid() && i < |buckets| && j < |buckets| && i != j
      ensures forall n :: n in buckets[i].spine ==> n !in buckets[j].spine
    {
      assert BucketOk(i) && BucketOk(j);
    }

    /** Lines 170-174. */
    method Find(key: K) returns (r: Option<V>)
      requires Valid()
      ensures r == if key in contents then Some(contents[key]) else None
    {
      var hashValue := Home(hash, |buckets|, key);
      assert BucketOk(hashValue);
      r := buckets[hashValue].Find(key);
      GetIsLookup(hash, rows, key);
    }

    /** An operation on one bucket leaves the other buckets alone. */
    twostate lemma Others(h: nat)
      requires h < |buckets| && old(BucketsOk()) && |rows| == |buckets|
      requires forall n :: n in old(nodes) ==> n in nodes && (n.owner != buckets[h] ==> unchanged(n))
      requires forall i :: 0 <= i < |buckets| && i != h ==> unchanged(buckets[i]) && rows[i] == old(rows[i])
      ensures BucketOk(h) ==> BucketsOk()
    {
      forall i | 0 <= i < |buckets| && i != h ensures BucketOk(i) {
        assert old(BucketOk(i));
        buckets[i].Same();
      }
    }

    lemma OwnNodes(h: nat)
      requires h < |buckets| && BucketsOk()
      ensures forall n :: n in buckets[h].spine ==> n in nodes && n.owner == buckets[h]
      ensures |rows| == |buckets| && buckets[h].Valid() && buckets[h].row == rows[h]
      ensures forall i :: 0 <= i < |buckets| && i != h ==> buckets[i] != buckets[h]
    {
      assert BucketOk(h);
    }

    /** Line 179. */
    method InsertAt(h: nat, key: K, value: V, memory: bool) returns (ok: bool)
      requires h < |buckets| && BucketsOk()
      modifies `rows, `nodes, buckets, nodes
      ensures BucketsOk() && fresh(nodes - old(nodes))
      ensures ok <==> memory || old(Get(rows[h], key)).Some?
      ensures rows == if ok then old(rows[h := Put(rows[h], key, value)]) else old(rows)
    {
      OwnNodes(h);
      hide HashBucket.Valid;
      hide Get;
      hide Put;
      hide BucketsOk;
      ok := buckets[h].Insert(key, value, memory);
      nodes := nodes + set n | n in buckets[h].spine;
      rows := rows[h := buckets[h].row];
      Others(h);
    }

    lemma InsertPlan(key: K, value: V)
      requires Valid()
      ensures |rows| == |buckets| > 0 && BucketsOk()
      ensures var h, after := Home(hash, |buckets|, key), TablePut(hash, rows, key, value);
              && after == rows[h := Put(rows[h], key, value)] && (Get(rows[h], key).Some? <==> key in contents)
              && Homed(hash, after) && MapOf(hash, after) == contents[key := value]
    {
      GetIsLookup(hash, rows, key);
      PutIsUpdate(hash, rows, key, value);
    }

    /** Lines 176-180; `new` may throw for a key that is not there. */
    method Insert(key: K, value: V, memory: bool) returns (ok: bool)
      requires Valid()
      modifies this, buckets, nodes
      ensures Valid() && fresh(nodes - old(nodes))
      ensures ok <==> memory || key in old(contents)
      ensures rows == if ok then TablePut(hash, old(rows), key, value) else old(rows)
      ensures contents == if ok then old(contents)[key := value] else old(contents)
    {
      hide BucketsOk;
      hide Homed;
      hide MapOf;
      hide Home;
      hide Get;
      hide Put;
      hide TablePut;
      InsertPlan(key, value);
      var hashValue := Home(hash, |buckets|, key);
      ok := InsertAt(hashValue, key, value, memory);
      if ok { contents := contents[key := value]; }
    }

    /** Line 185. */
    method EraseAt(h: nat, key: K)
      requires h < |buckets| && BucketsOk()
      modifies `rows, buckets, nodes
      ensures BucketsOk() && rows == old(rows[h := Remove(rows[h], key)])
    {
      OwnNodes(h);
      hide HashBucket.Valid;
      hide Remove;
      hide BucketsOk;
      buckets[h].Erase(key);
      rows := rows[h := buckets[h].row];
      Others(h);
    }

    lemma ErasePlan(key: K)
      requires Valid()
      ensures |rows| == |buckets| > 0 && BucketsOk()
      ensures var h, after := Home(hash, |buckets|, key), TableRemove(hash, rows, key);
              && after == rows[h := Remove(rows[h], key)]
              && Homed(hash, after) && MapOf(hash, after) == contents - {key}
    {
      RemoveIsErase(hash, rows, key);
    }

    /** Lines 182-186. */
    method Erase(key: K)
      requires Valid()
      modifies this, buckets, nodes
      ensures Valid() && nodes == old(nodes)
      ensures rows == TableRemove(hash, old(rows), key)
      ensures contents == old(contents) - {key}
    {
      hide BucketsOk;
      hide Homed;
      hide MapOf;
      hide Home;
      hide Remove;
      hide TableRemove;
      ErasePlan(key);
      var hashValue := Home(hash, |buckets|, key);
      EraseAt(hashValue, key);
      contents := contents - {key};
    }

    /** Lines 190-193: the buckets from the first to the last. */
    method ClearBuckets()
      requires BucketsOk()
      modifies `rows, buckets, nodes
      ensures BucketsOk() && rows == Emptied(old(rows))
    {
      for i := 0 to |buckets|
        invariant BucketsOk() && nodes == old(nodes) && |rows| == |old(rows)| == |buckets|
        invariant forall j :: 0 <= j < i ==> rows[j] == []
      {
        label L:
        OwnNodes(i);
        hide HashBucket.Valid;
        hide BucketsOk;
        buckets[i].Clear();
        rows := rows[i := []];
        Others@L(i);
      }
    }

    /** Lines 188-194. */
    method Clear()
      requires Valid()
      modifies this, buckets, nodes
      ensures Valid() && nodes == old(nodes)
      ensures rows == Emptied(old(rows)) && contents == map[]
    {
      EmptiedIsEmpty(hash, rows);
      hide Homed;
      hide MapOf;
      hide BucketOk;
      ClearBuckets();
      contents := map[];
    }
  }
}
