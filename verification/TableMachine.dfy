/**
 The concurrent hash table of ConcurrentHashMap.hpp as a step machine.

 Any number of threads call Find, Insert, Erase and Clear.  A call locks one bucket (shared for Find,
 exclusive otherwise), walks the bucket's list one node per step over an explicit heap, mutates, frees what
 it unlinked and unlocks.  `delete` removes an address from the heap and `new` may hand it out again.
 Every interleaving of the threads' steps is a run.

 Three fields of the state are not in the program.  They record what has happened so that the
 theorems can be stated, and no step reads them to decide what to do:
   spine  the addresses of each bucket's list, in order;
   abs    the atomic map that the calls pretend to act on, with `log` the calls in the order they took effect;
   hist   the invocations and returns, each stamped with the length of the log at that moment.
 The field `home` is the bucket of a key: hash(key) % size, for an arbitrary hash function.
 */
module TableMachine {
  import opened Options

  type Addr = nat

  datatype Node<K, V> = Node(key: K, value: V, next: Option<Addr>)

  datatype Op<K, V> = Find(key: K) | Insert(key: K, val: V) | Erase(key: K) | Clear

  datatype Res<V> = Found(found: V) | Absent | Unit

  /** One atomic effect: a whole call, or for Clear the clearing of one bucket. */
  datatype Entry<K, V> = Entry(call: nat, op: Op<K, V>, bucket: nat, res: Res<V>)

  /** A call is named by the index of its Invoked event.  `at` lists the log positions of its effects. */
  datatype Event<K, V> =
    | Invoked(thread: nat, op: Op<K, V>, stamp: nat)
    | Returned(call: nat, res: Res<V>, at: seq<nat>, stamp: nat)

  datatype Phase<K, V> =
    | Idle
      /** Invoked, waiting for the bucket's lock. */
    | Called(call: nat, op: Op<K, V>)
      /** In the while loop of Find, Insert or Erase; `pos` counts the nodes already passed. */
    | Walking(call: nat, op: Op<K, V>, bucket: nat, prev: Option<Addr>, node: Option<Addr>, pos: nat)
      /** Erase has unlinked `victim` and is about to delete it. */
    | Deleting(call: nat, op: Op<K, V>, bucket: nat, victim: Addr, at: seq<nat>)
      /** Done with the bucket, lock still held. */
    | Leaving(call: nat, op: Op<K, V>, bucket: nat, res: Res<V>, at: seq<nat>)
      /** Lock released, result not yet handed to the caller. */
    | Returning(call: nat, op: Op<K, V>, res: Res<V>, at: seq<nat>)
      /** Clear between buckets, waiting for the lock of `bucket`. */
    | NextBucket(call: nat, bucket: nat, at: seq<nat>)
      /** Clear inside `bucket`, about to free `node` and everything after it. */
    | Sweeping(call: nat, bucket: nat, node: Option<Addr>, at: seq<nat>)
      /** Clear has reset the head of `bucket`, lock still held. */
    | Swept(call: nat, bucket: nat, at: seq<nat>)

  datatype State<!K, !V> = State(
    home: K -> nat,
    heap: map<Addr, Node<K, V>>,
    heads: seq<Option<Addr>>,
    writer: seq<Option<nat>>,
    readers: seq<set<nat>>,
    threads: seq<Phase<K, V>>,
    spine: seq<seq<Addr>>,
    abs: map<K, V>,
    log: seq<Entry<K, V>>,
    hist: seq<Event<K, V>>)
  {
    /** The number of buckets. */
    function Size(): nat { |heads| }
  }

  // ---------------------------------------------------------------------------------------------
  // The atomic map
  // ---------------------------------------------------------------------------------------------

  /** What one effect does to the atomic map, and what it answers. */
  ghost function Apply<K, V>(home: K -> nat, m: map<K, V>, op: Op<K, V>, bucket: nat): (map<K, V>, Res<V>)
  {
    match op
    case Find(k) => (m, if k in m then Found(m[k]) else Absent)
    case Insert(k, v) => (m[k := v], Unit)
    case Erase(k) => (m - {k}, Unit)
    case Clear => (map k | k in m && home(k) != bucket :: m[k], Unit)
  }

  /** The map after a sequence of effects, one at a time, from the empty map. */
  ghost function Replay<K, V>(home: K -> nat, log: seq<Entry<K, V>>): map<K, V>
  {
    if log == [] then map[] else
    var e := log[|log| - 1];
    Apply(home, Replay(home, log[..|log| - 1]), e.op, e.bucket).0
  }

  /** Every recorded answer is the one the atomic map gives at that point. */
  ghost predicate Legal<K, V>(home: K -> nat, log: seq<Entry<K, V>>)
  {
    forall p :: 0 <= p < |log| ==>
      log[p].res == Apply(home, Replay(home, log[..p]), log[p].op, log[p].bucket).1
  }

  // ---------------------------------------------------------------------------------------------
  // Steps
  // ---------------------------------------------------------------------------------------------

  /** Lines 172, 178 and 184. */
  ghost predicate Hashes<K(!new), V>(s: State<K, V>, hash: K -> nat)
    requires s.Size() > 0
  {
    forall k :: s.home(k) == hash(k) % s.Size()
  }

  ghost predicate Init<K(!new), V>(s: State<K, V>) {
    && s.Size() > 0
    && (exists hash: K -> nat :: Hashes(s, hash))
    && |s.writer| == |s.readers| == |s.spine| == s.Size()
    && s.heap == map[] && s.abs == map[] && s.log == [] && s.hist == []
    && (forall b :: 0 <= b < s.Size() ==>
          s.heads[b] == None && s.writer[b] == None && s.readers[b] == {} && s.spine[b] == [])
    && (forall t :: 0 <= t < |s.threads| ==> s.threads[t] == Idle)
  }

  ghost predicate Shape<K(!new), V>(s: State<K, V>) {
    && s.Size() > 0 && |s.writer| == |s.readers| == |s.spine| == s.Size()
    && forall k :: s.home(k) < s.Size()
  }

  ghost function Goto<K(!new), V>(s: State<K, V>, t: nat, p: Phase<K, V>): State<K, V>
    requires t < |s.threads|
  {
    s.(threads := s.threads[t := p])
  }

  /** Appends an effect to the log and lets it act on the atomic map. */
  ghost function Take<K(!new), V>(s: State<K, V>, call: nat, op: Op<K, V>, bucket: nat): State<K, V>
    requires Shape(s)
  {
    var r := Apply(s.home, s.abs, op, bucket);
    s.(abs := r.0, log := s.log + [Entry(call, op, bucket, r.1)])
  }

  ghost function Answer<K(!new), V>(s: State<K, V>, op: Op<K, V>, bucket: nat): Res<V>
    requires Shape(s)
  {
    Apply(s.home, s.abs, op, bucket).1
  }

  /** The list without its i-th element. */
  ghost function Without(xs: seq<Addr>, i: nat): seq<Addr> {
    if i < |xs| then xs[..i] + xs[i + 1..] else xs
  }

  ghost predicate Invoke<K(!new), V>(s: State<K, V>, s': State<K, V>, t: nat, op: Op<K, V>)
    requires t < |s.threads|
  {
    && s.threads[t].Idle?
    && s' == Goto(s, t, if op.Clear? then NextBucket(|s.hist|, 0, []) else Called(|s.hist|, op))
             .(hist := s.hist + [Invoked(t, op, |s.log|)])
  }

  /** Line 53: the shared lock is granted when there is no writer. */
  ghost predicate AcquireShared<K(!new), V>(s: State<K, V>, s': State<K, V>, t: nat)
    requires Shape(s) && t < |s.threads|
  {
    var p := s.threads[t];
    && p.Called? && p.op.Find?
    && var b := s.home(p.op.key);
    && s.writer[b] == None
    && s' == Goto(s, t, Walking(p.call, p.op, b, None, s.heads[b], 0))
             .(readers := s.readers[b := s.readers[b] + {t}])
  }

  /** Lines 71 and 102: the exclusive lock is granted when nobody holds the bucket. */
  ghost predicate AcquireExclusive<K(!new), V>(s: State<K, V>, s': State<K, V>, t: nat)
    requires Shape(s) && t < |s.threads|
  {
    var p := s.threads[t];
    && p.Called? && (p.op.Insert? || p.op.Erase?)
    && var b := s.home(p.op.key);
    && s.writer[b] == None && s.readers[b] == {}
    && s' == Goto(s, t, Walking(p.call, p.op, b, None, s.heads[b], 0)).(writer := s.writer[b := Some(t)])
  }

  /** One turn of the while loop: the node's key differs, move on. */
  ghost predicate Advance<K(!new), V>(s: State<K, V>, s': State<K, V>, t: nat)
    requires t < |s.threads|
  {
    var p := s.threads[t];
    && p.Walking? && p.node.Some? && p.node.value in s.heap && !p.op.Clear?
    && s.heap[p.node.value].key != p.op.key
    && s' == Goto(s, t, Walking(p.call, p.op, p.bucket, p.node, s.heap[p.node.value].next, p.pos + 1))
  }

  /** Lines 58-62 and 65: Find stops at the key or at the end of the list. */
  ghost predicate FindStop<K(!new), V>(s: State<K, V>, s': State<K, V>, t: nat)
    requires Shape(s) && t < |s.threads|
  {
    var p := s.threads[t];
    && p.Walking? && p.op.Find?
    && (p.node.Some? ==> p.node.value in s.heap && s.heap[p.node.value].key == p.op.key)
    && var res := if p.node.Some? then Found(s.heap[p.node.value].value) else Absent;
    && s' == Goto(Take(s, p.call, p.op, p.bucket), t, Leaving(p.call, p.op, p.bucket, res, [|s.log|]))
  }

  /** Lines 81-91: a new node, linked at the head of an empty list and after `prev` otherwise. */
  ghost predicate InsertNew<K(!new), V>(s: State<K, V>, s': State<K, V>, t: nat, a: Addr)
    requires Shape(s) && t < |s.threads|
  {
    var p := s.threads[t];
    && p.Walking? && p.op.Insert? && p.node == None && p.bucket < s.Size()
    && a !in s.heap
    && var node := Node(p.op.key, p.op.val, None);
    && var moved := Goto(Take(s, p.call, p.op, p.bucket), t, Leaving(p.call, p.op, p.bucket, Unit, [|s.log|]))
                    .(spine := s.spine[p.bucket := s.spine[p.bucket] + [a]]);
    && if s.heads[p.bucket] == None
       then s' == moved.(heap := s.heap[a := node], heads := s.heads[p.bucket := Some(a)])
       else
         && p.prev.Some? && p.prev.value in s.heap
         && s' == moved.(heap := s.heap[a := node][p.prev.value := s.heap[p.prev.value].(next := Some(a))])
  }

  /** Line 94: the key is there, its value is replaced in place. */
  ghost predicate InsertUpdate<K(!new), V>(s: State<K, V>, s': State<K, V>, t: nat)
    requires Shape(s) && t < |s.threads|
  {
    var p := s.threads[t];
    && p.Walking? && p.op.Insert? && p.node.Some? && p.node.value in s.heap
    && s.heap[p.node.value].key == p.op.key
    && s' == Goto(Take(s, p.call, p.op, p.bucket), t, Leaving(p.call, p.op, p.bucket, Unit, [|s.log|]))
             .(heap := s.heap[p.node.value := s.heap[p.node.value].(value := p.op.val)])
  }

  /** Lines 112-115. */
  ghost predicate EraseMiss<K(!new), V>(s: State<K, V>, s': State<K, V>, t: nat)
    requires Shape(s) && t < |s.threads|
  {
    var p := s.threads[t];
    && p.Walking? && p.op.Erase? && p.node == None
    && s' == Goto(Take(s, p.call, p.op, p.bucket), t, Leaving(p.call, p.op, p.bucket, Unit, [|s.log|]))
  }

  /** Lines 118-125: the node leaves the list but is still allocated. */
  ghost predicate EraseUnlink<K(!new), V>(s: State<K, V>, s': State<K, V>, t: nat)
    requires Shape(s) && t < |s.threads|
  {
    var p := s.threads[t];
    && p.Walking? && p.op.Erase? && p.node.Some? && p.node.value in s.heap && p.bucket < s.Size()
    && s.heap[p.node.value].key == p.op.key
    && var xs := s.spine[p.bucket];
    && var next := s.heap[p.node.value].next;
    && var moved := Goto(Take(s, p.call, p.op, p.bucket), t,
                         Deleting(p.call, p.op, p.bucket, p.node.value, [|s.log|]))
                    .(spine := s.spine[p.bucket := Without(xs, p.pos)]);
    && if s.heads[p.bucket] == p.node
       then s' == moved.(heads := s.heads[p.bucket := next])
       else
         && p.prev.Some? && p.prev.value in s.heap
         && s' == moved.(heap := s.heap[p.prev.value := s.heap[p.prev.value].(next := next)])
  }

  /** Line 126: delete. */
  ghost predicate EraseDelete<K(!new), V>(s: State<K, V>, s': State<K, V>, t: nat)
    requires t < |s.threads|
  {
    var p := s.threads[t];
    && p.Deleting?
    && s' == Goto(s, t, Leaving(p.call, p.op, p.bucket, Unit, p.at)).(heap := s.heap - {p.victim})
  }

  /** End of scope of the lock object. */
  ghost predicate Release<K(!new), V>(s: State<K, V>, s': State<K, V>, t: nat)
    requires Shape(s) && t < |s.threads|
  {
    var p := s.threads[t];
    && p.Leaving? && p.bucket < s.Size()
    && var moved := Goto(s, t, Returning(p.call, p.op, p.res, p.at));
    && s' == if p.op.Find?
             then moved.(readers := s.readers[p.bucket := s.readers[p.bucket] - {t}])
             else moved.(writer := s.writer[p.bucket := None])
  }

  ghost predicate Return<K(!new), V>(s: State<K, V>, s': State<K, V>, t: nat)
    requires t < |s.threads|
  {
    var p := s.threads[t];
    && p.Returning?
    && s' == Goto(s, t, Idle).(hist := s.hist + [Returned(p.call, p.res, p.at, |s.log|)])
  }

  /** Lines 133-135: Clear takes the exclusive lock of the next bucket.  The bucket reads as empty from here on. */
  ghost predicate ClearAcquire<K(!new), V>(s: State<K, V>, s': State<K, V>, t: nat)
    requires Shape(s) && t < |s.threads|
  {
    var p := s.threads[t];
    && p.NextBucket? && p.bucket < s.Size()
    && s.writer[p.bucket] == None && s.readers[p.bucket] == {}
    && s' == Goto(Take(s, p.call, Clear, p.bucket), t,
                  Sweeping(p.call, p.bucket, s.heads[p.bucket], p.at + [|s.log|]))
             .(writer := s.writer[p.bucket := Some(t)])
  }

  /** Lines 136-141: one node is freed. */
  ghost predicate ClearFree<K(!new), V>(s: State<K, V>, s': State<K, V>, t: nat)
    requires Shape(s) && t < |s.threads|
  {
    var p := s.threads[t];
    && p.Sweeping? && p.bucket < s.Size() && p.node.Some? && p.node.value in s.heap
    && s' == Goto(s, t, Sweeping(p.call, p.bucket, s.heap[p.node.value].next, p.at))
             .(heap := s.heap - {p.node.value}, spine := s.spine[p.bucket := Without(s.spine[p.bucket], 0)])
  }

  /** Line 142: _head = nullptr. */
  ghost predicate ClearReset<K(!new), V>(s: State<K, V>, s': State<K, V>, t: nat)
    requires t < |s.threads|
  {
    var p := s.threads[t];
    && p.Sweeping? && p.bucket < s.Size() && p.node == None
    && s' == Goto(s, t, Swept(p.call, p.bucket, p.at)).(heads := s.heads[p.bucket := None])
  }

  ghost predicate ClearRelease<K(!new), V>(s: State<K, V>, s': State<K, V>, t: nat)
    requires Shape(s) && t < |s.threads|
  {
    var p := s.threads[t];
    && p.Swept? && p.bucket < s.Size()
    && s' == Goto(s, t, NextBucket(p.call, p.bucket + 1, p.at)).(writer := s.writer[p.bucket := None])
  }

  ghost predicate ClearDone<K(!new), V>(s: State<K, V>, s': State<K, V>, t: nat)
    requires t < |s.threads|
  {
    var p := s.threads[t];
    && p.NextBucket? && p.bucket == s.Size()
    && s' == Goto(s, t, Returning(p.call, Clear, Unit, p.at))
  }

  /** Thread t makes one step. */
  ghost predicate ThreadStep<K(!new), V(!new)>(s: State<K, V>, s': State<K, V>, t: nat)
    requires Shape(s) && t < |s.threads|
  {
    || (exists op :: Invoke(s, s', t, op))
    || AcquireShared(s, s', t) || AcquireExclusive(s, s', t)
    || Advance(s, s', t) || FindStop(s, s', t)
    || (exists a :: InsertNew(s, s', t, a)) || InsertUpdate(s, s', t)
    || EraseMiss(s, s', t) || EraseUnlink(s, s', t) || EraseDelete(s, s', t)
    || Release(s, s', t) || Return(s, s', t)
    || ClearAcquire(s, s', t) || ClearFree(s, s', t) || ClearReset(s, s', t)
    || ClearRelease(s, s', t) || ClearDone(s, s', t)
  }

  ghost predicate Next<K(!new), V(!new)>(s: State<K, V>, s': State<K, V>) {
    Shape(s) && exists t: nat :: t < |s.threads| && ThreadStep(s, s', t)
  }

  ghost predicate StepAt<K(!new), V(!new)>(run: seq<State<K, V>>, i: nat)
    requires i + 1 < |run|
  {
    Next(run[i], run[i + 1])
  }

  /** A run: a start state and any number of steps. */
  ghost predicate Run<K(!new), V(!new)>(run: seq<State<K, V>>) {
    |run| > 0 && Init(run[0]) && forall i: nat :: i + 1 < |run| ==> StepAt(run, i)
  }
}
