/**
 How long a lock of the table machine is held, and how long the calls take: every step that a thread makes inside a
 bucket brings it nearer to the release, and once no more calls come in, all calls end after a bounded number of steps.
 */
module TableProgress {
  import opened Options
  import opened Sums
  import opened TableMachine
  import opened TableInvariant
  import TableHistory
  import TableTheorems

  // ---------------------------------------------------------------------------------------------
  // Three kinds of steps
  // ---------------------------------------------------------------------------------------------

  /** A step of the walk or of what it ends in. */
  ghost predicate Walks<K(!new), V(!new)>(s: State<K, V>, s': State<K, V>, t: nat)
    requires Shape(s) && t < |s.threads|
  {
    || Advance(s, s', t) || FindStop(s, s', t) || (exists a :: InsertNew(s, s', t, a)) || InsertUpdate(s, s', t)
    || EraseMiss(s, s', t) || EraseUnlink(s, s', t)
  }

  /** A step of Clear. */
  ghost predicate Clears<K(!new), V>(s: State<K, V>, s': State<K, V>, t: nat)
    requires Shape(s) && t < |s.threads|
  {
    || ClearAcquire(s, s', t) || ClearFree(s, s', t) || ClearReset(s, s', t)
    || ClearRelease(s, s', t) || ClearDone(s, s', t)
  }

  /** Any other step but a new call. */
  ghost predicate Plain<K(!new), V>(s: State<K, V>, s': State<K, V>, t: nat)
    requires Shape(s) && t < |s.threads|
  {
    || AcquireShared(s, s', t) || AcquireExclusive(s, s', t)
    || EraseDelete(s, s', t) || Release(s, s', t) || Return(s, s', t)
  }

  lemma ThreeKinds<K(!new), V(!new)>(s: State<K, V>, s': State<K, V>, t: nat)
    requires Shape(s) && t < |s.threads| && ThreadStep(s, s', t) && !s.threads[t].Idle?
    ensures Walks(s, s', t) || Clears(s, s', t) || Plain(s, s', t)
  {
    hide AcquireShared;
    hide AcquireExclusive;
    hide Advance;
    hide FindStop;
    hide InsertNew;
    hide InsertUpdate;
    hide EraseMiss;
    hide EraseUnlink;
    hide EraseDelete;
    hide Release;
    hide Return;
    hide ClearAcquire;
    hide ClearFree;
    hide ClearReset;
    hide ClearRelease;
    hide ClearDone;
  }

  lemma FromIdle<K(!new), V(!new)>(s: State<K, V>, s': State<K, V>, t: nat)
    requires Shape(s) && t < |s.threads| && ThreadStep(s, s', t) && s.threads[t].Idle?
    ensures exists op :: Invoke(s, s', t, op)
  {
  }

  // ---------------------------------------------------------------------------------------------
  // Inside a bucket
  // ---------------------------------------------------------------------------------------------

  /** The phase holds the lock of bucket b. */
  ghost predicate Inside<K, V>(p: Phase<K, V>, b: nat) {
    Writes(p, b) || Reads(p, b)
  }

  /** A bound on the steps that a thread in this phase makes before it has released its bucket, whose list has this
      length; nothing for a thread that holds no lock. */
  ghost function Left<K, V>(p: Phase<K, V>, length: nat): nat {
    match p
    case Walking(_, _, _, _, _, pos) => (if pos <= length then length - pos else 0) + 3
    case Deleting(_, _, _, _, _) => 2
    case Leaving(_, _, _, _, _) => 1
    case Sweeping(_, _, _, _) => length + 2
    case Swept(_, _, _) => 1
    case _ => 0
  }

  /** A thread inside a bucket stands at a position of its list. */
  ghost predicate Stands<K(!new), V>(s: State<K, V>, p: Phase<K, V>)
    requires Shape(s)
  {
    && (p.Walking? ==>
          && p.bucket < s.Size() && p.pos <= |s.spine[p.bucket]|
          && (p.node.Some? <==> p.pos < |s.spine[p.bucket]|))
    && (p.Sweeping? ==> p.bucket < s.Size() && (p.node.Some? <==> |s.spine[p.bucket]| > 0))
  }

  lemma ThreadStands<K(!new), V>(s: State<K, V>, t: nat)
    requires Inv(s) && t < |s.threads|
    ensures Stands(s, s.threads[t])
  {
    var p := s.threads[t];
    assert PhaseOk(s, p);
    if p.Walking? {
      WalkerBucket(s, t);
    } else if p.Sweeping? {
      assert Writes(p, p.bucket);
      assert BucketOk(s, p.bucket);
    }
  }

  lemma WalkLeft<K(!new), V(!new)>(s: State<K, V>, s': State<K, V>, t: nat, b: nat)
    requires Shape(s) && t < |s.threads| && Stands(s, s.threads[t]) && Walks(s, s', t)
    requires b < s.Size() && Inside(s.threads[t], b)
    ensures t < |s'.threads| && b < |s'.spine|
    ensures Left(s'.threads[t], |s'.spine[b]|) < Left(s.threads[t], |s.spine[b]|)
  {
  }

  lemma ClearLeft<K(!new), V(!new)>(s: State<K, V>, s': State<K, V>, t: nat, b: nat)
    requires Shape(s) && t < |s.threads| && Stands(s, s.threads[t]) && Clears(s, s', t)
    requires b < s.Size() && Inside(s.threads[t], b)
    ensures t < |s'.threads| && b < |s'.spine|
    ensures Left(s'.threads[t], |s'.spine[b]|) < Left(s.threads[t], |s.spine[b]|)
  {
  }

  lemma PlainLeft<K(!new), V>(s: State<K, V>, s': State<K, V>, t: nat, b: nat)
    requires Shape(s) && t < |s.threads| && Stands(s, s.threads[t]) && Plain(s, s', t)
    requires b < s.Size() && Inside(s.threads[t], b)
    ensures t < |s'.threads| && b < |s'.spine|
    ensures Left(s'.threads[t], |s'.spine[b]|) < Left(s.threads[t], |s.spine[b]|)
  {
  }

  /** Inside a bucket every step of a thread brings it nearer to the release. */
  lemma HolderStep<K(!new), V(!new)>(s: State<K, V>, s': State<K, V>, t: nat, b: nat)
    requires Shape(s) && t < |s.threads| && Stands(s, s.threads[t]) && ThreadStep(s, s', t)
    requires b < s.Size() && Inside(s.threads[t], b)
    ensures t < |s'.threads| && b < |s'.spine|
    ensures Left(s'.threads[t], |s'.spine[b]|) < Left(s.threads[t], |s.spine[b]|)
  {
    hide ThreadStep;
    hide Walks;
    hide Clears;
    hide Plain;
    ThreeKinds(s, s', t);
    if Walks(s, s', t) {
      WalkLeft(s, s', t, b);
    } else if Clears(s, s', t) {
      ClearLeft(s, s', t, b);
    } else {
      PlainLeft(s, s', t, b);
    }
  }

  /** A thread inside a bucket keeps writers out. */
  lemma NoOtherWriter<K(!new), V>(s: State<K, V>, t: nat, u: nat, b: nat)
    requires Inv(s) && t < |s.threads| && u < |s.threads| && u != t && b < s.Size() && Inside(s.threads[t], b)
    ensures !Writes(s.threads[u], b)
  {
    assert s.writer[b] == Some(u) <==> Writes(s.threads[u], b);
    assert s.writer[b] == Some(t) <==> Writes(s.threads[t], b);
    assert t in s.readers[b] <==> Reads(s.threads[t], b);
  }

  /** A step of one thread leaves the other threads and the number of buckets alone. */
  lemma StepOthers<K(!new), V(!new)>(s: State<K, V>, s': State<K, V>, t: nat)
    requires Shape(s) && t < |s.threads| && ThreadStep(s, s', t)
    ensures TableHistory.SameOthers(s, s', t)
  {
    hide ThreadStep;
    hide Walks;
    hide Clears;
    hide Plain;
    if s.threads[t].Idle? {
      FromIdle(s, s', t);
      return;
    }
    ThreeKinds(s, s', t);
    if Walks(s, s', t) {
      WalkOthers(s, s', t);
    } else if Clears(s, s', t) {
      ClearOthers(s, s', t);
    } else {
      PlainOthers(s, s', t);
    }
  }

  lemma PlainOthers<K(!new), V>(s: State<K, V>, s': State<K, V>, t: nat)
    requires Shape(s) && t < |s.threads| && Plain(s, s', t)
    ensures TableHistory.SameOthers(s, s', t)
  {
  }

  lemma WalkOthers<K(!new), V(!new)>(s: State<K, V>, s': State<K, V>, t: nat)
    requires Shape(s) && t < |s.threads| && Walks(s, s', t)
    ensures TableHistory.SameOthers(s, s', t)
  {
  }

  lemma ClearOthers<K(!new), V(!new)>(s: State<K, V>, s': State<K, V>, t: nat)
    requires Shape(s) && t < |s.threads| && Clears(s, s', t)
    ensures TableHistory.SameOthers(s, s', t)
  {
  }

  /** Whoever does not write in a bucket leaves its list alone. */
  lemma OtherList<K(!new), V(!new)>(s: State<K, V>, s': State<K, V>, u: nat, b: nat)
    requires Shape(s) && u < |s.threads| && ThreadStep(s, s', u)
    requires b < s.Size() && !Writes(s.threads[u], b)
    ensures |s'.spine| == |s.spine| && s'.spine[b] == s.spine[b]
  {
    if op :| Invoke(s, s', u, op) {
    } else if a :| InsertNew(s, s', u, a) {
      assert Writes(s.threads[u], s.threads[u].bucket);
    } else if EraseUnlink(s, s', u) {
      assert Writes(s.threads[u], s.threads[u].bucket);
    }
  }

  /** How many of the steps from i to j are made by thread t. */
  ghost function StepsOf<K(!new), V(!new)>(run: seq<State<K, V>>, i: nat, j: nat, t: nat): nat
    requires i <= j < |run|
    decreases j - i
  {
    if i == j then 0
    else StepsOf(run, i, j - 1, t) + if StepsAt(run, j - 1, t) then 1 else 0
  }

  ghost predicate StepsAt<K(!new), V(!new)>(run: seq<State<K, V>>, i: nat, t: nat)
    requires i + 1 < |run|
  {
    Shape(run[i]) && t < |run[i].threads| && ThreadStep(run[i], run[i + 1], t)
  }

  ghost predicate InsideAt<K(!new), V>(s: State<K, V>, t: nat, b: nat) {
    t < |s.threads| && b < s.Size() && b < |s.spine| && Inside(s.threads[t], b)
  }

  lemma HoldStep<K(!new), V(!new)>(run: seq<State<K, V>>, i: nat, t: nat, b: nat)
    requires Run(run) && i + 1 < |run| && InsideAt(run[i], t, b)
    ensures t < |run[i + 1].threads| && b < |run[i + 1].spine|
    ensures Left(run[i + 1].threads[t], |run[i + 1].spine[b]|) + (if StepsAt(run, i, t) then 1 else 0)
            <= Left(run[i].threads[t], |run[i].spine[b]|)
  {
    RunKeeps(run, i);
    RunStep(run, i);
    var s, s' := run[i], run[i + 1];
    if StepsAt(run, i, t) {
      ThreadStands(s, t);
      HolderStep(s, s', t, b);
    } else {
      var u: nat :| u < |s.threads| && ThreadStep(s, s', u);
      NoOtherWriter(s, t, u, b);
      StepOthers(s, s', u);
      OtherList(s, s', u, b);
    }
  }

  /** While a thread holds a bucket, whatever the others do, each of its steps brings it nearer to the release; so it
      makes at most three steps more than the list is long before it has released the bucket. */
  lemma {:induction false} HoldIsBounded<K(!new), V(!new)>(run: seq<State<K, V>>, i: nat, j: nat, t: nat, b: nat)
    requires Run(run) && i <= j < |run| && InsideAt(run[i], t, b)
    requires forall k :: i <= k < j ==> InsideAt(run[k], t, b)
    ensures t < |run[j].threads| && b < |run[j].spine|
    ensures StepsOf(run, i, j, t) + Left(run[j].threads[t], |run[j].spine[b]|)
            <= Left(run[i].threads[t], |run[i].spine[b]|) <= |run[i].spine[b]| + 3
    decreases j - i
  {
    hide Run;
    hide StepsAt;
    if i < j {
      HoldIsBounded(run, i, j - 1, t, b);
      HoldStep(run, j - 1, t, b);
    }
  }

  // ---------------------------------------------------------------------------------------------
  // When no more calls come in
  // ---------------------------------------------------------------------------------------------

  /** A call that may still make a node. */
  ghost function Inserter<K, V>(p: Phase<K, V>): nat {
    if (p.Called? || p.Walking?) && p.op.Insert? then 1 else 0
  }

  /** How many nodes there can be from now on without a new call. */
  ghost function Room<K(!new), V>(s: State<K, V>): nat {
    |s.heap| + Sum(s.threads, p => Inserter(p))
  }

  /** What a Clear has left to do before k more buckets. */
  ghost function ToClear(k: nat, n: nat): nat {
    if k == 0 then 2 else ToClear(k - 1, n) + n + 4
  }

  ghost function Minus(a: nat, b: nat): nat {
    if b <= a then a - b else 0
  }

  /** A bound on the steps that a thread in this phase still makes for its call, waiting not counted, in a table of
      this size with at most n nodes. */
  ghost function Rank<K, V>(p: Phase<K, V>, n: nat, size: nat): nat {
    match p
    case Idle => 0
    case Returning(_, _, _, _) => 1
    case Leaving(_, _, _, _, _) => 2
    case Deleting(_, _, _, _, _) => 3
    case Walking(_, _, _, _, _, pos) => Minus(n, pos) + 4
    case Called(_, _) => n + 5
    case NextBucket(_, b, _) => ToClear(Minus(size, b), n)
    case Sweeping(_, b, _, _) => ToClear(Minus(size, b + 1), n) + n + 2
    case Swept(_, b, _) => ToClear(Minus(size, b + 1), n) + 1
  }

  ghost function Measure<K(!new), V>(s: State<K, V>): nat {
    var n, size := Room(s), s.Size();
    Sum(s.threads, p => Rank(p, n, size))
  }

  lemma {:induction false} ToClearGrows(k: nat, m: nat, n: nat)
    requires m <= n
    ensures ToClear(k, m) <= ToClear(k, n)
  {
    if k > 0 { ToClearGrows(k - 1, m, n); }
  }

  lemma RankGrows<K, V>(p: Phase<K, V>, m: nat, n: nat, size: nat)
    requires m <= n
    ensures Rank(p, m, size) <= Rank(p, n, size)
    ensures m < n && p.Sweeping? ==> Rank(p, m, size) < Rank(p, n, size)
  {
    match p
    case NextBucket(_, b, _) => ToClearGrows(Minus(size, b), m, n);
    case Sweeping(_, b, _, _) => ToClearGrows(Minus(size, b + 1), m, n);
    case Swept(_, b, _) => ToClearGrows(Minus(size, b + 1), m, n);
    case _ =>
  }

  lemma {:induction false} FitsIn(xs: seq<Addr>, addrs: set<Addr>)
    requires forall i :: 0 <= i < |xs| ==> xs[i] in addrs
    requires forall i, j :: 0 <= i < j < |xs| ==> xs[i] != xs[j]
    ensures |xs| <= |addrs|
  {
    if xs != [] {
      FitsIn(xs[1..], addrs - {xs[0]});
      assert addrs == (addrs - {xs[0]}) + {xs[0]};
    }
  }

  /** No list is longer than the heap. */
  lemma ListFits<K(!new), V>(s: State<K, V>, b: nat)
    requires Inv(s) && b < s.Size()
    ensures |s.spine[b]| <= |s.heap|
  {
    assert BucketOk(s, b);
    var xs := s.spine[b];
    forall i, j | 0 <= i < j < |xs| ensures xs[i] != xs[j] {
      DistinctNodes(s.home, b, s.heap, Start(s, b), xs, i, j);
    }
    FitsIn(xs, s.heap.Keys);
    assert |s.heap.Keys| == |s.heap|;
  }

  lemma SizeOfPut<K, V>(m: map<K, V>, k: K, v: V)
    ensures |m[k := v]| == if k in m then |m| else |m| + 1
  {
    assert m[k := v].Keys == m.Keys + {k};
    assert |m.Keys| == |m| && |m[k := v].Keys| == |m[k := v]|;
    if k in m { assert m.Keys + {k} == m.Keys; }
  }

  lemma SizeOfDrop<K, V>(m: map<K, V>, k: K)
    ensures |m - {k}| == if k in m then |m| - 1 else |m|
  {
    assert (m - {k}).Keys == m.Keys - {k};
    assert |m.Keys| == |m| && |(m - {k}).Keys| == |m - {k}|;
  }

  lemma InsertNewHeap<K(!new), V(!new)>(s: State<K, V>, s': State<K, V>, t: nat, a: Addr)
    requires Shape(s) && t < |s.threads| && InsertNew(s, s', t, a)
    ensures |s'.heap| == |s.heap| + 1
  {
    var p := s.threads[t];
    SizeOfPut(s.heap, a, Node(p.op.key, p.op.val, None));
    if s.heads[p.bucket].Some? {
      SizeOfPut(s.heap[a := Node(p.op.key, p.op.val, None)], p.prev.value, s'.heap[p.prev.value]);
    }
  }

  lemma WalkHeap<K(!new), V(!new)>(s: State<K, V>, s': State<K, V>, t: nat)
    requires Shape(s) && t < |s.threads| && Walks(s, s', t)
    ensures t < |s'.threads| && |s'.heap| + Inserter(s'.threads[t]) <= |s.heap| + Inserter(s.threads[t])
  {
    var p := s.threads[t];
    if a :| InsertNew(s, s', t, a) {
      InsertNewHeap(s, s', t, a);
    } else if InsertUpdate(s, s', t) {
      SizeOfPut(s.heap, p.node.value, s'.heap[p.node.value]);
    } else if EraseUnlink(s, s', t) && s.heads[p.bucket] != p.node {
      SizeOfPut(s.heap, p.prev.value, s'.heap[p.prev.value]);
    }
  }

  lemma ClearHeap<K(!new), V(!new)>(s: State<K, V>, s': State<K, V>, t: nat)
    requires Shape(s) && t < |s.threads| && Clears(s, s', t)
    ensures t < |s'.threads| && |s'.heap| + Inserter(s'.threads[t]) <= |s.heap| + Inserter(s.threads[t])
    ensures ClearFree(s, s', t) ==>
              |s'.heap| + Inserter(s'.threads[t]) < |s.heap| + Inserter(s.threads[t])
  {
    if ClearFree(s, s', t) { SizeOfDrop(s.heap, s.threads[t].node.value); }
  }

  lemma PlainHeap<K(!new), V>(s: State<K, V>, s': State<K, V>, t: nat)
    requires Shape(s) && t < |s.threads| && Plain(s, s', t)
    ensures t < |s'.threads| && |s'.heap| + Inserter(s'.threads[t]) <= |s.heap| + Inserter(s.threads[t])
  {
    hide EraseDelete;
    if EraseDelete(s, s', t) { DeleteHeap(s, s', t); }
  }

  lemma DeleteHeap<K(!new), V>(s: State<K, V>, s': State<K, V>, t: nat)
    requires Shape(s) && t < |s.threads| && EraseDelete(s, s', t)
    ensures t < |s'.threads| && |s'.heap| <= |s.heap| && Inserter(s'.threads[t]) == 0
  {
    SizeOfDrop(s.heap, s.threads[t].victim);
  }

  /** No step but a new call makes room for more nodes. */
  lemma StepHeap<K(!new), V(!new)>(s: State<K, V>, s': State<K, V>, t: nat)
    requires Shape(s) && t < |s.threads| && ThreadStep(s, s', t) && !s.threads[t].Idle?
    ensures t < |s'.threads| && |s'.heap| + Inserter(s'.threads[t]) <= |s.heap| + Inserter(s.threads[t])
  {
    hide ThreadStep;
    hide Walks;
    hide Clears;
    hide Plain;
    ThreeKinds(s, s', t);
    if Walks(s, s', t) {
      WalkHeap(s, s', t);
    } else if Clears(s, s', t) {
      ClearHeap(s, s', t);
    } else {
      PlainHeap(s, s', t);
    }
  }

  /** And freeing one takes room away. */
  lemma RoomShrinks<K(!new), V(!new)>(s: State<K, V>, s': State<K, V>, t: nat)
    requires Shape(s) && t < |s.threads| && ThreadStep(s, s', t) && !s.threads[t].Idle?
    ensures Room(s') <= Room(s)
    ensures Clears(s, s', t) && ClearFree(s, s', t) ==> Room(s') < Room(s)
  {
    hide ThreadStep;
    hide ClearFree;
    hide Clears;
    hide Inserter;
    StepHeap(s, s', t);
    StepOthers(s, s', t);
    if Clears(s, s', t) { ClearHeap(s, s', t); }
    assert s'.threads == s.threads[t := s'.threads[t]];
    SumUpdate(s.threads, t, s'.threads[t], p => Inserter(p));
  }

  lemma WalkRank<K(!new), V(!new)>(s: State<K, V>, s': State<K, V>, t: nat, m: nat, n: nat)
    requires Shape(s) && t < |s.threads| && Stands(s, s.threads[t]) && Walks(s, s', t)
    requires m <= n && (s.threads[t].Walking? ==> |s.spine[s.threads[t].bucket]| <= n)
    ensures t < |s'.threads| && Rank(s'.threads[t], m, s.Size()) < Rank(s.threads[t], n, s.Size())
  {
  }

  lemma ClearRank<K(!new), V(!new)>(s: State<K, V>, s': State<K, V>, t: nat, m: nat, n: nat)
    requires Shape(s) && t < |s.threads| && Clears(s, s', t)
    requires m <= n && (ClearFree(s, s', t) ==> m < n)
    ensures t < |s'.threads| && Rank(s'.threads[t], m, s.Size()) < Rank(s.threads[t], n, s.Size())
  {
    var p, p' := s.threads[t], s'.threads[t];
    RankGrows(p', m, n, s.Size());
  }

  lemma PlainRank<K(!new), V>(s: State<K, V>, s': State<K, V>, t: nat, m: nat, n: nat)
    requires Shape(s) && t < |s.threads| && Plain(s, s', t) && m <= n
    ensures t < |s'.threads| && Rank(s'.threads[t], m, s.Size()) < Rank(s.threads[t], n, s.Size())
  {
  }

  /** The thread that makes a step has less to do. */
  lemma OwnRank<K(!new), V(!new)>(s: State<K, V>, s': State<K, V>, t: nat, m: nat, n: nat)
    requires Shape(s) && t < |s.threads| && ThreadStep(s, s', t) && !s.threads[t].Idle? && Stands(s, s.threads[t])
    requires m <= n && (Clears(s, s', t) && ClearFree(s, s', t) ==> m < n)
    requires s.threads[t].Walking? ==> |s.spine[s.threads[t].bucket]| <= n
    ensures t < |s'.threads| && Rank(s'.threads[t], m, s.Size()) < Rank(s.threads[t], n, s.Size())
  {
    hide ThreadStep;
    hide Walks;
    hide Clears;
    hide ClearFree;
    hide Plain;
    ThreeKinds(s, s', t);
    if Walks(s, s', t) {
      WalkRank(s, s', t, m, n);
    } else if Clears(s, s', t) {
      ClearRank(s, s', t, m, n);
    } else {
      PlainRank(s, s', t, m, n);
    }
  }

  /** Every step but a new call leaves strictly less to do. */
  lemma StepDrops<K(!new), V(!new)>(s: State<K, V>, s': State<K, V>, t: nat)
    requires Inv(s) && t < |s.threads| && ThreadStep(s, s', t) && !s.threads[t].Idle?
    ensures Measure(s') < Measure(s)
  {
    var m, n, size := Room(s'), Room(s), s.Size();
    ThreadStands(s, t);
    if s.threads[t].Walking? { ListFits(s, s.threads[t].bucket); }
    hide Inv;
    hide ThreadStep;
    hide Stands;
    hide Clears;
    hide ClearFree;
    hide Rank;
    hide Room;
    RoomShrinks(s, s', t);
    StepOthers(s, s', t);
    OwnRank(s, s', t, m, n);
    forall u | 0 <= u < |s.threads| ensures Rank(s'.threads[u], m, size) <= Rank(s.threads[u], n, size) {
      if u != t { RankGrows(s.threads[u], m, n, size); }
    }
    SumDrops(s'.threads, p => Rank(p, m, size), s.threads, p => Rank(p, n, size), t);
  }

  /** Some thread invokes a new call. */
  ghost predicate NewCall<K(!new), V(!new)>(s: State<K, V>, s': State<K, V>) {
    exists t: nat, op :: t < |s.threads| && Invoke(s, s', t, op)
  }

  /** Some thread goes on with its call. */
  ghost predicate GoesOn<K(!new), V(!new)>(s: State<K, V>, s': State<K, V>) {
    Shape(s) && exists t: nat :: t < |s.threads| && !s.threads[t].Idle? && ThreadStep(s, s', t)
  }

  ghost predicate AllIdle<K(!new), V>(s: State<K, V>) {
    forall t: nat :: t < |s.threads| ==> s.threads[t].Idle?
  }

  ghost predicate QuietAt<K(!new), V(!new)>(run: seq<State<K, V>>, i: nat)
    requires i + 1 < |run|
  {
    !NewCall(run[i], run[i + 1])
  }

  lemma QuietStepDrops<K(!new), V(!new)>(run: seq<State<K, V>>, i: nat)
    requires Run(run) && i + 1 < |run| && QuietAt(run, i)
    ensures Measure(run[i + 1]) < Measure(run[i])
  {
    RunKeeps(run, i);
    RunStep(run, i);
    hide Inv;
    hide Measure;
    hide ThreadStep;
    hide Invoke;
    var t: nat :| t < |run[i].threads| && ThreadStep(run[i], run[i + 1], t);
    if run[i].threads[t].Idle? { FromIdle(run[i], run[i + 1], t); }
    StepDrops(run[i], run[i + 1], t);
  }

  /** Without new calls a run has a bounded number of steps left, whatever is interleaved with what. */
  lemma {:induction false} QuietIsBounded<K(!new), V(!new)>(run: seq<State<K, V>>, i: nat, j: nat)
    requires Run(run) && i <= j < |run| && forall k: nat :: i <= k < j ==> QuietAt(run, k)
    ensures (j - i) + Measure(run[j]) <= Measure(run[i])
    decreases j - i
  {
    hide Run;
    hide QuietAt;
    hide Measure;
    if i < j {
      QuietIsBounded(run, i, j - 1);
      QuietStepDrops(run, j - 1);
    }
  }

  /** A run in which no thread can go on has no call under way. */
  lemma QuietEndsIdle<K(!new), V(!new)>(run: seq<State<K, V>>, i: nat)
    requires Run(run) && i < |run|
    ensures AllIdle(run[i]) <==> !exists s' :: GoesOn(run[i], s')
  {
    hide Run;
    hide ThreadStep;
    if t: nat :| t < |run[i].threads| && !run[i].threads[t].Idle? {
      TableTheorems.NoDeadlock(run, i, t);
      var u: nat, s' :| u < |run[i].threads| && !run[i].threads[u].Idle? && ThreadStep(run[i], s', u);
      assert GoesOn(run[i], s');
    }
  }

  lemma GoesOnQuietly<K(!new), V(!new)>(s: State<K, V>, s': State<K, V>)
    requires GoesOn(s, s')
    ensures Next(s, s') && !NewCall(s, s')
  {
    hide ThreadStep;
    var t: nat :| t < |s.threads| && !s.threads[t].Idle? && ThreadStep(s, s', t);
    StepOthers(s, s', t);
    forall u: nat, op | u < |s.threads| ensures !Invoke(s, s', u, op) {
      assert u != t ==> s'.threads[u] == s.threads[u];
    }
  }

  lemma LongerRun<K(!new), V(!new)>(run: seq<State<K, V>>, s': State<K, V>)
    requires Run(run) && Next(run[|run| - 1], s')
    ensures Run(run + [s'])
  {
    hide Init;
    hide Next;
    var longer := run + [s'];
    forall i: nat | i + 1 < |longer| ensures StepAt(longer, i) {
      if i + 1 < |run| { assert StepAt(run, i); }
    }
  }

  /** Every run can be continued, without a new call and within that bound, until every call has returned. */
  lemma {:induction false} AllCallsReturn<K(!new), V(!new)>(run: seq<State<K, V>>) returns (more: seq<State<K, V>>)
    requires Run(run)
    ensures Run(run + more) && |more| <= Measure(run[|run| - 1])
    ensures AllIdle((run + more)[|run + more| - 1])
    ensures forall k: nat :: |run| <= k + 1 < |run + more| ==> QuietAt(run + more, k)
    decreases Measure(run[|run| - 1])
  {
    hide Measure;
    hide Init;
    hide StepAt;
    hide ThreadStep;
    hide Invoke;
    var s := run[|run| - 1];
    QuietEndsIdle(run, |run| - 1);
    if AllIdle(s) {
      more := [];
      assert run + more == run;
    } else {
      var s' :| GoesOn(s, s');
      GoesOnQuietly(s, s');
      LongerRun(run, s');
      var longer := run + [s'];
      assert QuietAt(longer, |run| - 1);
      QuietStepDrops(longer, |run| - 1);
      var rest := AllCallsReturn(longer);
      more := [s'] + rest;
      assert run + more == longer + rest;
      assert QuietAt(run + more, |run| - 1);
    }
  }
}
