/** For every table of two or more buckets, a run of two threads that no atomic Clear explains. */
module TableAtomicityWitness {
  import opened Options
  import opened Paths
  import opened TableMachine
  import opened TableAtomicity

  type S = State<nat, nat>

  const FIRST: Op<nat, nat> := Insert(0, 7)
  const SECOND: Op<nat, nat> := Insert(1, 8)

  /** n buckets, nothing in them, two idle threads. */
  ghost function Fresh(n: nat): S
    requires n > 0
  {
    State((k: nat) => k % n, map[], seq(n, _ => None), seq(n, _ => None), seq(n, _ => {}), [Idle, Idle],
          seq(n, _ => []), map[], [], [])
  }

  lemma FreshStarts(n: nat)
    requires n > 0
    ensures Init(Fresh(n)) && Shape(Fresh(n))
  {
    assert Hashes(Fresh(n), (k: nat) => k);
  }

  ghost predicate Reaches(s: S, s': S) {
    exists run: seq<S> :: Path(Next, run, s, s')
  }

  lemma Begin(s: S)
    ensures Reaches(s, s)
  {
    assert Path(Next, [s], s, s);
  }

  lemma Step(s0: S, s: S, s': S, t: nat)
    requires Reaches(s0, s) && Shape(s) && t < |s.threads| && ThreadStep(s, s', t)
    ensures Reaches(s0, s')
  {
    var run :| Path(Next, run, s0, s);
    var run' := Extend(Next, run, s0, s, s');
  }

  /** Two threads, nobody holds a lock. */
  ghost predicate Calm(s: S) {
    && Shape(s) && |s.threads| == 2
    && forall b: nat :: b < s.Size() ==> s.writer[b] == None && s.readers[b] == {}
  }

  // ---------------------------------------------------------------------------------------------
  // Thread 0 in Clear
  // ---------------------------------------------------------------------------------------------

  /** Thread 0 resets the head of its emptied bucket and unlocks it. */
  lemma Resets(s0: S, s: S, b: nat, at: seq<nat>, s': S)
    requires Reaches(s0, s) && Shape(s) && |s.threads| == 2 && b < s.Size() && s.threads[0] == Sweeping(0, b, None, at)
    requires s' == s.(threads := [NextBucket(0, b + 1, at), s.threads[1]], heads := s.heads[b := None],
                      writer := s.writer[b := None])
    ensures Reaches(s0, s')
  {
    var s1 := Goto(s, 0, Swept(0, b, at)).(heads := s.heads[b := None]);
    assert ClearReset(s, s1, 0);
    Step(s0, s, s1, 0);
    assert s1.threads[0 := NextBucket(0, b + 1, at)] == s'.threads;
    assert ClearRelease(s1, s', 0);
    Step(s0, s1, s', 0);
  }

  /** Thread 0 clears a bucket that is empty. */
  lemma ClearsEmpty(s0: S, s: S, b: nat, at: seq<nat>, s': S)
    requires Reaches(s0, s) && Calm(s) && s.threads[0] == NextBucket(0, b, at) && b < s.Size()
    requires s.heads[b] == None && s.spine[b] == [] && forall k :: k in s.abs ==> s.home(k) != b
    requires s' == s.(threads := [NextBucket(0, b + 1, at + [|s.log|]), s.threads[1]],
                      log := s.log + [Entry(0, Clear, b, Unit)])
    ensures Reaches(s0, s')
  {
    var marks := at + [|s.log|];
    var s1 := Goto(Take(s, 0, Clear, b), 0, Sweeping(0, b, None, marks)).(writer := s.writer[b := Some(0)]);
    assert ClearAcquire(s, s1, 0);
    Step(s0, s, s1, 0);
    assert s1.abs == s.abs && s1.threads[1] == s.threads[1];
    assert s.heads[b := None] == s.heads && s.writer[b := Some(0)][b := None] == s.writer;
    Resets(s0, s1, b, marks, s');
  }

  /** Thread 0 clears a bucket of one node. */
  lemma ClearsOne(s0: S, s: S, b: nat, a: Addr, at: seq<nat>, s': S)
    requires Reaches(s0, s) && Calm(s) && s.threads[0] == NextBucket(0, b, at) && b < s.Size()
    requires s.heads[b] == Some(a) && s.spine[b] == [a] && a in s.heap && s.heap[a].next == None
    requires s' == s.(threads := [NextBucket(0, b + 1, at + [|s.log|]), s.threads[1]],
                      log := s.log + [Entry(0, Clear, b, Unit)], heap := s.heap - {a}, heads := s.heads[b := None],
                      spine := s.spine[b := []], abs := Apply(s.home, s.abs, Clear, b).0)
    ensures Reaches(s0, s')
  {
    var marks := at + [|s.log|];
    var s1 := Goto(Take(s, 0, Clear, b), 0, Sweeping(0, b, Some(a), marks)).(writer := s.writer[b := Some(0)]);
    assert ClearAcquire(s, s1, 0);
    Step(s0, s, s1, 0);
    var s2 := Goto(s1, 0, Sweeping(0, b, None, marks)).(heap := s.heap - {a}, spine := s.spine[b := []]);
    assert Without([a], 0) == [];
    assert ClearFree(s1, s2, 0);
    Step(s0, s1, s2, 0);
    assert s2.threads[1] == s.threads[1] && s.writer[b := Some(0)][b := None] == s.writer;
    Resets(s0, s2, b, marks, s');
  }

  /** Buckets from b on are empty, also in the map. */
  ghost predicate EmptyFrom(s: S, b: nat)
    requires Shape(s)
  {
    && (forall c: nat :: b <= c < s.Size() ==> s.heads[c] == None && s.spine[c] == [])
    && (forall k :: k in s.abs ==> s.home(k) < b)
  }

  /** Thread 0 clears all buckets that are left, which are empty, and returns. */
  lemma {:induction false} ClearsRest(s0: S, s: S, b: nat, at: seq<nat>) returns (s': S)
    requires Reaches(s0, s) && Calm(s) && s.threads == [NextBucket(0, b, at), Idle] && b <= s.Size() && EmptyFrom(s, b)
    ensures Reaches(s0, s') && s'.Size() == s.Size() && s'.abs == s.abs
    ensures |s'.hist| == |s.hist| + 1 && s'.hist[..|s.hist|] == s.hist
    ensures s'.hist[|s.hist|].Returned? && s'.hist[|s.hist|].call == 0
    decreases s.Size() - b
  {
    if b < s.Size() {
      var s1 := s.(threads := [NextBucket(0, b + 1, at + [|s.log|]), s.threads[1]],
                   log := s.log + [Entry(0, Clear, b, Unit)]);
      ClearsEmpty(s0, s, b, at, s1);
      s' := ClearsRest(s0, s1, b + 1, at + [|s.log|]);
    } else {
      var s1 := Goto(s, 0, Returning(0, Clear, Unit, at));
      assert ClearDone(s, s1, 0);
      Step(s0, s, s1, 0);
      s' := Goto(s1, 0, Idle).(hist := s.hist + [Returned(0, Unit, at, |s.log|)]);
      assert Return(s1, s', 0);
      Step(s0, s1, s', 0);
    }
  }

  // ---------------------------------------------------------------------------------------------
  // Thread 1 in Insert
  // ---------------------------------------------------------------------------------------------

  /** Thread 1 calls Insert and locks an empty bucket. */
  lemma Enters(s0: S, s: S, op: Op<nat, nat>, b: nat, s2: S)
    requires Reaches(s0, s) && Calm(s) && s.threads[1] == Idle && b < s.Size() && op.Insert? && s.home(op.key) == b
    requires s.heads[b] == None
    requires s2 == s.(threads := s.threads[1 := Walking(|s.hist|, op, b, None, None, 0)],
                      writer := s.writer[b := Some(1)], hist := s.hist + [Invoked(1, op, |s.log|)])
    ensures Reaches(s0, s2)
  {
    var s1 := Goto(s, 1, Called(|s.hist|, op)).(hist := s.hist + [Invoked(1, op, |s.log|)]);
    assert Invoke(s, s1, 1, op);
    Step(s0, s, s1, 1);
    assert s1.threads[1 := Walking(|s.hist|, op, b, None, None, 0)] == s2.threads;
    assert AcquireExclusive(s1, s2, 1);
    Step(s0, s1, s2, 1);
  }

  /** Thread 1 inserts a key into an empty bucket. */
  lemma Inserts(s0: S, s: S, op: Op<nat, nat>, b: nat, a: Addr, s': S)
    requires Reaches(s0, s) && Calm(s) && s.threads[1] == Idle && b < s.Size() && op.Insert? && s.home(op.key) == b
    requires s.heads[b] == None && s.spine[b] == [] && a !in s.heap
    requires s' == s.(heap := s.heap[a := Node(op.key, op.val, None)], heads := s.heads[b := Some(a)],
                      spine := s.spine[b := [a]], abs := s.abs[op.key := op.val],
                      log := s.log + [Entry(|s.hist|, op, b, Unit)],
                      hist := s.hist + [Invoked(1, op, |s.log|), Returned(|s.hist|, Unit, [|s.log|], |s.log| + 1)])
    ensures Reaches(s0, s')
  {
    var c := |s.hist|;
    var s2 := s.(threads := s.threads[1 := Walking(c, op, b, None, None, 0)], writer := s.writer[b := Some(1)],
                 hist := s.hist + [Invoked(1, op, |s.log|)]);
    Enters(s0, s, op, b, s2);
    var s3 := Goto(Take(s2, c, op, b), 1, Leaving(c, op, b, Unit, [|s.log|]))
              .(spine := s2.spine[b := s2.spine[b] + [a]], heap := s2.heap[a := Node(op.key, op.val, None)],
                heads := s2.heads[b := Some(a)]);
    assert InsertNew(s2, s3, 1, a);
    Step(s0, s2, s3, 1);
    assert s.spine[b] + [a] == [a];
    assert s3.threads[1 := Idle] == s.threads && s3.writer[b := None] == s.writer;
    assert s3.hist + [Returned(c, Unit, [|s.log|], |s3.log|)] == s'.hist;
    hide InsertNew;
    Returns(s0, s3, c, op, b, [|s.log|], s');
  }

  /** Thread 1 releases its bucket and returns. */
  lemma Returns(s0: S, s3: S, c: nat, op: Op<nat, nat>, b: nat, at: seq<nat>, s': S)
    requires Reaches(s0, s3) && Shape(s3) && |s3.threads| == 2 && b < s3.Size() && op.Insert?
    requires s3.threads[1] == Leaving(c, op, b, Unit, at)
    requires s' == s3.(threads := s3.threads[1 := Idle], writer := s3.writer[b := None],
                       hist := s3.hist + [Returned(c, Unit, at, |s3.log|)])
    ensures Reaches(s0, s')
  {
    var s4 := Goto(s3, 1, Returning(c, op, Unit, at)).(writer := s3.writer[b := None]);
    assert Release(s3, s4, 1);
    Step(s0, s3, s4, 1);
    assert s4.threads[1 := Idle] == s3.threads[1 := Idle];
    assert Return(s4, s', 1);
    Step(s0, s4, s', 1);
  }

  // ---------------------------------------------------------------------------------------------
  // The run
  // ---------------------------------------------------------------------------------------------

  /** A Clear that contains two Inserts, the first of which returned before the second was made. */
  ghost predicate Nested(s: S) {
    && |s.hist| == 6
    && s.hist[0].Invoked? && s.hist[0].op == Clear
    && s.hist[1].Invoked? && s.hist[1].op == FIRST && s.hist[2].Returned? && s.hist[2].call == 1
    && s.hist[3].Invoked? && s.hist[3].op == SECOND && s.hist[4].Returned? && s.hist[4].call == 3
    && s.hist[5].Returned? && s.hist[5].call == 0
    && s.abs == map[0 := 7]
  }

  /** Thread 0 has cleared bucket 0. */
  lemma ClearsFirst(n: nat) returns (s: S)
    requires n >= 2
    ensures Reaches(Fresh(n), s) && Calm(s) && s.home == Fresh(n).home && s.Size() == n && EmptyFrom(s, 0)
    ensures s.threads == [NextBucket(0, 1, [0]), Idle] && s.heap == map[] && s.abs == map[]
    ensures s.log == [Entry(0, Clear, 0, Unit)] && s.hist == [Invoked(0, Clear, 0)]
  {
    var s0 := Fresh(n);
    FreshStarts(n);
    Begin(s0);
    var s1 := Goto(s0, 0, NextBucket(0, 0, [])).(hist := [] + [Invoked(0, Clear, 0)]);
    assert Invoke(s0, s1, 0, Clear);
    Step(s0, s0, s1, 0);
    s := s1.(threads := [NextBucket(0, 1, [] + [0]), Idle], log := [] + [Entry(0, Clear, 0, Unit)]);
    ClearsEmpty(s0, s1, 0, [], s);
    assert [] + [0] == [0];
  }

  /** Thread 1 has then inserted key 0 into bucket 0 and key 1 into bucket 1. */
  lemma InsertsTwo(n: nat, s: S) returns (s': S)
    requires n >= 2 && Reaches(Fresh(n), s) && Calm(s) && s.home == Fresh(n).home && s.Size() == n && EmptyFrom(s, 0)
    requires s.threads == [NextBucket(0, 1, [0]), Idle] && s.heap == map[] && s.abs == map[]
    requires s.log == [Entry(0, Clear, 0, Unit)] && s.hist == [Invoked(0, Clear, 0)]
    ensures Reaches(Fresh(n), s') && Calm(s') && s'.home == Fresh(n).home && s'.Size() == n && EmptyFrom(s', 2)
    ensures s'.threads == [NextBucket(0, 1, [0]), Idle] && s'.abs == map[0 := 7, 1 := 8]
    ensures s'.heads[1] == Some(11) && s'.spine[1] == [11] && 11 in s'.heap && s'.heap[11].next == None
    ensures s'.hist == [Invoked(0, Clear, 0), Invoked(1, FIRST, 1), Returned(1, Unit, [1], 2),
                        Invoked(1, SECOND, 2), Returned(3, Unit, [2], 3)]
  {
    assert s.home(0) == 0 && s.home(1) == 1;
    var s1 := s.(heap := s.heap[10 := Node(0, 7, None)], heads := s.heads[0 := Some(10)],
                 spine := s.spine[0 := [10]], abs := s.abs[0 := 7], log := s.log + [Entry(1, FIRST, 0, Unit)],
                 hist := s.hist + [Invoked(1, FIRST, 1), Returned(1, Unit, [1], 2)]);
    Inserts(Fresh(n), s, FIRST, 0, 10, s1);
    s' := s1.(heap := s1.heap[11 := Node(1, 8, None)], heads := s1.heads[1 := Some(11)],
              spine := s1.spine[1 := [11]], abs := s1.abs[1 := 8], log := s1.log + [Entry(3, SECOND, 1, Unit)],
              hist := s1.hist + [Invoked(1, SECOND, 2), Returned(3, Unit, [2], 3)]);
    Inserts(Fresh(n), s1, SECOND, 1, 11, s');
  }

  /** Thread 0 has then cleared the other buckets and returned. */
  lemma NestedRun(n: nat) returns (run: seq<S>)
    requires n >= 2
    ensures Run(run) && run[|run| - 1].Size() == n && Nested(run[|run| - 1])
  {
    var s0 := Fresh(n);
    var s1 := ClearsFirst(n);
    var s2 := InsertsTwo(n, s1);
    assert s2.home(0) == 0 && s2.home(1) == 1;
    var s3 := s2.(threads := [NextBucket(0, 2, [0] + [|s2.log|]), s2.threads[1]],
                  log := s2.log + [Entry(0, Clear, 1, Unit)], heap := s2.heap - {11}, heads := s2.heads[1 := None],
                  spine := s2.spine[1 := []], abs := Apply(s2.home, s2.abs, Clear, 1).0);
    ClearsOne(s0, s2, 1, 11, [0], s3);
    assert s3.abs == map[0 := 7];
    var s := ClearsRest(s0, s3, 2, [0] + [|s2.log|]);
    forall j: nat | j < 5 ensures s.hist[j] == s2.hist[j] { assert s.hist[..5][j] == s.hist[j]; }
    FreshStarts(n);
    run :| Path(Next, run, s0, s);
    forall i: nat | i + 1 < |run| ensures StepAt(run, i) { assert Steps(Next, run, i); }
  }

  // ---------------------------------------------------------------------------------------------
  // No explanation
  // ---------------------------------------------------------------------------------------------

  lemma HasCall(s: S, order: seq<nat>, j: nat) returns (x: nat)
    requires Explains(s, order) && j < |s.hist| && s.hist[j].Returned?
    ensures x < |order| && order[x] == s.hist[j].call
  {
    assert Answered(s.hist, order, j);
    x :| x < |order| && AnsweredAt(s.hist, order, j, x);
  }

  lemma ThreeCalls(s: S, order: seq<nat>)
    requires Nested(s) && Explains(s, order)
    ensures order in {[0, 1, 3], [1, 0, 3], [1, 3, 0]}
  {
    var x := HasCall(s, order, 2);
    var y := HasCall(s, order, 4);
    var z := HasCall(s, order, 5);
    hide Answered;
    hide Whole;
    forall i: nat | i < |order| ensures order[i] == 0 || order[i] == 1 || order[i] == 3 {
      assert s.hist[order[i]].Invoked?;
    }
    OnlyOrders(order, x, y, z);
  }

  lemma OnlyOrders(order: seq<nat>, x: nat, y: nat, z: nat)
    requires forall i: nat :: i < |order| ==> order[i] == 0 || order[i] == 1 || order[i] == 3
    requires forall i: nat, j: nat :: i < j < |order| ==> order[i] != order[j]
    requires x < |order| && y < |order| && z < |order| && order[x] == 1 && order[y] == 3 && order[z] == 0 && x <= y
    ensures order in {[0, 1, 3], [1, 0, 3], [1, 3, 0]}
  {
    Differ(order, 0, 1);
    Differ(order, 0, 2);
    Differ(order, 0, 3);
    Differ(order, 1, 2);
    Differ(order, 1, 3);
    Differ(order, 2, 3);
    assert |order| == 3;
    assert order == [order[0], order[1], order[2]];
  }

  lemma Differ(order: seq<nat>, i: nat, j: nat)
    requires forall i: nat, j: nat :: i < j < |order| ==> order[i] != order[j]
    ensures i < j < |order| ==> order[i] != order[j]
  {
  }

  /** Wherever the Clear is put, the map comes out different. */
  lemma NoExplanation(s: S)
    requires Nested(s)
    ensures !Atomic(s)
  {
    forall order ensures !Explains(s, order) {
      if Explains(s, order) {
        ThreeCalls(s, order);
        WholeOfThree(s, order);
      }
    }
  }

  lemma WholeOfThree(s: S, order: seq<nat>)
    requires Nested(s) && Made(s.hist, order) && order in {[0, 1, 3], [1, 0, 3], [1, 3, 0]}
    ensures Whole(s.hist, order) != s.abs
  {
    assert order[..2][..1] == order[..1] && order[..1][..0] == [];
    assert Whole(s.hist, order[..1]) == WholeApply(map[], s.hist[order[0]].op).0;
    assert Whole(s.hist, order[..2]) == WholeApply(Whole(s.hist, order[..1]), s.hist[order[1]].op).0;
    assert Whole(s.hist, order) == WholeApply(Whole(s.hist, order[..2]), s.hist[order[2]].op).0;
    assert order[2] == 3 ==> 1 in Whole(s.hist, order);
    assert order[2] == 0 ==> 0 !in Whole(s.hist, order);
  }

  /** In every table of two or more buckets some run ends in a state that no order of atomic calls explains. */
  lemma ClearIsNotAtomic(n: nat) returns (run: seq<S>)
    requires n >= 2
    ensures Run(run) && run[|run| - 1].Size() == n
    ensures Nested(run[|run| - 1]) && !Atomic(run[|run| - 1])
  {
    run := NestedRun(n);
    NoExplanation(run[|run| - 1]);
  }

  /** A table has a run that atomic Clears do not explain exactly when it has more than one bucket. */
  lemma AtomicExactly(n: nat)
    requires n > 0
    ensures (forall run: seq<S>, i: nat :: Run(run) && i < |run| && run[i].Size() == n ==> Atomic(run[i])) <==> n == 1
  {
    if n == 1 {
      forall run: seq<S>, i: nat | Run(run) && i < |run| && run[i].Size() == n ensures Atomic(run[i]) {
        OneBucketIsAtomic(run, i);
      }
    } else {
      var run := ClearIsNotAtomic(n);
    }
  }
}
