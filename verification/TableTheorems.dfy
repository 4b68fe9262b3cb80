/**
 What the table promises over all runs: safety of memory and locks, refinement of an atomic map,
 linearizability and freedom from deadlock.  Clear, which is not one atomic step, is the subject of TableClear.
 */
module TableTheorems {
  import opened Options
  import opened TableMachine
  import opened TableInvariant
  import opened TableHistory

  // ---------------------------------------------------------------------------------------------
  // Memory and locks
  // ---------------------------------------------------------------------------------------------

  /** No thread ever holds a deleted address that it may still follow. */
  lemma NoDanglingPointer<K(!new), V(!new)>(run: seq<State<K, V>>, i: nat, t: nat)
    requires Run(run) && i < |run| && t < |run[i].threads|
    ensures var s, p := run[i], run[i].threads[t];
            && (p.Walking? ==> (p.node.Some? ==> p.node.value in s.heap) && (p.prev.Some? ==> p.prev.value in s.heap))
            && (p.Sweeping? && p.node.Some? ==> p.node.value in s.heap)
            && (p.Deleting? ==> p.victim in s.heap)
  {
    RunKeeps(run, i);
    var s, p := run[i], run[i].threads[t];
    assert PhaseOk(s, p);
    if p.Walking? {
      WalkerBucket(s, t);
    } else if p.Sweeping? {
      assert Writes(p, p.bucket);
      assert BucketOk(s, p.bucket);
    }
  }

  /** Outside a Clear of the bucket, the list from its head is finite, allocated and visits no node twice. */
  lemma ListsLive<K(!new), V(!new)>(run: seq<State<K, V>>, i: nat, b: nat)
    requires Run(run) && i < |run| && b < run[i].Size()
    ensures Shape(run[i])
    ensures var s := run[i];
            UnderSweep(s, b) ||
            (&& Linked(s.heap, s.heads[b], s.spine[b])
             && forall j: nat, k: nat :: j < k < |s.spine[b]| ==> s.spine[b][j] != s.spine[b][k])
  {
    RunKeeps(run, i);
    var s := run[i];
    assert BucketOk(s, b);
    forall j: nat, k: nat | j < k < |s.spine[b]| ensures s.spine[b][j] != s.spine[b][k] {
      DistinctNodes(s.home, b, s.heap, Start(s, b), s.spine[b], j, k);
    }
  }

  /** A bucket with a writer has no other holder. */
  lemma WritersExclude<K(!new), V(!new)>(run: seq<State<K, V>>, i: nat, t: nat, u: nat, b: nat)
    requires Run(run) && i < |run| && t < |run[i].threads| && u < |run[i].threads| && b < run[i].Size()
    requires Writes(run[i].threads[t], b) && (Writes(run[i].threads[u], b) || Reads(run[i].threads[u], b))
    ensures t == u
  {
    RunKeeps(run, i);
    assert run[i].writer[b] == Some(t);
  }

  /** Every allocated node is reachable from a head, still to be freed by a Clear, or about to be deleted. */
  lemma NothingLeaks<K(!new), V(!new)>(run: seq<State<K, V>>, i: nat, a: Addr)
    requires Run(run) && i < |run| && a in run[i].heap
    ensures Shape(run[i])
    ensures var b := run[i].home(run[i].heap[a].key);
            OnList(run[i], b, a) || Doomed(run[i], b, a)
  {
    RunKeeps(run, i);
  }

  // ---------------------------------------------------------------------------------------------
  // Refinement of the atomic map
  // ---------------------------------------------------------------------------------------------

  /** The list of a bucket that is not being swept is exactly that bucket's part of the atomic map. */
  lemma ListsAreTheMap<K(!new), V(!new)>(run: seq<State<K, V>>, i: nat, b: nat, k: K, v: V)
    requires Run(run) && i < |run| && b < run[i].Size() && run[i].home(k) == b
    requires Shape(run[i]) && !UnderSweep(run[i], b)
    ensures var s := run[i];
            (k in s.abs && s.abs[k] == v) <==>
            exists j: nat :: j < |s.spine[b]| && s.spine[b][j] in s.heap &&
                             s.heap[s.spine[b][j]].key == k && s.heap[s.spine[b][j]].value == v
  {
    RunKeeps(run, i);
    var s := run[i];
    assert BucketOk(s, b);
    if k in s.abs && s.abs[k] == v {
      var j: nat :| j < |s.spine[b]| && s.heap[s.spine[b][j]].key == k;
      assert s.heap[s.spine[b][j]].value == v;
    }
  }

  /** A step either leaves the map alone or is one atomic effect, by a thread that holds the bucket's lock. */
  ghost predicate StepRefines<K(!new), V>(s: State<K, V>, s': State<K, V>)
    requires Shape(s) && Shape(s') && s'.home == s.home
  {
    || (s'.log == s.log && s'.abs == s.abs)
    || exists t: nat :: EffectBy(s, s', t)
  }

  ghost predicate EffectBy<K(!new), V>(s: State<K, V>, s': State<K, V>, t: nat)
    requires Shape(s)
  {
    && t < |s'.threads|
    && |s'.log| == |s.log| + 1 && s'.log[..|s.log|] == s.log
    && var e := s'.log[|s.log|];
    && (s'.abs, e.res) == Apply(s.home, s.abs, e.op, e.bucket)
    && (Reads(s'.threads[t], e.bucket) || Writes(s'.threads[t], e.bucket))
    && !s'.threads[t].Idle? && s'.threads[t].call == e.call
  }

  lemma MutationRefines<K(!new), V(!new)>(s: State<K, V>, s': State<K, V>, t: nat)
    requires Shape(s) && t < |s.threads|
    requires InsertUpdate(s, s', t) || EraseMiss(s, s', t) || EraseUnlink(s, s', t) || ClearAcquire(s, s', t)
             || exists a :: InsertNew(s, s', t, a)
    ensures s'.home == s.home && EffectBy(s, s', t)
  {
  }

  lemma FindRefines<K(!new), V(!new)>(s: State<K, V>, s': State<K, V>, t: nat)
    requires Inv(s) && t < |s.threads| && FindStop(s, s', t)
    ensures s'.home == s.home && EffectBy(s, s', t)
  {
    if s.threads[t].node.Some? { KeyPresent(s, t); } else { KeyMissing(s, t); }
  }

  /** The steps that have no effect. */
  ghost predicate EffectlessStep<K(!new), V(!new)>(s: State<K, V>, s': State<K, V>, t: nat)
    requires Shape(s) && t < |s.threads|
  {
    || (exists op :: Invoke(s, s', t, op))
    || AcquireShared(s, s', t) || AcquireExclusive(s, s', t) || Advance(s, s', t) || EraseDelete(s, s', t)
    || Release(s, s', t) || Return(s, s', t)
    || ClearFree(s, s', t) || ClearReset(s, s', t) || ClearRelease(s, s', t) || ClearDone(s, s', t)
  }

  lemma EffectlessRefines<K(!new), V(!new)>(s: State<K, V>, s': State<K, V>, t: nat)
    requires Shape(s) && t < |s.threads| && EffectlessStep(s, s', t)
    ensures s'.home == s.home && s'.log == s.log && s'.abs == s.abs
  {
  }

  lemma OneStepRefines<K(!new), V(!new)>(s: State<K, V>, s': State<K, V>, t: nat)
    requires Inv(s) && t < |s.threads| && ThreadStep(s, s', t)
    ensures s'.home == s.home
    ensures (s'.log == s.log && s'.abs == s.abs) || EffectBy(s, s', t)
  {
    hide InsertUpdate;
    hide InsertNew;
    hide EraseMiss;
    hide EraseUnlink;
    hide ClearAcquire;
    hide FindStop;
    hide EffectBy;
    if InsertUpdate(s, s', t) || EraseMiss(s, s', t) || EraseUnlink(s, s', t) || ClearAcquire(s, s', t)
       || exists a :: InsertNew(s, s', t, a) {
      MutationRefines(s, s', t);
    } else if FindStop(s, s', t) {
      FindRefines(s, s', t);
    } else {
      EffectlessRefines(s, s', t);
    }
  }

  lemma NextRefines<K(!new), V(!new)>(s: State<K, V>, s': State<K, V>)
    requires Inv(s) && Next(s, s') && Shape(s')
    ensures s'.home == s.home
    ensures StepRefines(s, s')
  {
    var t: nat :| t < |s.threads| && ThreadStep(s, s', t);
    OneStepRefines(s, s', t);
  }

  /** Every step of every run refines a step of the atomic map. */
  lemma StepsRefine<K(!new), V(!new)>(run: seq<State<K, V>>, i: nat)
    requires Run(run) && i + 1 < |run|
    ensures Shape(run[i]) && Shape(run[i + 1]) && run[i + 1].home == run[i].home
    ensures StepRefines(run[i], run[i + 1])
  {
    var s, s' := run[i], run[i + 1];
    assert Inv(s) && Shape(s') by {
      RunKeeps(run, i);
      RunKeeps(run, i + 1);
    }
    assert s'.home == s.home && StepRefines(s, s') by {
      RunStep(run, i);
      NextRefines(s, s');
    }
  }

  // ---------------------------------------------------------------------------------------------
  // Linearizability
  // ---------------------------------------------------------------------------------------------

  /** The order of effects is a legal sequential history that ends in the present map. */
  lemma EffectsAreSequential<K(!new), V(!new)>(run: seq<State<K, V>>, i: nat)
    requires Run(run) && i < |run|
    ensures Legal(run[i].home, run[i].log)
    ensures run[i].abs == Replay(run[i].home, run[i].log)
  {
    RunHist(run, i);
  }

  /** A Find, Insert or Erase that has returned took effect exactly once, between its invocation and its
      return, and returned what the atomic map answered there. */
  lemma CallsTakeEffectOnce<K(!new), V(!new)>(run: seq<State<K, V>>, i: nat, j: nat)
    requires Run(run) && i < |run| && j < |run[i].hist| && run[i].hist[j].Returned?
    ensures var s, r := run[i], run[i].hist[j];
            && r.call < j && s.hist[r.call].Invoked?
            && (!s.hist[r.call].op.Clear? ==>
                  exists p: nat ::
                    && p < |s.log| && s.hist[r.call].stamp <= p < r.stamp
                    && s.log[p] == Entry(r.call, s.hist[r.call].op, s.home(s.hist[r.call].op.key), r.res)
                    && forall q: nat :: q < |s.log| && s.log[q].call == r.call ==> q == p)
  {
    RunHist(run, i);
    var s, r := run[i], run[i].hist[j];
    assert ReturnOk(s, j);
    if !s.hist[r.call].op.Clear? {
      var p := r.at[0];
      assert EntryOk(s, p);
      assert s.log[p] == Entry(r.call, s.hist[r.call].op, s.home(s.hist[r.call].op.key), r.res);
      assert forall q: nat :: q < |s.log| && s.log[q].call == r.call ==> q == p;
    }
  }

  /** If one call returned before another was invoked, its effects come first. */
  lemma RealTimeOrder<K(!new), V(!new)>(run: seq<State<K, V>>, i: nat, j: nat, k: nat, p: nat, q: nat)
    requires Run(run) && i < |run| && j < k < |run[i].hist|
    requires run[i].hist[j].Returned? && run[i].hist[k].Invoked?
    requires p < |run[i].log| && run[i].log[p].call == run[i].hist[j].call
    requires q < |run[i].log| && run[i].log[q].call == k
    ensures p < q
  {
    RunHist(run, i);
    var s := run[i];
    assert ReturnOk(s, j);
    assert EntryOk(s, q);
    assert s.hist[j].at[Rank(s.log[p])] == p;
  }

  /** Nothing is recorded for a call that was never made, or under another operation. */
  lemma EffectsBelongToCalls<K(!new), V(!new)>(run: seq<State<K, V>>, i: nat, p: nat)
    requires Run(run) && i < |run| && p < |run[i].log|
    ensures var s, e := run[i], run[i].log[p];
            e.call < |s.hist| && s.hist[e.call].Invoked? && s.hist[e.call].op == e.op && s.hist[e.call].stamp <= p
  {
    RunHist(run, i);
    assert EntryOk(run[i], p);
  }

  /** The effects of a call come in the order of their ranks, and none is skipped. */
  ghost predicate Ranked<K, V>(log: seq<Entry<K, V>>) {
    && (forall p: nat, q: nat {:trigger InOrder(log, p, q)} :: p < q < |log| ==> InOrder(log, p, q))
    && (forall q: nat {:trigger Preceded(log, q)} :: q < |log| && Rank(log[q]) > 0 ==> Preceded(log, q))
  }

  ghost predicate InOrder<K, V>(log: seq<Entry<K, V>>, p: nat, q: nat)
    requires p < q < |log|
  {
    log[p].call == log[q].call ==> Rank(log[p]) < Rank(log[q])
  }

  ghost predicate Preceded<K, V>(log: seq<Entry<K, V>>, q: nat)
    requires q < |log|
  {
    exists p: nat :: p < q && log[p].call == log[q].call && Rank(log[p]) == Rank(log[q]) - 1
  }

  lemma RanksRise<K, V>(log: seq<Entry<K, V>>, p: nat, q: nat)
    requires Ranked(log) && p < |log| && q < |log|
    ensures log[p].call == log[q].call && p < q ==> Rank(log[p]) < Rank(log[q])
  {
    if p < q { assert InOrder(log, p, q); }
  }

  lemma RankedAppend<K, V>(log: seq<Entry<K, V>>, e: Entry<K, V>, op: Op<K, V>, at: seq<nat>)
    requires Ranked(log) && Marked(log + [e], e.call, op, at)
    ensures Ranked(log + [e])
  {
    var n, log' := |log|, log + [e];
    assert log'[n] == e && at[Rank(e)] == n;
    forall p: nat, q: nat | p < q < |log'| ensures InOrder(log', p, q) {
      if q < n {
        assert log'[p] == log[p] && log'[q] == log[q] && InOrder(log, p, q);
      } else if log'[p].call == e.call {
        assert at[Rank(log'[p])] == p;
      }
    }
    forall q: nat | q < |log'| && Rank(log'[q]) > 0
      ensures Preceded(log', q)
    {
      if q < n {
        assert log'[q] == log[q] && Preceded(log, q);
        var p: nat :| p < q && log[p].call == log[q].call && Rank(log[p]) == Rank(log[q]) - 1;
        assert log'[p] == log[p];
      } else {
        var p := at[Rank(e) - 1];
        assert p < q && log'[p].call == e.call && Rank(log'[p]) == Rank(e) - 1;
      }
    }
  }

  lemma RankedOne<K(!new), V(!new)>(s: State<K, V>, s': State<K, V>, t: nat)
    requires Shape(s) && Ranked(s.log) && EffectBy(s, s', t) && t < |s'.threads| && HistInv(s')
    ensures Ranked(s'.log)
  {
    var e, p := s'.log[|s.log|], s'.threads[t];
    assert CallOk(s', t);
    assert s'.log == s.log + [e];
    RankedAppend(s.log, e, OpOf(p), MarksOf(p));
  }

  lemma StepRanked<K(!new), V(!new)>(s: State<K, V>, s': State<K, V>)
    requires Shape(s) && Shape(s') && Ranked(s.log) && s'.home == s.home && StepRefines(s, s') && HistInv(s')
    ensures Ranked(s'.log)
  {
    hide HistInv;
    hide EffectBy;
    if !(s'.log == s.log && s'.abs == s.abs) {
      var t: nat :| EffectBy(s, s', t);
      EffectThread(s, s', t);
      RankedOne(s, s', t);
    }
  }

  lemma EffectThread<K(!new), V>(s: State<K, V>, s': State<K, V>, t: nat)
    requires Shape(s) && EffectBy(s, s', t)
    ensures t < |s'.threads|
  {
  }

  lemma {:induction false} RunRanked<K(!new), V(!new)>(run: seq<State<K, V>>, i: nat)
    requires Run(run) && i < |run|
    ensures Ranked(run[i].log)
  {
    hide Ranked;
    hide HistInv;
    if i == 0 {
      StartRanked(run);
    } else {
      RunRanked(run, i - 1);
      StepsRefine(run, i - 1);
      RunHist(run, i);
      hide StepRefines;
      StepRanked(run[i - 1], run[i]);
    }
  }

  lemma StartRanked<K(!new), V(!new)>(run: seq<State<K, V>>)
    requires Run(run)
    ensures Ranked(run[0].log)
  {
    assert run[0].log == [];
  }

  /** A call, returned or not, has at most one effect; a Clear at most one on each bucket. */
  lemma OneEffectPerCall<K(!new), V(!new)>(run: seq<State<K, V>>, i: nat, p: nat, q: nat)
    requires Run(run) && i < |run| && p < |run[i].log| && q < |run[i].log| && run[i].log[p].call == run[i].log[q].call
    requires run[i].log[p].op.Clear? ==> run[i].log[p].bucket == run[i].log[q].bucket
    ensures p == q
  {
    RunRanked(run, i);
    RunHist(run, i);
    assert EntryOk(run[i], p) && EntryOk(run[i], q);
    RanksRise(run[i].log, p, q);
    RanksRise(run[i].log, q, p);
  }

  // ---------------------------------------------------------------------------------------------
  // Progress
  // ---------------------------------------------------------------------------------------------

  /** Inside a call, only waiting for a lock can keep a thread from stepping: the guards about allocated
      addresses in the steps never hold a thread back. */
  lemma NeverStuck<K(!new), V(!new)>(run: seq<State<K, V>>, i: nat, t: nat)
    requires Run(run) && i < |run| && t < |run[i].threads|
    requires var p := run[i].threads[t]; !p.Called? && !p.NextBucket? && !p.Idle?
    ensures Shape(run[i]) && exists s' :: ThreadStep(run[i], s', t)
  {
    RunKeeps(run, i);
    CanStep(run[i], t);
  }

  lemma CanStep<K(!new), V(!new)>(s: State<K, V>, t: nat)
    requires Inv(s) && t < |s.threads|
    requires var p := s.threads[t]; !p.Called? && !p.NextBucket? && !p.Idle?
    ensures exists s' :: ThreadStep(s, s', t)
  {
    var p := s.threads[t];
    assert PhaseOk(s, p);
    match p
    case Walking(_, _, _, _, _, _) =>
      WalkerCanStep(s, t);
    case Deleting(_, _, _, _, _) =>
      var s' := Goto(s, t, Leaving(p.call, p.op, p.bucket, Unit, p.at)).(heap := s.heap - {p.victim});
      assert EraseDelete(s, s', t);
      assert ThreadStep(s, s', t);
    case Leaving(_, _, _, _, _) =>
      var moved := Goto(s, t, Returning(p.call, p.op, p.res, p.at));
      var s' := if p.op.Find? then moved.(readers := s.readers[p.bucket := s.readers[p.bucket] - {t}])
                        else moved.(writer := s.writer[p.bucket := None]);
      assert Release(s, s', t);
      assert ThreadStep(s, s', t);
    case Returning(_, _, _, _) =>
      var s' := Goto(s, t, Idle).(hist := s.hist + [Returned(p.call, p.res, p.at, |s.log|)]);
      assert Return(s, s', t);
      assert ThreadStep(s, s', t);
    case Sweeping(_, b, node, _) =>
      assert Writes(p, b);
      assert BucketOk(s, b);
      if node == None {
        var s' := Goto(s, t, Swept(p.call, b, p.at)).(heads := s.heads[b := None]);
        assert ClearReset(s, s', t);
        assert ThreadStep(s, s', t);
      } else {
        var s' := Goto(s, t, Sweeping(p.call, b, s.heap[node.value].next, p.at))
                            .(heap := s.heap - {node.value}, spine := s.spine[b := Without(s.spine[b], 0)]);
        assert ClearFree(s, s', t);
        assert ThreadStep(s, s', t);
      }
    case Swept(_, _, _) =>
      var s' := Goto(s, t, NextBucket(p.call, p.bucket + 1, p.at)).(writer := s.writer[p.bucket := None]);
      assert ClearRelease(s, s', t);
      assert ThreadStep(s, s', t);
  }

  lemma WalkerCanStep<K(!new), V(!new)>(s: State<K, V>, t: nat)
    requires Inv(s) && t < |s.threads| && s.threads[t].Walking?
    ensures exists s' :: ThreadStep(s, s', t)
  {
    var p := s.threads[t];
    var b := p.bucket;
    WalkerBucket(s, t);
    var leave := (res: Res<V>) => Leaving(p.call, p.op, b, res, [|s.log|]);
    if p.node.Some? && s.heap[p.node.value].key != p.op.key {
      var s' := Goto(s, t, Walking(p.call, p.op, b, p.node, s.heap[p.node.value].next, p.pos + 1));
      assert Advance(s, s', t);
      assert ThreadStep(s, s', t);
    } else if p.op.Find? {
      var res := if p.node.Some? then Found(s.heap[p.node.value].value) else Absent;
      var s' := Goto(Take(s, p.call, p.op, b), t, leave(res));
      assert FindStop(s, s', t);
      assert ThreadStep(s, s', t);
    } else if p.op.Insert? && p.node.Some? {
      var s' := Goto(Take(s, p.call, p.op, b), t, leave(Unit))
                             .(heap := s.heap[p.node.value := s.heap[p.node.value].(value := p.op.val)]);
      assert InsertUpdate(s, s', t);
      assert ThreadStep(s, s', t);
    } else if p.op.Insert? {
      InserterCanStep(s, t);
    } else if p.node == None {
      var s' := Goto(Take(s, p.call, p.op, b), t, leave(Unit));
      assert EraseMiss(s, s', t);
      assert ThreadStep(s, s', t);
    } else {
      var next := s.heap[p.node.value].next;
      var moved := Goto(Take(s, p.call, p.op, b), t, Deleting(p.call, p.op, b, p.node.value, [|s.log|]))
                   .(spine := s.spine[b := Without(s.spine[b], p.pos)]);
      var s' := if s.heads[b] == p.node then moved.(heads := s.heads[b := next])
                            else moved.(heap := s.heap[p.prev.value := s.heap[p.prev.value].(next := next)]);
      assert EraseUnlink(s, s', t);
      assert ThreadStep(s, s', t);
    }
  }

  /** There is always an address to allocate. */
  lemma FreshAddress<T>(heap: map<Addr, T>) returns (a: Addr)
    ensures a !in heap
  {
    var addrs := heap.Keys;
    a := 0;
    while a in addrs
      invariant forall x :: x in heap.Keys && x !in addrs ==> x < a
      invariant forall x :: x in addrs ==> x in heap.Keys
      decreases addrs
    {
      addrs := addrs - {a};
      a := a + 1;
    }
  }

  lemma InserterCanStep<K(!new), V(!new)>(s: State<K, V>, t: nat)
    requires Inv(s) && t < |s.threads| && s.threads[t].Walking? && s.threads[t].op.Insert? && s.threads[t].node == None
    ensures exists s' :: ThreadStep(s, s', t)
  {
    var p := s.threads[t];
    var b := p.bucket;
    WalkerBucket(s, t);
    var a := FreshAddress(s.heap);
    var node := Node(p.op.key, p.op.val, None);
    var moved := Goto(Take(s, p.call, p.op, b), t, Leaving(p.call, p.op, b, Unit, [|s.log|]))
                 .(spine := s.spine[b := s.spine[b] + [a]]);
    assert s.heads[b] == None <==> s.spine[b] == [];
    var s' := if s.heads[b] == None then moved.(heap := s.heap[a := node], heads := s.heads[b := Some(a)])
                        else moved.(heap := s.heap[a := node][p.prev.value := s.heap[p.prev.value].(next := Some(a))]);
    assert InsertNew(s, s', t, a);
    assert ThreadStep(s, s', t);
  }

  /** A thread that cannot step is waiting for a lock whose holder can: the table never deadlocks. */
  lemma NoDeadlock<K(!new), V(!new)>(run: seq<State<K, V>>, i: nat, t: nat)
    requires Run(run) && i < |run| && t < |run[i].threads| && !run[i].threads[t].Idle?
    ensures Shape(run[i])
    ensures exists u: nat, s' :: u < |run[i].threads| && !run[i].threads[u].Idle? && ThreadStep(run[i], s', u)
  {
    RunHist(run, i);
    var s, p := run[i], run[i].threads[t];
    assert PhaseOk(s, p) && CallOk(s, t);
    if p.Called? || (p.NextBucket? && p.bucket < s.Size()) {
      var b := if p.Called? then s.home(p.op.key) else p.bucket;
      if s.writer[b].Some? {
        assert Writes(s.threads[s.writer[b].value], b);
        CanStep(s, s.writer[b].value);
      } else if s.readers[b] != {} && (p.NextBucket? || !p.op.Find?) {
        ReaderCanStep(s, b);
      } else {
        WaiterCanStep(s, t, b);
      }
    } else if p.NextBucket? {
      var s' := Goto(s, t, Returning(p.call, Clear, Unit, p.at));
      assert ClearDone(s, s', t);
      assert ThreadStep(s, s', t);
    } else {
      CanStep(s, t);
    }
  }

  lemma ReaderCanStep<K(!new), V(!new)>(s: State<K, V>, b: nat)
    requires Inv(s) && b < s.Size() && s.readers[b] != {}
    ensures exists u: nat, s' :: u < |s.threads| && !s.threads[u].Idle? && ThreadStep(s, s', u)
  {
    var u :| u in s.readers[b];
    assert Reads(s.threads[u], b);
    CanStep(s, u);
  }

  lemma WaiterCanStep<K(!new), V(!new)>(s: State<K, V>, t: nat, b: nat)
    requires Inv(s) && t < |s.threads| && b < s.Size() && s.writer[b] == None
    requires var p := s.threads[t];
             || (p.Called? && s.home(p.op.key) == b && !p.op.Clear? && (p.op.Find? || s.readers[b] == {}))
             || (p.NextBucket? && p.bucket == b && s.readers[b] == {})
    ensures exists s' :: ThreadStep(s, s', t)
  {
    var p := s.threads[t];
    if p.NextBucket? {
      var s' := Goto(Take(s, p.call, Clear, b), t, Sweeping(p.call, b, s.heads[b], p.at + [|s.log|]))
                             .(writer := s.writer[b := Some(t)]);
      assert ClearAcquire(s, s', t);
      assert ThreadStep(s, s', t);
    } else if p.op.Find? {
      var s' := Goto(s, t, Walking(p.call, p.op, b, None, s.heads[b], 0))
                              .(readers := s.readers[b := s.readers[b] + {t}]);
      assert AcquireShared(s, s', t);
      assert ThreadStep(s, s', t);
    } else {
      var s' := Goto(s, t, Walking(p.call, p.op, b, None, s.heads[b], 0))
                                 .(writer := s.writer[b := Some(t)]);
      assert AcquireExclusive(s, s', t);
      assert ThreadStep(s, s', t);
    }
  }

  /** Nobody holds the bucket in a way that keeps this thread out: readers keep only writers out. */
  ghost predicate Admits<K(!new), V>(s: State<K, V>, b: nat, asReader: bool) {
    forall u: nat {:trigger s.threads[u]} :: u < |s.threads| ==>
      !Writes(s.threads[u], b) && (Reads(s.threads[u], b) ==> asReader)
  }

  lemma AdmitsExactly<K(!new), V>(s: State<K, V>, b: nat, asReader: bool)
    requires Inv(s) && b < s.Size()
    ensures Admits(s, b, asReader) <==> s.writer[b] == None && (asReader || s.readers[b] == {})
  {
    hide BucketOk;
    hide PhaseOk;
    hide NoLeak;
    if s.writer[b].Some? { assert Writes(s.threads[s.writer[b].value], b); }
    if u :| u in s.readers[b] { assert Reads(s.threads[u], b); }
    forall u: nat | u < |s.threads|
      ensures Writes(s.threads[u], b) ==> s.writer[b] == Some(u)
      ensures Reads(s.threads[u], b) ==> u in s.readers[b]
    {
    }
  }

  /** A waiting Find takes its lock whenever no writer is in the bucket, however many readers are; any other call when
      nobody is. */
  lemma LockGrantedExactly<K(!new), V(!new)>(run: seq<State<K, V>>, i: nat, t: nat, b: nat)
    requires Run(run) && i < |run| && t < |run[i].threads| && b < run[i].Size()
    requires var p := run[i].threads[t];
             (p.Called? && !p.op.Clear? && run[i].home(p.op.key) == b) || (p.NextBucket? && p.bucket == b)
    ensures Shape(run[i])
    ensures var p := run[i].threads[t];
            (exists s' :: ThreadStep(run[i], s', t)) <==> Admits(run[i], b, p.Called? && p.op.Find?)
  {
    RunKeeps(run, i);
    var s, p := run[i], run[i].threads[t];
    hide Run;
    hide Inv;
    hide Admits;
    AdmitsExactly(s, b, p.Called? && p.op.Find?);
    if Admits(s, b, p.Called? && p.op.Find?) { WaiterCanStep(s, t, b); }
    if s' :| ThreadStep(s, s', t) { WaiterStepped(s, s', t, b); }
  }

  lemma WaiterStepped<K(!new), V(!new)>(s: State<K, V>, s': State<K, V>, t: nat, b: nat)
    requires Shape(s) && t < |s.threads| && b < s.Size() && ThreadStep(s, s', t)
    requires var p := s.threads[t];
             (p.Called? && !p.op.Clear? && s.home(p.op.key) == b) || (p.NextBucket? && p.bucket == b)
    ensures s.writer[b] == None && ((s.threads[t].Called? && s.threads[t].op.Find?) || s.readers[b] == {})
  {
  }
}
