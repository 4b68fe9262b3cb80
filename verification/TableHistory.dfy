/**
 Linearizability of the table: in every run each call takes effect inside its critical section, the recorded
 order of effects is a legal sequential history of the atomic map, and it respects the order in which calls
 return and begin.
 */
module TableHistory {
  import opened TableMachine
  import opened TableInvariant

  ghost function OpOf<K, V>(p: Phase<K, V>): Op<K, V> {
    if p.Called? || p.Walking? || p.Deleting? || p.Leaving? || p.Returning? then p.op else Clear
  }

  /** The log positions of the effects the call has had so far. */
  ghost function MarksOf<K, V>(p: Phase<K, V>): seq<nat> {
    if p.Idle? || p.Called? || p.Walking? then [] else p.at
  }

  /** Which effect of its call an entry is: Clear has one per bucket, every other call has one. */
  ghost function Rank<K, V>(e: Entry<K, V>): nat {
    if e.op.Clear? then e.bucket else 0
  }

  /** `at` lists, in order, exactly the log positions that belong to call c. */
  ghost predicate Marked<K, V>(log: seq<Entry<K, V>>, c: nat, op: Op<K, V>, at: seq<nat>) {
    && (forall i: nat :: i < |at| ==>
          at[i] < |log| && log[at[i]].call == c && log[at[i]].op == op && Rank(log[at[i]]) == i)
    && (forall q: nat :: q < |log| && log[q].call == c ==> Rank(log[q]) < |at| && at[Rank(log[q])] == q)
    && (forall i: nat, j: nat :: i < j < |at| ==> at[i] < at[j])
  }

  /** How many effects a call in this phase has had, and that its answer is the recorded one. */
  ghost predicate Progress<K(!new), V>(s: State<K, V>, p: Phase<K, V>) {
    match p
    case Called(_, op) => !op.Clear?
    case Walking(_, op, b, _, _, _) => !op.Clear? && b == s.home(op.key)
    case Deleting(_, op, _, _, at) => op.Erase? && |at| == 1 && at[0] < |s.log| && s.log[at[0]].res == Unit
    case Leaving(_, op, _, res, at) => !op.Clear? && |at| == 1 && at[0] < |s.log| && s.log[at[0]].res == res
    case Returning(_, op, res, at) =>
      if op.Clear? then |at| == s.Size() && res == Unit else |at| == 1 && at[0] < |s.log| && s.log[at[0]].res == res
    case NextBucket(_, b, at) => |at| == b <= s.Size()
    case Sweeping(_, b, _, at) => |at| == b + 1 <= s.Size()
    case Swept(_, b, at) => |at| == b + 1 <= s.Size()
    case Idle => true
  }

  /** The call a thread is in: who made it, when, and what it has done. */
  ghost predicate CallOk<K(!new), V>(s: State<K, V>, t: nat)
    requires t < |s.threads| && !s.threads[t].Idle?
  {
    var p := s.threads[t];
    && p.call < |s.hist| && s.hist[p.call].Invoked? && s.hist[p.call].thread == t && s.hist[p.call].op == OpOf(p)
    && Marked(s.log, p.call, OpOf(p), MarksOf(p))
    && Progress(s, p)
  }

  ghost predicate EntryOk<K(!new), V>(s: State<K, V>, p: nat)
    requires p < |s.log|
  {
    var e := s.log[p];
    && e.call < |s.hist| && s.hist[e.call].Invoked? && s.hist[e.call].op == e.op && s.hist[e.call].stamp <= p
    && e.bucket < s.Size() && (!e.op.Clear? ==> e.bucket == s.home(e.op.key))
  }

  ghost predicate ReturnOk<K(!new), V>(s: State<K, V>, j: nat)
    requires j < |s.hist| && s.hist[j].Returned?
  {
    var r := s.hist[j];
    && r.call < j && s.hist[r.call].Invoked?
    && Marked(s.log, r.call, s.hist[r.call].op, r.at)
    && (forall i: nat :: i < |r.at| ==> r.at[i] < r.stamp)
    && if s.hist[r.call].op.Clear? then |r.at| == s.Size() && r.res == Unit
       else |r.at| == 1 && s.log[r.at[0]].res == r.res
  }

  ghost predicate StampsOk<K(!new), V>(s: State<K, V>) {
    && (forall i: nat :: i < |s.hist| ==> s.hist[i].stamp <= |s.log|)
    && (forall i: nat, j: nat :: i < j < |s.hist| ==> s.hist[i].stamp <= s.hist[j].stamp)
  }

  /** A call returns once, and not while its thread is still in it. */
  ghost predicate OnceOk<K(!new), V>(s: State<K, V>) {
    && (forall t: nat, j: nat :: t < |s.threads| && !s.threads[t].Idle? && j < |s.hist| && s.hist[j].Returned? ==>
          s.hist[j].call != s.threads[t].call)
    && (forall i: nat, j: nat :: i < j < |s.hist| && s.hist[i].Returned? && s.hist[j].Returned? ==>
          s.hist[i].call != s.hist[j].call)
  }

  ghost predicate HistInv<K(!new), V>(s: State<K, V>) {
    && StampsOk(s) && OnceOk(s)
    && (forall p: nat :: p < |s.log| ==> EntryOk(s, p))
    && (forall t: nat :: t < |s.threads| && !s.threads[t].Idle? ==> CallOk(s, t))
    && (forall j: nat :: j < |s.hist| && s.hist[j].Returned? ==> ReturnOk(s, j))
    && Legal(s.home, s.log) && s.abs == Replay(s.home, s.log)
  }

  // ---------------------------------------------------------------------------------------------
  // The four kinds of step, as far as the history is concerned
  // ---------------------------------------------------------------------------------------------

  ghost predicate SameOthers<K(!new), V>(s: State<K, V>, s': State<K, V>, t: nat) {
    && s'.home == s.home && s'.Size() == s.Size() && |s'.threads| == |s.threads| && t < |s.threads|
    && forall u: nat :: u < |s.threads| && u != t ==> s'.threads[u] == s.threads[u]
  }

  /** A step inside a call that has no effect on the map. */
  lemma Silent<K(!new), V>(s: State<K, V>, s': State<K, V>, t: nat)
    requires HistInv(s) && SameOthers(s, s', t)
    requires s'.log == s.log && s'.hist == s.hist && s'.abs == s.abs
    requires !s.threads[t].Idle? && !s'.threads[t].Idle? && s'.threads[t].call == s.threads[t].call
    requires OpOf(s'.threads[t]) == OpOf(s.threads[t]) && MarksOf(s'.threads[t]) == MarksOf(s.threads[t])
    requires CallOk(s, t) ==> Progress(s', s'.threads[t])
    ensures HistInv(s')
  {
    assert CallOk(s, t);
    forall p: nat | p < |s'.log| ensures EntryOk(s', p) { assert EntryOk(s, p); }
    forall u: nat | u < |s'.threads| && !s'.threads[u].Idle? ensures CallOk(s', u) {
      if u != t { assert CallOk(s, u); }
    }
    forall j: nat | j < |s'.hist| && s'.hist[j].Returned? ensures ReturnOk(s', j) { assert ReturnOk(s, j); }
  }

  lemma InvokeOnce<K(!new), V>(s: State<K, V>, s': State<K, V>, t: nat, op: Op<K, V>)
    requires HistInv(s) && Shape(s) && t < |s.threads| && Invoke(s, s', t, op)
    ensures StampsOk(s') && OnceOk(s')
  {
    assert forall j: nat :: j < |s.hist| ==> s'.hist[j] == s.hist[j];
    forall u: nat, j: nat | u < |s'.threads| && !s'.threads[u].Idle? && j < |s'.hist| && s'.hist[j].Returned?
      ensures s'.hist[j].call != s'.threads[u].call
    {
      assert ReturnOk(s, j);
    }
  }

  lemma InvokeHist<K(!new), V>(s: State<K, V>, s': State<K, V>, t: nat, op: Op<K, V>)
    requires HistInv(s) && Shape(s) && t < |s.threads| && Invoke(s, s', t, op)
    ensures HistInv(s')
  {
    InvokeOnce(s, s', t, op);
    assert forall j: nat :: j < |s.hist| ==> s'.hist[j] == s.hist[j];
    forall p: nat | p < |s'.log| ensures EntryOk(s', p) { assert EntryOk(s, p); }
    forall u: nat | u < |s'.threads| && !s'.threads[u].Idle? ensures CallOk(s', u) {
      if u != t {
        assert CallOk(s, u);
      } else {
        forall q: nat | q < |s.log| ensures s.log[q].call != |s.hist| { assert EntryOk(s, q); }
      }
    }
    forall j: nat | j < |s'.hist| && s'.hist[j].Returned? ensures ReturnOk(s', j) { assert ReturnOk(s, j); }
  }

  lemma ReturnStamps<K(!new), V>(s: State<K, V>, s': State<K, V>, t: nat)
    requires HistInv(s) && Shape(s) && t < |s.threads| && Return(s, s', t)
    ensures StampsOk(s')
  {
    assert forall j: nat :: j < |s.hist| ==> s'.hist[j] == s.hist[j];
  }

  lemma ReturnOnce<K(!new), V>(s: State<K, V>, s': State<K, V>, t: nat)
    requires HistInv(s) && Shape(s) && t < |s.threads| && Return(s, s', t)
    ensures OnceOk(s')
  {
    assert CallOk(s, t);
    assert forall j: nat :: j < |s.hist| ==> s'.hist[j] == s.hist[j];
    forall u: nat | u < |s'.threads| && !s'.threads[u].Idle? ensures s'.threads[u].call != s.threads[t].call {
      assert CallOk(s, u);
    }
  }

  lemma ReturnHist<K(!new), V>(s: State<K, V>, s': State<K, V>, t: nat)
    requires HistInv(s) && Shape(s) && t < |s.threads| && Return(s, s', t)
    ensures HistInv(s')
  {
    ReturnStamps(s, s', t);
    ReturnOnce(s, s', t);
    assert CallOk(s, t);
    assert forall j: nat :: j < |s.hist| ==> s'.hist[j] == s.hist[j];
    forall p: nat | p < |s'.log| ensures EntryOk(s', p) { assert EntryOk(s, p); }
    forall u: nat | u < |s'.threads| && !s'.threads[u].Idle? ensures CallOk(s', u) { assert CallOk(s, u); }
    forall j: nat | j < |s'.hist| && s'.hist[j].Returned? ensures ReturnOk(s', j) {
      if j < |s.hist| { assert ReturnOk(s, j); }
    }
  }

  lemma ReplayOne<K, V>(home: K -> nat, log: seq<Entry<K, V>>, e: Entry<K, V>)
    ensures Replay(home, log + [e]) == Apply(home, Replay(home, log), e.op, e.bucket).0
  {
    assert (log + [e])[..|log|] == log;
  }

  lemma LegalOne<K, V>(home: K -> nat, log: seq<Entry<K, V>>, e: Entry<K, V>)
    requires Legal(home, log) && e.res == Apply(home, Replay(home, log), e.op, e.bucket).1
    ensures Legal(home, log + [e])
  {
    var log' := log + [e];
    forall p | 0 <= p < |log'|
      ensures log'[p].res == Apply(home, Replay(home, log'[..p]), log'[p].op, log'[p].bucket).1
    {
      assert log'[..p] == log[..p];
      if p == |log| { assert log[..p] == log; }
    }
  }

  /** A new entry does not touch the marks of other calls, and adds one to its own. */
  lemma MarkedOther<K, V>(log: seq<Entry<K, V>>, e: Entry<K, V>, c: nat, op: Op<K, V>, at: seq<nat>)
    requires Marked(log, c, op, at) && e.call != c
    ensures Marked(log + [e], c, op, at)
  {
  }

  lemma MarkedOwn<K, V>(log: seq<Entry<K, V>>, e: Entry<K, V>, at: seq<nat>)
    requires Marked(log, e.call, e.op, at) && Rank(e) == |at|
    ensures Marked(log + [e], e.call, e.op, at + [|log|])
  {
    var log', at' := log + [e], at + [|log|];
    forall i: nat | i < |at'|
      ensures at'[i] < |log'| && log'[at'[i]].call == e.call && log'[at'[i]].op == e.op && Rank(log'[at'[i]]) == i
    {
      if i < |at| { assert log'[at[i]] == log[at[i]]; }
    }
    forall q: nat | q < |log'| && log'[q].call == e.call ensures Rank(log'[q]) < |at'| && at'[Rank(log'[q])] == q {
      if q < |log| { assert log'[q] == log[q]; }
    }
  }

  /** A step at which the call of thread t takes effect on bucket b. */
  ghost predicate Effect<K(!new), V>(s: State<K, V>, s': State<K, V>, t: nat, b: nat) {
    && Shape(s) && SameOthers(s, s', t) && b < s.Size()
    && !s.threads[t].Idle? && !s'.threads[t].Idle? && s'.threads[t].call == s.threads[t].call
    && var op := OpOf(s.threads[t]);
    && OpOf(s'.threads[t]) == op && s'.hist == s.hist
    && s'.abs == Apply(s.home, s.abs, op, b).0
    && s'.log == s.log + [Entry(s.threads[t].call, op, b, Answer(s, op, b))]
    && (if op.Clear? then |MarksOf(s.threads[t])| == b else MarksOf(s.threads[t]) == [] && b == s.home(op.key))
    && MarksOf(s'.threads[t]) == MarksOf(s.threads[t]) + [|s.log|]
    && Progress(s', s'.threads[t])
  }

  lemma EffectCall<K(!new), V>(s: State<K, V>, s': State<K, V>, t: nat, b: nat, u: nat)
    requires HistInv(s) && Effect(s, s', t, b) && u < |s.threads| && !s'.threads[u].Idle?
    ensures CallOk(s', u)
  {
    assert CallOk(s, t);
    assert CallOk(s, u);
    if u != t {
      MarkedOther(s.log, s'.log[|s.log|], s.threads[u].call, OpOf(s.threads[u]), MarksOf(s.threads[u]));
    } else {
      MarkedOwn(s.log, s'.log[|s.log|], MarksOf(s.threads[t]));
    }
  }

  lemma EffectReturned<K(!new), V>(s: State<K, V>, s': State<K, V>, t: nat, b: nat, j: nat)
    requires HistInv(s) && Effect(s, s', t, b) && j < |s.hist| && s.hist[j].Returned?
    ensures ReturnOk(s', j)
  {
    assert ReturnOk(s, j);
    MarkedOther(s.log, s'.log[|s.log|], s.hist[j].call, s.hist[s.hist[j].call].op, s.hist[j].at);
  }

  lemma EffectHist<K(!new), V>(s: State<K, V>, s': State<K, V>, t: nat, b: nat)
    requires HistInv(s) && Effect(s, s', t, b)
    ensures HistInv(s')
  {
    ReplayOne(s.home, s.log, s'.log[|s.log|]);
    LegalOne(s.home, s.log, s'.log[|s.log|]);
    forall p: nat | p < |s'.log| ensures EntryOk(s', p) {
      if p < |s.log| { assert EntryOk(s, p); } else { assert CallOk(s, t); }
    }
    forall u: nat | u < |s'.threads| && !s'.threads[u].Idle? ensures CallOk(s', u) { EffectCall(s, s', t, b, u); }
    forall j: nat | j < |s'.hist| && s'.hist[j].Returned? ensures ReturnOk(s', j) { EffectReturned(s, s', t, b, j); }
  }

  // ---------------------------------------------------------------------------------------------
  // Every step keeps the history invariant
  // ---------------------------------------------------------------------------------------------

  lemma FindStopHist<K(!new), V>(s: State<K, V>, s': State<K, V>, t: nat)
    requires Inv(s) && HistInv(s) && t < |s.threads| && FindStop(s, s', t)
    ensures HistInv(s')
  {
    var p := s.threads[t];
    assert CallOk(s, t);
    WalkerBucket(s, t);
    if p.node.Some? { KeyPresent(s, t); } else { KeyMissing(s, t); }
    assert s'.log[|s.log|].res == s'.threads[t].res;
    EffectHist(s, s', t, p.bucket);
  }

  lemma MutateHist<K(!new), V>(s: State<K, V>, s': State<K, V>, t: nat)
    requires Shape(s) && HistInv(s) && t < |s.threads|
    requires InsertUpdate(s, s', t) || EraseMiss(s, s', t)
    ensures HistInv(s')
  {
    assert CallOk(s, t);
    EffectHist(s, s', t, s.threads[t].bucket);
  }

  lemma EraseUnlinkHist<K(!new), V>(s: State<K, V>, s': State<K, V>, t: nat)
    requires Shape(s) && HistInv(s) && t < |s.threads| && EraseUnlink(s, s', t)
    ensures HistInv(s')
  {
    assert CallOk(s, t);
    EffectHist(s, s', t, s.threads[t].bucket);
  }

  lemma InsertNewHist<K(!new), V>(s: State<K, V>, s': State<K, V>, t: nat, a: Addr)
    requires Shape(s) && HistInv(s) && t < |s.threads| && InsertNew(s, s', t, a)
    ensures HistInv(s')
  {
    assert CallOk(s, t);
    EffectHist(s, s', t, s.threads[t].bucket);
  }

  lemma ClearAcquireHist<K(!new), V>(s: State<K, V>, s': State<K, V>, t: nat)
    requires Shape(s) && HistInv(s) && t < |s.threads| && ClearAcquire(s, s', t)
    ensures HistInv(s')
  {
    assert CallOk(s, t);
    EffectHist(s, s', t, s.threads[t].bucket);
  }

  lemma QuietHist<K(!new), V>(s: State<K, V>, s': State<K, V>, t: nat)
    requires Shape(s) && HistInv(s) && t < |s.threads|
    requires || AcquireShared(s, s', t) || AcquireExclusive(s, s', t) || Advance(s, s', t)
             || EraseDelete(s, s', t) || Release(s, s', t)
    ensures HistInv(s')
  {
    Silent(s, s', t);
  }

  lemma QuietClearHist<K(!new), V>(s: State<K, V>, s': State<K, V>, t: nat)
    requires Shape(s) && HistInv(s) && t < |s.threads|
    requires ClearFree(s, s', t) || ClearReset(s, s', t) || ClearRelease(s, s', t) || ClearDone(s, s', t)
    ensures HistInv(s')
  {
    Silent(s, s', t);
  }

  lemma HistKeeps<K(!new), V(!new)>(s: State<K, V>, s': State<K, V>)
    requires Inv(s) && HistInv(s) && Next(s, s')
    ensures HistInv(s')
  {
    var t: nat :| t < |s.threads| && ThreadStep(s, s', t);
    if op :| Invoke(s, s', t, op) { InvokeHist(s, s', t, op); }
    else if FindStop(s, s', t) { FindStopHist(s, s', t); }
    else if a :| InsertNew(s, s', t, a) { InsertNewHist(s, s', t, a); }
    else if InsertUpdate(s, s', t) || EraseMiss(s, s', t) { MutateHist(s, s', t); }
    else if EraseUnlink(s, s', t) { EraseUnlinkHist(s, s', t); }
    else if Return(s, s', t) { ReturnHist(s, s', t); }
    else if ClearAcquire(s, s', t) { ClearAcquireHist(s, s', t); }
    else if ClearFree(s, s', t) || ClearReset(s, s', t) || ClearRelease(s, s', t) || ClearDone(s, s', t) {
      QuietClearHist(s, s', t);
    } else { QuietHist(s, s', t); }
  }

  lemma {:induction false} RunHist<K(!new), V(!new)>(run: seq<State<K, V>>, i: nat)
    requires Run(run) && i < |run|
    ensures Inv(run[i]) && HistInv(run[i])
  {
    RunKeeps(run, i);
    if i > 0 {
      RunHist(run, i - 1);
      RunStep(run, i - 1);
      HistKeeps(run[i - 1], run[i]);
    }
  }
}
