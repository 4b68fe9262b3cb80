/**
 When whole calls, Clear among them, are atomic.  An explanation of a state puts the calls in one order, as if each had
 acted on the whole map at once.  There is one whenever nothing takes effect in the middle of a Clear; a table of one
 bucket leaves no room for that, and a table of more buckets does.
 */
module TableAtomicity {
  import opened TableMachine
  import opened TableHistory
  import opened TableTheorems

  /** What a whole call does to the map, and what it answers. */
  ghost function WholeApply<K, V>(m: map<K, V>, op: Op<K, V>): (map<K, V>, Res<V>) {
    match op
    case Find(k) => (m, if k in m then Found(m[k]) else Absent)
    case Insert(k, v) => (m[k := v], Unit)
    case Erase(k) => (m - {k}, Unit)
    case Clear => (map[], Unit)
  }

  /** The calls of `order` were all made. */
  ghost predicate Made<K, V>(hist: seq<Event<K, V>>, order: seq<nat>) {
    forall x: nat :: x < |order| ==> order[x] < |hist| && hist[order[x]].Invoked?
  }

  /** The map after whole calls, one at a time. */
  ghost function Whole<K, V>(hist: seq<Event<K, V>>, order: seq<nat>): map<K, V>
    requires Made(hist, order)
  {
    if |order| == 0 then map[] else
    WholeApply(Whole(hist, order[..|order| - 1]), hist[order[|order| - 1]].op).0
  }

  /** The call that returned at event j has position x and got the answer of the whole map there. */
  ghost predicate AnsweredAt<K, V>(hist: seq<Event<K, V>>, order: seq<nat>, j: nat, x: nat)
    requires Made(hist, order) && j < |hist| && hist[j].Returned? && x < |order|
  {
    && order[x] == hist[j].call
    && hist[j].res == WholeApply(Whole(hist, order[..x]), hist[order[x]].op).1
  }

  ghost predicate Answered<K, V>(hist: seq<Event<K, V>>, order: seq<nat>, j: nat)
    requires Made(hist, order) && j < |hist| && hist[j].Returned?
  {
    exists x: nat :: x < |order| && AnsweredAt(hist, order, j, x)
  }

  /** `order` explains a state: it has every call that returned, with its answer, and perhaps some that have not; no
      call comes before one that had returned when it was made; and the map at its end is the present one. */
  ghost predicate Explains<K(!new), V>(s: State<K, V>, order: seq<nat>) {
    && Made(s.hist, order)
    && (forall x: nat, y: nat :: x < y < |order| ==> order[x] != order[y])
    && (forall j: nat :: j < |s.hist| && s.hist[j].Returned? ==> Answered(s.hist, order, j))
    && (forall x: nat, y: nat, j: nat ::
          x < y < |order| && j < |s.hist| && s.hist[j].Returned? && s.hist[j].call == order[y] ==> order[x] < j)
    && Whole(s.hist, order) == s.abs
  }

  ghost predicate Atomic<K(!new), V>(s: State<K, V>) {
    exists order :: Explains(s, order)
  }

  // ---------------------------------------------------------------------------------------------
  // Calls that nothing disturbs
  // ---------------------------------------------------------------------------------------------

  /** No other call takes effect between two effects of one call, and a Clear that has begun has done all buckets. */
  ghost predicate Undisturbed<K, V>(log: seq<Entry<K, V>>, n: nat) {
    && (forall p: nat, q: nat, r: nat {:trigger Alone(log, p, q, r)} :: p < q < r < |log| ==> Alone(log, p, q, r))
    && (forall p: nat {:trigger Finishes(log, n, p)} :: p < |log| && log[p].op.Clear? ==> Finishes(log, n, p))
  }

  ghost predicate Alone<K, V>(log: seq<Entry<K, V>>, p: nat, q: nat, r: nat)
    requires p < q < r < |log|
  {
    log[p].call == log[r].call ==> log[q].call == log[p].call
  }

  /** The call of entry p has an effect on the last bucket. */
  ghost predicate Finishes<K, V>(log: seq<Entry<K, V>>, n: nat, p: nat)
    requires p < |log|
  {
    exists q: nat :: q < |log| && log[q].call == log[p].call && log[q].bucket == n - 1
  }

  /** The last effect of its call. */
  ghost predicate Last<K, V>(e: Entry<K, V>, n: nat) {
    e.op.Clear? ==> e.bucket == n - 1
  }

  /** Ranked entries for n buckets, each call under one operation. */
  ghost predicate Listed<K, V>(log: seq<Entry<K, V>>, n: nat) {
    && Ranked(log)
    && (forall p: nat :: p < |log| ==> log[p].bucket < n)
    && (forall p: nat, q: nat {:trigger SameOp(log, p, q)} :: p < |log| && q < |log| ==> SameOp(log, p, q))
  }

  ghost predicate SameOp<K, V>(log: seq<Entry<K, V>>, p: nat, q: nat)
    requires p < |log| && q < |log|
  {
    log[p].call == log[q].call ==> log[p].op == log[q].op
  }

  /** What is known about the log of a reachable state. */
  ghost predicate LogOk<K(!new), V>(s: State<K, V>) {
    && Shape(s) && Listed(s.log, s.Size()) && Legal(s.home, s.log)
    && forall p: nat {:trigger EntryOk(s, p)} :: p < |s.log| ==> EntryOk(s, p)
  }

  lemma RunLogOk<K(!new), V(!new)>(run: seq<State<K, V>>, i: nat)
    requires Run(run) && i < |run|
    ensures LogOk(run[i])
  {
    RunHist(run, i);
    RunRanked(run, i);
    hide Run;
    hide Ranked;
    var s := run[i];
    forall p: nat | p < |s.log| ensures s.log[p].bucket < s.Size() { assert EntryOk(s, p); }
    forall p: nat, q: nat | p < |s.log| && q < |s.log| ensures SameOp(s.log, p, q) {
      assert EntryOk(s, p) && EntryOk(s, q);
    }
  }

  /** The effects of a Clear stand side by side: the one before an effect on bucket b > 0 is its own on b - 1. */
  lemma Before<K, V>(log: seq<Entry<K, V>>, n: nat, p: nat)
    requires Listed(log, n) && Undisturbed(log, n) && p < |log| && log[p].op.Clear? && log[p].bucket > 0
    ensures p > 0 && log[p - 1].call == log[p].call && log[p - 1].op.Clear? && log[p - 1].bucket == log[p].bucket - 1
  {
    assert Preceded(log, p);
    var r: nat :| r < p && log[r].call == log[p].call && Rank(log[r]) == Rank(log[p]) - 1;
    assert SameOp(log, r, p) && SameOp(log, p - 1, p);
    if r < p - 1 { assert Alone(log, r, p - 1, p); }
    RanksRise(log, r, p - 1);
    RanksRise(log, p - 1, p);
  }

  /** The one behind an effect on a bucket that is not the last is its own on the next. */
  lemma Behind<K, V>(log: seq<Entry<K, V>>, n: nat, p: nat)
    requires Listed(log, n) && Undisturbed(log, n) && p < |log| && !Last(log[p], n)
    ensures p + 1 < |log| && log[p + 1].op.Clear? && log[p + 1].bucket == log[p].bucket + 1
            && log[p + 1].call == log[p].call
  {
    assert Finishes(log, n, p);
    var q: nat :| q < |log| && log[q].call == log[p].call && log[q].bucket == n - 1;
    assert SameOp(log, p, q);
    RanksRise(log, q, p);
    if p + 1 < q { assert Alone(log, p, p + 1, q); }
    assert SameOp(log, p, p + 1) && InOrder(log, p, p + 1);
    Before(log, n, p + 1);
  }

  /** The calls among the first p effects that have had their last one, in that order, and where they had it. */
  ghost function Ends<K, V>(log: seq<Entry<K, V>>, n: nat, p: nat): seq<nat>
    requires p <= |log|
  {
    if p == 0 then [] else Ends(log, n, p - 1) + (if Last(log[p - 1], n) then [p - 1] else [])
  }

  ghost function Order<K, V>(log: seq<Entry<K, V>>, n: nat, p: nat): seq<nat>
    requires p <= |log|
  {
    if p == 0 then [] else Order(log, n, p - 1) + (if Last(log[p - 1], n) then [log[p - 1].call] else [])
  }

  lemma {:induction false} Positions<K, V>(log: seq<Entry<K, V>>, n: nat, p: nat)
    requires p <= |log|
    ensures |Ends(log, n, p)| == |Order(log, n, p)|
    ensures forall x: nat :: x < |Ends(log, n, p)| ==>
              var q := Ends(log, n, p)[x];
              && q < p && Last(log[q], n)
              && Order(log, n, p)[x] == log[q].call && Order(log, n, p)[..x] == Order(log, n, q)
    ensures forall x: nat, y: nat :: x < y < |Ends(log, n, p)| ==> Ends(log, n, p)[x] < Ends(log, n, p)[y]
    ensures forall q: nat :: q < p && Last(log[q], n) ==> q in Ends(log, n, p)
  {
    if p > 0 {
      Positions(log, n, p - 1);
      var ends, order := Ends(log, n, p - 1), Order(log, n, p - 1);
      forall x: nat | x < |Ends(log, n, p)|
        ensures var q := Ends(log, n, p)[x];
                && q < p && Last(log[q], n)
                && Order(log, n, p)[x] == log[q].call && Order(log, n, p)[..x] == Order(log, n, q)
      {
        if x < |ends| { assert Order(log, n, p)[..x] == order[..x]; } else { assert Order(log, n, p)[..x] == order; }
      }
    }
  }

  lemma {:induction false} OrderMade<K(!new), V>(s: State<K, V>, p: nat)
    requires LogOk(s) && p <= |s.log|
    ensures Made(s.hist, Order(s.log, s.Size(), p))
  {
    if p > 0 {
      OrderMade(s, p - 1);
      assert EntryOk(s, p - 1);
    }
  }

  /** The part of a map that lies in the buckets from b on. */
  ghost function From<K, V>(home: K -> nat, m: map<K, V>, b: nat): map<K, V> {
    map k | k in m && home(k) >= b :: m[k]
  }

  lemma FromStep<K(!new), V>(s: State<K, V>, m: map<K, V>, b: nat)
    requires Shape(s)
    ensures Apply(s.home, From(s.home, m, b), Clear, b).0 == From(s.home, m, b + 1)
    ensures From(s.home, m, 0) == m && From(s.home, m, s.Size()) == map[]
  {
  }

  /** In the middle of a Clear the map lacks the buckets done so far; otherwise it is the map of the whole calls. */
  ghost predicate Matches<K(!new), V>(s: State<K, V>, p: nat)
    requires LogOk(s) && p <= |s.log|
  {
    OrderMade(s, p);
    var now, whole := Replay(s.home, s.log[..p]), Whole(s.hist, Order(s.log, s.Size(), p));
    if p == 0 || Last(s.log[p - 1], s.Size()) then now == whole
    else now == From(s.home, whole, s.log[p - 1].bucket + 1)
  }

  lemma WholeSnoc<K, V>(hist: seq<Event<K, V>>, order: seq<nat>, c: nat)
    requires Made(hist, order) && c < |hist| && hist[c].Invoked?
    ensures Made(hist, order + [c])
    ensures Whole(hist, order + [c]) == WholeApply(Whole(hist, order), hist[c].op).0
  {
    assert (order + [c])[..|order|] == order;
  }

  /** A call that is not in the middle of a Clear follows no Clear that is. */
  lemma StartsAfresh<K(!new), V>(s: State<K, V>, p: nat)
    requires LogOk(s) && Undisturbed(s.log, s.Size()) && p < |s.log| && (s.log[p].op.Clear? ==> s.log[p].bucket == 0)
    ensures p == 0 || Last(s.log[p - 1], s.Size())
  {
    if p > 0 && !Last(s.log[p - 1], s.Size()) { Behind(s.log, s.Size(), p - 1); }
  }

  lemma {:induction false} Compressed<K(!new), V>(s: State<K, V>, p: nat)
    requires LogOk(s) && Undisturbed(s.log, s.Size()) && p <= |s.log|
    ensures Matches(s, p)
  {
    if p == 0 {
      assert s.log[..0] == [];
    } else {
      Compressed(s, p - 1);
      if s.log[p - 1].op.Clear? && s.log[p - 1].bucket > 0 {
        Before(s.log, s.Size(), p - 1);
      } else {
        StartsAfresh(s, p - 1);
      }
      hide Undisturbed;
      hide Listed;
      hide Legal;
      CompressedStep(s, p);
    }
  }

  lemma CompressedStep<K(!new), V>(s: State<K, V>, p: nat)
    requires LogOk(s) && 0 < p <= |s.log| && Matches(s, p - 1)
    requires var e := s.log[p - 1];
             if e.op.Clear? && e.bucket > 0 then
               p > 1 && !Last(s.log[p - 2], s.Size()) && s.log[p - 2].bucket == e.bucket - 1
             else p == 1 || Last(s.log[p - 2], s.Size())
    ensures Matches(s, p)
  {
    hide Listed;
    hide Legal;
    OrderMade(s, p - 1);
    OrderMade(s, p);
    assert EntryOk(s, p - 1);
    var n, e, order := s.Size(), s.log[p - 1], Order(s.log, s.Size(), p - 1);
    var whole := Whole(s.hist, order);
    assert s.log[..p] == s.log[..p - 1] + [e];
    ReplayOne(s.home, s.log[..p - 1], e);
    WholeSnoc(s.hist, order, e.call);
    FromStep(s, whole, e.bucket);
    if Last(e, n) {
      assert Order(s.log, n, p) == order + [e.call];
    } else {
      assert Order(s.log, n, p) == order;
    }
  }

  // ---------------------------------------------------------------------------------------------
  // The explanation
  // ---------------------------------------------------------------------------------------------

  lemma OrderDistinct<K(!new), V>(s: State<K, V>, x: nat, y: nat)
    requires LogOk(s) && x < y < |Order(s.log, s.Size(), |s.log|)|
    ensures Order(s.log, s.Size(), |s.log|)[x] != Order(s.log, s.Size(), |s.log|)[y]
  {
    Positions(s.log, s.Size(), |s.log|);
    var ends := Ends(s.log, s.Size(), |s.log|);
    assert SameOp(s.log, ends[x], ends[y]) && InOrder(s.log, ends[x], ends[y]);
  }

  /** Where a call that has returned had its last effect. */
  lemma ReturnedEnd<K(!new), V>(s: State<K, V>, j: nat) returns (q: nat)
    requires LogOk(s) && HistInv(s) && j < |s.hist| && s.hist[j].Returned?
    ensures q < |s.log| && Last(s.log[q], s.Size()) && s.log[q].call == s.hist[j].call && s.log[q].res == s.hist[j].res
  {
    assert ReturnOk(s, j);
    var r := s.hist[j];
    q := r.at[|r.at| - 1];
    assert EntryOk(s, q);
    assert s.log[q].res == Apply(s.home, Replay(s.home, s.log[..q]), s.log[q].op, s.log[q].bucket).1;
  }

  lemma EndAnswered<K(!new), V>(s: State<K, V>, q: nat)
    requires LogOk(s) && Undisturbed(s.log, s.Size()) && q < |s.log|
    ensures Made(s.hist, Order(s.log, s.Size(), q)) && s.log[q].call < |s.hist| && s.hist[s.log[q].call].Invoked?
    ensures s.log[q].res == WholeApply(Whole(s.hist, Order(s.log, s.Size(), q)), s.hist[s.log[q].call].op).1
  {
    var e := s.log[q];
    OrderMade(s, q);
    assert EntryOk(s, q);
    assert e.res == Apply(s.home, Replay(s.home, s.log[..q]), e.op, e.bucket).1;
    if !e.op.Clear? {
      StartsAfresh(s, q);
      Compressed(s, q);
    }
  }

  lemma ReturnedAnswered<K(!new), V>(s: State<K, V>, j: nat)
    requires LogOk(s) && Undisturbed(s.log, s.Size()) && HistInv(s) && j < |s.hist| && s.hist[j].Returned?
    ensures Made(s.hist, Order(s.log, s.Size(), |s.log|)) && Answered(s.hist, Order(s.log, s.Size(), |s.log|), j)
  {
    var q := ReturnedEnd(s, j);
    hide HistInv;
    OrderMade(s, |s.log|);
    EndAnswered(s, q);
    hide LogOk;
    hide Undisturbed;
    var n, order := s.Size(), Order(s.log, s.Size(), |s.log|);
    Positions(s.log, n, |s.log|);
    var ends := Ends(s.log, n, |s.log|);
    hide Order;
    hide Ends;
    assert q in ends;
    var x: nat :| x < |ends| && ends[x] == q;
    assert order[..x] == Order(s.log, n, q) && order[x] == s.log[q].call;
    assert AnsweredAt(s.hist, order, j, x);
  }

  /** The order of last effects respects the order of calls in time. */
  lemma OrderInTime<K(!new), V>(s: State<K, V>, x: nat, y: nat, j: nat)
    requires LogOk(s) && HistInv(s) && x < y < |Order(s.log, s.Size(), |s.log|)|
    requires j < |s.hist| && s.hist[j].Returned? && s.hist[j].call == Order(s.log, s.Size(), |s.log|)[y]
    ensures Order(s.log, s.Size(), |s.log|)[x] < j
  {
    Positions(s.log, s.Size(), |s.log|);
    var ends := Ends(s.log, s.Size(), |s.log|);
    hide Order;
    hide Ends;
    EffectsInTime(s, ends[x], ends[y], j);
  }

  lemma StampsRise<K(!new), V>(s: State<K, V>, i: nat, j: nat)
    requires StampsOk(s) && i < |s.hist| && j < |s.hist|
    ensures i < j ==> s.hist[i].stamp <= s.hist[j].stamp
  {
  }

  lemma EffectsInTime<K(!new), V>(s: State<K, V>, p: nat, q: nat, j: nat)
    requires LogOk(s) && HistInv(s) && p < q < |s.log|
    requires j < |s.hist| && s.hist[j].Returned? && s.hist[j].call == s.log[q].call
    ensures s.log[p].call < j
  {
    hide Listed;
    hide Legal;
    assert EntryOk(s, p) && ReturnOk(s, j);
    assert s.hist[j].at[Rank(s.log[q])] == q;
    var c := s.log[p].call;
    StampsRise(s, j, c);
  }

  /** A state in which nothing took effect in the middle of a Clear is one that atomic whole calls explain. */
  lemma UndisturbedIsAtomic<K(!new), V(!new)>(run: seq<State<K, V>>, i: nat)
    requires Run(run) && i < |run| && Undisturbed(run[i].log, run[i].Size())
    ensures Atomic(run[i])
  {
    var s := run[i];
    RunLogOk(run, i);
    RunHist(run, i);
    hide Run;
    var n, order := s.Size(), Order(s.log, s.Size(), |s.log|);
    OrderMade(s, |s.log|);
    forall x: nat, y: nat | x < y < |order| ensures order[x] != order[y] { OrderDistinct(s, x, y); }
    forall j: nat | j < |s.hist| && s.hist[j].Returned? ensures Answered(s.hist, order, j) { ReturnedAnswered(s, j); }
    forall x: nat, y: nat, j: nat |
      x < y < |order| && j < |s.hist| && s.hist[j].Returned? && s.hist[j].call == order[y]
      ensures order[x] < j
    {
      OrderInTime(s, x, y, j);
    }
    Compressed(s, |s.log|);
    assert s.log[..|s.log|] == s.log;
    if |s.log| > 0 && !Last(s.log[|s.log| - 1], n) { Behind(s.log, n, |s.log| - 1); }
    assert Explains(s, order);
  }

  /** In a table of one bucket nothing can come in the middle of a Clear. */
  lemma OneBucketIsAtomic<K(!new), V(!new)>(run: seq<State<K, V>>, i: nat)
    requires Run(run) && i < |run| && run[i].Size() == 1
    ensures Atomic(run[i])
  {
    RunLogOk(run, i);
    OneBucketUndisturbed(run[i].log);
    UndisturbedIsAtomic(run, i);
  }

  lemma OneBucketUndisturbed<K, V>(log: seq<Entry<K, V>>)
    requires Listed(log, 1)
    ensures Undisturbed(log, 1)
  {
    forall p: nat, q: nat, r: nat | p < q < r < |log| ensures Alone(log, p, q, r) { assert InOrder(log, p, r); }
    forall p: nat | p < |log| ensures Finishes(log, 1, p) { assert log[p].bucket == 0; }
  }
}
