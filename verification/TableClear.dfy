/**
 Clear locks one bucket at a time, so it is not one atomic step.  What it is: a left-to-right sequence of
 atomic clears of single buckets.  When it is one atomic clearing of the whole map is the subject of TableAtomicity.
 */
module TableClear {
  import opened TableMachine
  import opened TableHistory

  /** A Clear that has returned cleared every bucket once, from the first to the last, while it ran. */
  lemma ClearIsASequence<K(!new), V(!new)>(run: seq<State<K, V>>, i: nat, j: nat)
    requires Run(run) && i < |run| && j < |run[i].hist| && run[i].hist[j].Returned?
    requires run[i].hist[j].call < |run[i].hist| && run[i].hist[run[i].hist[j].call].Invoked?
    requires run[i].hist[run[i].hist[j].call].op.Clear?
    ensures var s, r := run[i], run[i].hist[j];
            && |r.at| == s.Size() && r.call < j
            && (forall b: nat :: b < |r.at| ==>
                  && s.hist[r.call].stamp <= r.at[b] < r.stamp <= |s.log|
                  && s.log[r.at[b]] == Entry(r.call, Clear, b, Unit))
            && (forall b: nat, c: nat :: b < c < |r.at| ==> r.at[b] < r.at[c])
            && (forall q: nat :: q < |s.log| && s.log[q].call == r.call ==> q in r.at)
  {
    RunHist(run, i);
    var s, r := run[i], run[i].hist[j];
    assert ReturnOk(s, j);
    forall b: nat | b < |r.at|
      ensures s.hist[r.call].stamp <= r.at[b] && s.log[r.at[b]] == Entry(r.call, Clear, b, Unit)
    {
      assert EntryOk(s, r.at[b]);
      assert s.log[r.at[b]].res == Apply(s.home, Replay(s.home, s.log[..r.at[b]]), Clear, b).1;
    }
    forall q: nat | q < |s.log| && s.log[q].call == r.call ensures q in r.at {
      assert r.at[Rank(s.log[q])] == q;
    }
  }

  /** In the atomic map, a key that is there after its bucket was cleared was inserted since. */
  lemma {:induction false} InsertedSince<K(!new), V>(home: K -> nat, log: seq<Entry<K, V>>, p: nat, k: K)
    requires p < |log| && log[p].op.Clear? && log[p].bucket == home(k)
    requires k in Replay(home, log)
    ensures exists q: nat :: p < q < |log| && log[q].op.Insert? && log[q].op.key == k
  {
    var n := |log| - 1;
    if p < n && !(log[n].op.Insert? && log[n].op.key == k) {
      InsertedSince(home, log[..n], p, k);
      var q: nat :| p < q < n && log[..n][q].op.Insert? && log[..n][q].op.key == k;
      assert log[q].op.Insert? && log[q].op.key == k;
    }
  }

  /** After a Clear, a key is in the table only if an Insert of it took effect after its bucket was cleared. */
  lemma SurvivorsWereInserted<K(!new), V(!new)>(run: seq<State<K, V>>, i: nat, j: nat, k: K)
    requires Run(run) && i < |run| && j < |run[i].hist| && run[i].hist[j].Returned?
    requires run[i].hist[j].call < |run[i].hist| && run[i].hist[run[i].hist[j].call].Invoked?
    requires run[i].hist[run[i].hist[j].call].op.Clear?
    requires k in run[i].abs
    ensures Shape(run[i]) && run[i].home(k) < |run[i].hist[j].at|
    ensures exists q: nat :: run[i].hist[j].at[run[i].home(k)] < q < |run[i].log| &&
                             run[i].log[q].op.Insert? && run[i].log[q].op.key == k
  {
    RunHist(run, i);
    ClearIsASequence(run, i, j);
    var s := run[i];
    InsertedSince(s.home, s.log, s.hist[j].at[s.home(k)], k);
  }

  /** When no Insert takes effect while a Clear runs, the table is empty at its return. */
  lemma ClearEmpties<K(!new), V(!new)>(run: seq<State<K, V>>, i: nat, j: nat)
    requires Run(run) && i < |run| && j < |run[i].hist| && run[i].hist[j].Returned?
    requires run[i].hist[j].call < |run[i].hist| && run[i].hist[run[i].hist[j].call].Invoked?
    requires run[i].hist[run[i].hist[j].call].op.Clear?
    requires run[i].hist[j].stamp == |run[i].log|
    requires forall q: nat :: run[i].hist[run[i].hist[j].call].stamp <= q < |run[i].log| ==> !run[i].log[q].op.Insert?
    ensures run[i].abs == map[]
  {
    ClearIsASequence(run, i, j);
    forall k | k in run[i].abs ensures false {
      SurvivorsWereInserted(run, i, j, k);
    }
  }
}
