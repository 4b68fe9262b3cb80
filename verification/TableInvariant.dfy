/**
 What every step of the table machine keeps: locks that exclude each other, live and acyclic lists,
 walkers that only ever look at allocated nodes, and no allocated node out of reach.
 */
module TableInvariant {
  import opened Options
  import opened TableMachine

  ghost function At(xs: seq<Addr>, i: nat): Option<Addr> {
    if i < |xs| then Some(xs[i]) else None
  }

  /** The phase holds bucket b exclusively. */
  ghost predicate Writes<K, V>(p: Phase<K, V>, b: nat) {
    || (p.Walking? && !p.op.Find? && p.bucket == b)
    || (p.Leaving? && !p.op.Find? && p.bucket == b)
    || (p.Deleting? && p.bucket == b)
    || (p.Sweeping? && p.bucket == b)
    || (p.Swept? && p.bucket == b)
  }

  /** The phase holds bucket b shared. */
  ghost predicate Reads<K, V>(p: Phase<K, V>, b: nat) {
    || (p.Walking? && p.op.Find? && p.bucket == b)
    || (p.Leaving? && p.op.Find? && p.bucket == b)
  }

  ghost predicate LocksOk<K(!new), V>(s: State<K, V>)
    requires Shape(s)
  {
    && (forall t: nat, b: nat :: t < |s.threads| && b < s.Size() ==>
          (s.writer[b] == Some(t) <==> Writes(s.threads[t], b)))
    && (forall t: nat, b: nat :: t < |s.threads| && b < s.Size() ==>
          (t in s.readers[b] <==> Reads(s.threads[t], b)))
    && (forall b: nat :: b < s.Size() && s.writer[b].Some? ==>
          s.writer[b].value < |s.threads| && s.readers[b] == {})
    && (forall b: nat, t: nat :: b < s.Size() && t in s.readers[b] ==> t < |s.threads|)
  }

  /** Clear is freeing the nodes of bucket b. */
  ghost predicate UnderSweep<K(!new), V>(s: State<K, V>, b: nat)
    requires Shape(s) && b < s.Size()
  {
    s.writer[b].Some? && s.writer[b].value < |s.threads| && s.threads[s.writer[b].value].Sweeping?
  }

  /** Where the live part of the list of bucket b begins. */
  ghost function Start<K(!new), V>(s: State<K, V>, b: nat): Option<Addr>
    requires Shape(s) && b < s.Size()
  {
    if UnderSweep(s, b) then s.threads[s.writer[b].value].node else s.heads[b]
  }

  /** Following `next` from `start` visits exactly xs, all of it allocated, and ends in null. */
  ghost predicate Linked<K, V>(heap: map<Addr, Node<K, V>>, start: Option<Addr>, xs: seq<Addr>) {
    && start == At(xs, 0)
    && (forall j: nat :: j < |xs| ==> xs[j] in heap)
    && (forall j: nat {:trigger heap[xs[j]].next} :: j < |xs| ==> heap[xs[j]].next == At(xs, j + 1))
  }

  /** The keys on the list are distinct and belong to bucket b. */
  ghost predicate Keyed<K, V>(home: K -> nat, b: nat, heap: map<Addr, Node<K, V>>, xs: seq<Addr>)
    requires forall j: nat :: j < |xs| ==> xs[j] in heap
  {
    && (forall j: nat :: j < |xs| ==> home(heap[xs[j]].key) == b)
    && (forall i: nat, j: nat :: i < j < |xs| ==> heap[xs[i]].key != heap[xs[j]].key)
  }

  /** The list holds exactly the atomic map's entries for bucket b. */
  ghost predicate Stores<K, V>(home: K -> nat, b: nat, heap: map<Addr, Node<K, V>>, xs: seq<Addr>,
                               abs: map<K, V>)
    requires forall j: nat :: j < |xs| ==> xs[j] in heap
  {
    && (forall j: nat :: j < |xs| ==> heap[xs[j]].key in abs && abs[heap[xs[j]].key] == heap[xs[j]].value)
    && (forall k :: k in abs && home(k) == b ==> exists j: nat :: j < |xs| && heap[xs[j]].key == k)
  }

  ghost predicate BucketOk<K(!new), V>(s: State<K, V>, b: nat)
    requires Shape(s) && b < s.Size()
  {
    && Linked(s.heap, Start(s, b), s.spine[b])
    && Keyed(s.home, b, s.heap, s.spine[b])
    && if UnderSweep(s, b) then forall k :: k in s.abs ==> s.home(k) != b
       else Stores(s.home, b, s.heap, s.spine[b], s.abs)
  }

  ghost predicate WalkerOk<K(!new), V>(s: State<K, V>, p: Phase<K, V>)
    requires Shape(s) && p.Walking?
  {
    && !p.op.Clear? && p.bucket == s.home(p.op.key)
    && p.pos <= |s.spine[p.bucket]|
    && p.node == At(s.spine[p.bucket], p.pos)
    && p.prev == (if p.pos == 0 then None else At(s.spine[p.bucket], p.pos - 1))
    && forall j: nat :: j < p.pos ==> s.spine[p.bucket][j] in s.heap && s.heap[s.spine[p.bucket][j]].key != p.op.key
  }

  ghost predicate PhaseOk<K(!new), V>(s: State<K, V>, p: Phase<K, V>)
    requires Shape(s)
  {
    match p
    case Called(_, op) => !op.Clear?
    case Walking(_, _, _, _, _, _) => WalkerOk(s, p)
    case Deleting(_, op, b, victim, _) =>
      && b < s.Size() && op.Erase? && victim in s.heap && s.home(s.heap[victim].key) == b
      && forall j: nat :: j < |s.spine[b]| ==> s.spine[b][j] != victim
    case Leaving(_, op, b, _, _) => b < s.Size() && !op.Clear?
    case NextBucket(_, b, _) => b <= s.Size()
    case Sweeping(_, b, _, _) => b < s.Size()
    case Swept(_, b, _) => b < s.Size()
    case _ => true
  }

  ghost predicate OnList<K(!new), V>(s: State<K, V>, b: nat, a: Addr)
    requires Shape(s) && b < s.Size()
  {
    exists j: nat :: j < |s.spine[b]| && s.spine[b][j] == a
  }

  ghost predicate Doomed<K(!new), V>(s: State<K, V>, b: nat, a: Addr)
    requires Shape(s) && b < s.Size()
  {
    && s.writer[b].Some? && s.writer[b].value < |s.threads|
    && s.threads[s.writer[b].value].Deleting? && s.threads[s.writer[b].value].victim == a
  }

  /** Every allocated node is on the list of its bucket, or is about to be deleted. */
  ghost predicate NoLeak<K(!new), V>(s: State<K, V>)
    requires Shape(s)
  {
    forall a :: a in s.heap ==> OnList(s, s.home(s.heap[a].key), a) || Doomed(s, s.home(s.heap[a].key), a)
  }

  ghost predicate Inv<K(!new), V>(s: State<K, V>) {
    && Shape(s) && LocksOk(s)
    && (forall b: nat :: b < s.Size() ==> BucketOk(s, b))
    && (forall t: nat :: t < |s.threads| ==> PhaseOk(s, s.threads[t]))
    && NoLeak(s)
  }

  // ---------------------------------------------------------------------------------------------
  // Lists on the heap
  // ---------------------------------------------------------------------------------------------

  /** xs, laid out from `start`, is bucket b of the atomic map. */
  ghost predicate Holds<K, V>(home: K -> nat, b: nat, heap: map<Addr, Node<K, V>>, start: Option<Addr>,
                              xs: seq<Addr>, abs: map<K, V>)
  {
    Linked(heap, start, xs) && Keyed(home, b, heap, xs) && Stores(home, b, heap, xs, abs)
  }

  /** Distinct keys mean distinct nodes. */
  lemma DistinctNodes<K, V>(home: K -> nat, b: nat, heap: map<Addr, Node<K, V>>, start: Option<Addr>,
                            xs: seq<Addr>, i: nat, j: nat)
    requires Linked(heap, start, xs) && Keyed(home, b, heap, xs)
    requires i < |xs| && j < |xs| && i != j
    ensures xs[i] != xs[j]
  {
    assert heap[xs[i]].key != heap[xs[j]].key;
  }

  /** A list is not disturbed by changes to other nodes. */
  lemma HoldsFrame<K, V>(home: K -> nat, b: nat, heap: map<Addr, Node<K, V>>, heap': map<Addr, Node<K, V>>,
                         start: Option<Addr>, xs: seq<Addr>, abs: map<K, V>)
    requires Holds(home, b, heap, start, xs, abs)
    requires forall j: nat :: j < |xs| ==> xs[j] in heap' && heap'[xs[j]] == heap[xs[j]]
    ensures Holds(home, b, heap', start, xs, abs)
  {
    forall j: nat | j < |xs| ensures heap'[xs[j]].next == At(xs, j + 1) {
      assert heap[xs[j]].next == At(xs, j + 1);
    }
    forall k | k in abs && home(k) == b ensures exists j: nat :: j < |xs| && heap'[xs[j]].key == k {
      var j: nat :| j < |xs| && heap[xs[j]].key == k;
      assert heap'[xs[j]].key == k;
    }
  }

  lemma AppendLinked<K, V>(home: K -> nat, b: nat, heap: map<Addr, Node<K, V>>, start: Option<Addr>,
                           xs: seq<Addr>, a: Addr, k: K, v: V, heap': map<Addr, Node<K, V>>)
    requires Linked(heap, start, xs) && Keyed(home, b, heap, xs) && a !in heap
    requires xs == [] ==> heap' == heap[a := Node(k, v, None)]
    requires xs != [] ==> var z := xs[|xs| - 1];
                          heap' == heap[a := Node(k, v, None)][z := heap[z].(next := Some(a))]
    ensures Linked(heap', if xs == [] then Some(a) else start, xs + [a])
    ensures forall j: nat :: j < |xs| ==> heap'[xs[j]].key == heap[xs[j]].key && heap'[xs[j]].value == heap[xs[j]].value
    ensures heap'[a].key == k && heap'[a].value == v
  {
    var ys := xs + [a];
    forall j: nat | j < |ys|
      ensures heap'[ys[j]].next == At(ys, j + 1)
    {
      if j < |xs| - 1 {
        DistinctNodes(home, b, heap, start, xs, j, |xs| - 1);
        assert heap[xs[j]].next == At(xs, j + 1);
      }
    }
  }

  lemma AppendKeyed<K, V>(home: K -> nat, b: nat, heap: map<Addr, Node<K, V>>, xs: seq<Addr>, a: Addr, k: K,
                          heap': map<Addr, Node<K, V>>)
    requires (forall j: nat :: j < |xs| ==> xs[j] in heap) && Keyed(home, b, heap, xs)
    requires home(k) == b && forall j: nat :: j < |xs| ==> heap[xs[j]].key != k
    requires forall j: nat :: j < |xs| ==> xs[j] in heap' && heap'[xs[j]].key == heap[xs[j]].key
    requires a in heap' && heap'[a].key == k
    ensures (forall j: nat :: j < |xs + [a]| ==> (xs + [a])[j] in heap') && Keyed(home, b, heap', xs + [a])
  {
  }

  lemma AppendStores<K, V>(home: K -> nat, b: nat, heap: map<Addr, Node<K, V>>, xs: seq<Addr>, abs: map<K, V>,
                           a: Addr, k: K, v: V, heap': map<Addr, Node<K, V>>)
    requires (forall j: nat :: j < |xs| ==> xs[j] in heap) && Stores(home, b, heap, xs, abs)
    requires forall j: nat :: j < |xs| ==> heap[xs[j]].key != k
    requires forall j: nat :: j < |xs| ==>
               xs[j] in heap' && heap'[xs[j]].key == heap[xs[j]].key && heap'[xs[j]].value == heap[xs[j]].value
    requires a in heap' && heap'[a].key == k && heap'[a].value == v
    ensures forall j: nat :: j < |xs + [a]| ==> (xs + [a])[j] in heap'
    ensures Stores(home, b, heap', xs + [a], abs[k := v])
  {
    var ys := xs + [a];
    assert ys[|xs|] == a;
    forall q | q in abs[k := v] && home(q) == b
      ensures exists j: nat :: j < |ys| && heap'[ys[j]].key == q
    {
      if q == k {
        assert heap'[ys[|xs|]].key == q;
      } else {
        var j: nat :| j < |xs| && heap[xs[j]].key == q;
        assert heap'[ys[j]].key == q;
      }
    }
  }

  lemma AppendNode<K, V>(home: K -> nat, b: nat, heap: map<Addr, Node<K, V>>, start: Option<Addr>,
                         xs: seq<Addr>, abs: map<K, V>, a: Addr, k: K, v: V, heap': map<Addr, Node<K, V>>)
    requires Holds(home, b, heap, start, xs, abs)
    requires a !in heap && home(k) == b
    requires forall j: nat :: j < |xs| ==> heap[xs[j]].key != k
    requires xs == [] ==> heap' == heap[a := Node(k, v, None)]
    requires xs != [] ==> var z := xs[|xs| - 1];
                          heap' == heap[a := Node(k, v, None)][z := heap[z].(next := Some(a))]
    ensures Holds(home, b, heap', if xs == [] then Some(a) else start, xs + [a], abs[k := v])
  {
    hide Keyed;
    hide Stores;
    AppendLinked(home, b, heap, start, xs, a, k, v, heap');
    AppendKeyed(home, b, heap, xs, a, k, heap');
    AppendStores(home, b, heap, xs, abs, a, k, v, heap');
  }

  lemma UpdateFields<K, V>(home: K -> nat, b: nat, heap: map<Addr, Node<K, V>>, start: Option<Addr>,
                           xs: seq<Addr>, i: nat, v: V)
    requires Linked(heap, start, xs) && Keyed(home, b, heap, xs) && i < |xs|
    ensures var heap' := heap[xs[i] := heap[xs[i]].(value := v)];
            && Linked(heap', start, xs) && Keyed(home, b, heap', xs)
            && forall j: nat :: j < |xs| ==>
                 && heap'[xs[j]].key == heap[xs[j]].key
                 && heap'[xs[j]].value == (if j == i then v else heap[xs[j]].value)
                 && (j != i ==> heap[xs[j]].key != heap[xs[i]].key)
  {
    var heap' := heap[xs[i] := heap[xs[i]].(value := v)];
    forall j: nat | j < |xs|
      ensures heap'[xs[j]].next == At(xs, j + 1)
      ensures j != i ==> xs[j] != xs[i]
    {
      assert heap[xs[j]].next == At(xs, j + 1);
      if j != i { DistinctNodes(home, b, heap, start, xs, i, j); }
    }
  }

  lemma UpdateNode<K, V>(home: K -> nat, b: nat, heap: map<Addr, Node<K, V>>, start: Option<Addr>,
                         xs: seq<Addr>, abs: map<K, V>, i: nat, v: V)
    requires Holds(home, b, heap, start, xs, abs) && i < |xs|
    ensures Holds(home, b, heap[xs[i] := heap[xs[i]].(value := v)], start, xs, abs[heap[xs[i]].key := v])
  {
    UpdateFields(home, b, heap, start, xs, i, v);
    var k, heap' := heap[xs[i]].key, heap[xs[i] := heap[xs[i]].(value := v)];
    forall q | q in abs[k := v] && home(q) == b
      ensures exists j: nat :: j < |xs| && heap'[xs[j]].key == q
    {
      if q == k {
        assert heap'[xs[i]].key == q;
      } else {
        var j: nat :| j < |xs| && heap[xs[j]].key == q;
        assert heap'[xs[j]].key == q;
      }
    }
  }

  /** Freeing the first node of a list leaves the rest in place. */
  lemma FreeFirst<K, V>(home: K -> nat, b: nat, heap: map<Addr, Node<K, V>>, start: Option<Addr>, xs: seq<Addr>)
    requires Linked(heap, start, xs) && Keyed(home, b, heap, xs) && xs != []
    ensures Linked(heap - {xs[0]}, heap[xs[0]].next, Without(xs, 0))
    ensures Keyed(home, b, heap - {xs[0]}, Without(xs, 0))
  {
    var ys := Without(xs, 0);
    forall j: nat | j < |ys|
      ensures ys[j] == xs[j + 1] && ys[j] != xs[0] && heap[ys[j]].next == At(ys, j + 1)
    {
      assert heap[xs[j + 1]].next == At(xs, j + 2);
      DistinctNodes(home, b, heap, start, xs, 0, j + 1);
    }
    assert heap[xs[0]].next == At(xs, 1);
  }

  lemma WithoutAt(xs: seq<Addr>, i: nat, j: nat)
    requires i < |xs| && j < |Without(xs, i)|
    ensures Without(xs, i)[j] == xs[if j < i then j else j + 1]
  {
  }

  /** One node further along a list. */
  lemma Onward<K, V>(heap: map<Addr, Node<K, V>>, start: Option<Addr>, xs: seq<Addr>, i: nat)
    requires Linked(heap, start, xs) && i < |xs|
    ensures xs[i] in heap && heap[xs[i]].next == At(xs, i + 1) && At(xs, i) == Some(xs[i])
  {
  }

  /** Position j of the list without position i. */
  lemma UnlinkAt<K, V>(home: K -> nat, b: nat, heap: map<Addr, Node<K, V>>, start: Option<Addr>,
                       xs: seq<Addr>, i: nat, heap': map<Addr, Node<K, V>>, j: nat)
    requires Linked(heap, start, xs) && Keyed(home, b, heap, xs) && i < |xs| && j < |Without(xs, i)|
    requires heap' == if i == 0 then heap
                      else heap[xs[i - 1] := heap[xs[i - 1]].(next := heap[xs[i]].next)]
    ensures Without(xs, i)[j] == xs[if j < i then j else j + 1] && Without(xs, i)[j] != xs[i]
    ensures Without(xs, i)[j] in heap' && heap'[Without(xs, i)[j]].next == At(Without(xs, i), j + 1)
  {
    var ys := Without(xs, i);
    var j' := if j < i then j else j + 1;
    WithoutAt(xs, i, j);
    if j + 1 < |ys| { WithoutAt(xs, i, j + 1); }
    Onward(heap, start, xs, i);
    Onward(heap, start, xs, j');
    DistinctNodes(home, b, heap, start, xs, i, j');
    if i > 0 && j' != i - 1 { DistinctNodes(home, b, heap, start, xs, i - 1, j'); }
    hide Linked;
    hide Keyed;
  }

  lemma UnlinkLinked<K, V>(home: K -> nat, b: nat, heap: map<Addr, Node<K, V>>, start: Option<Addr>,
                           xs: seq<Addr>, i: nat, heap': map<Addr, Node<K, V>>)
    requires Linked(heap, start, xs) && Keyed(home, b, heap, xs) && i < |xs|
    requires heap' == if i == 0 then heap
                      else heap[xs[i - 1] := heap[xs[i - 1]].(next := heap[xs[i]].next)]
    ensures Linked(heap', if i == 0 then heap[xs[0]].next else start, Without(xs, i))
    ensures forall j: nat :: j < |Without(xs, i)| ==>
                               Without(xs, i)[j] == xs[if j < i then j else j + 1] && Without(xs, i)[j] != xs[i]
    ensures forall j: nat :: j < |xs| ==> heap'[xs[j]].key == heap[xs[j]].key && heap'[xs[j]].value == heap[xs[j]].value
  {
    Onward(heap, start, xs, 0);
    hide Keyed;
    forall j: nat | j < |Without(xs, i)|
      ensures Without(xs, i)[j] == xs[if j < i then j else j + 1] && Without(xs, i)[j] != xs[i]
      ensures Without(xs, i)[j] in heap' && heap'[Without(xs, i)[j]].next == At(Without(xs, i), j + 1)
    {
      UnlinkAt(home, b, heap, start, xs, i, heap', j);
    }
  }

  lemma UnlinkKeyed<K, V>(home: K -> nat, b: nat, heap: map<Addr, Node<K, V>>, xs: seq<Addr>,
                          i: nat, heap': map<Addr, Node<K, V>>)
    requires forall j: nat :: j < |xs| ==> xs[j] in heap && xs[j] in heap'
    requires Keyed(home, b, heap, xs) && i < |xs|
    requires forall j: nat :: j < |xs| ==> heap'[xs[j]].key == heap[xs[j]].key
    requires forall j: nat :: j < |Without(xs, i)| ==> Without(xs, i)[j] == xs[if j < i then j else j + 1]
    ensures Keyed(home, b, heap', Without(xs, i))
    ensures forall j: nat :: j < |Without(xs, i)| ==> heap'[Without(xs, i)[j]].key != heap[xs[i]].key
  {
  }

  lemma UnlinkStores<K, V>(home: K -> nat, b: nat, heap: map<Addr, Node<K, V>>, xs: seq<Addr>, abs: map<K, V>,
                           i: nat, heap': map<Addr, Node<K, V>>)
    requires forall j: nat :: j < |xs| ==> xs[j] in heap && xs[j] in heap'
    requires Stores(home, b, heap, xs, abs) && i < |xs|
    requires forall j: nat :: j < |xs| ==>
               heap'[xs[j]].key == heap[xs[j]].key && heap'[xs[j]].value == heap[xs[j]].value
    requires forall j: nat :: j < |Without(xs, i)| ==> Without(xs, i)[j] == xs[if j < i then j else j + 1]
    requires forall j: nat :: j < |Without(xs, i)| ==> heap'[Without(xs, i)[j]].key != heap[xs[i]].key
    ensures Stores(home, b, heap', Without(xs, i), abs - {heap[xs[i]].key})
  {
    var ys := Without(xs, i);
    forall q | q in abs - {heap[xs[i]].key} && home(q) == b
      ensures exists j: nat :: j < |ys| && heap'[ys[j]].key == q
    {
      var j: nat :| j < |xs| && heap[xs[j]].key == q;
      assert heap'[ys[if j < i then j else j - 1]].key == q;
    }
  }

  lemma UnlinkNode<K, V>(home: K -> nat, b: nat, heap: map<Addr, Node<K, V>>, start: Option<Addr>,
                         xs: seq<Addr>, abs: map<K, V>, i: nat, heap': map<Addr, Node<K, V>>)
    requires Holds(home, b, heap, start, xs, abs) && i < |xs|
    requires heap' == if i == 0 then heap
                      else heap[xs[i - 1] := heap[xs[i - 1]].(next := heap[xs[i]].next)]
    ensures Holds(home, b, heap', if i == 0 then heap[xs[0]].next else start, Without(xs, i), abs - {heap[xs[i]].key})
    ensures forall j: nat :: j < |Without(xs, i)| ==> Without(xs, i)[j] != xs[i]
  {
    UnlinkLinked(home, b, heap, start, xs, i, heap');
    UnlinkKeyed(home, b, heap, xs, i, heap');
    UnlinkStores(home, b, heap, xs, abs, i, heap');
  }

  // ---------------------------------------------------------------------------------------------
  // Frames
  // ---------------------------------------------------------------------------------------------

  /** s' differs from s only in bucket b and in thread t. */
  ghost predicate OnlyAt<K(!new), V>(s: State<K, V>, s': State<K, V>, b: nat, t: nat)
    requires Shape(s)
  {
    && Shape(s') && s'.home == s.home && s'.Size() == s.Size()
    && |s'.threads| == |s.threads|
    && (forall u: nat :: u < |s.threads| && u != t ==> s'.threads[u] == s.threads[u])
    && (forall c: nat :: c < s.Size() && c != b ==>
          && s'.spine[c] == s.spine[c] && s'.heads[c] == s.heads[c]
          && s'.writer[c] == s.writer[c] && s'.readers[c] == s.readers[c])
    && (forall a :: a in s.heap && s.home(s.heap[a].key) != b ==> a in s'.heap && s'.heap[a] == s.heap[a])
    && (forall a :: a in s'.heap && s.home(s'.heap[a].key) != b ==> a in s.heap && s'.heap[a] == s.heap[a])
    && (forall k :: k in s.abs && s.home(k) != b ==> k in s'.abs && s'.abs[k] == s.abs[k])
    && (forall k :: k in s'.abs && s.home(k) != b ==> k in s.abs)
  }

  lemma OtherBucket<K(!new), V>(s: State<K, V>, s': State<K, V>, b: nat, t: nat, c: nat)
    requires Inv(s) && OnlyAt(s, s', b, t) && c < s.Size() && c != b
    requires s.writer[c] != Some(t)
    ensures BucketOk(s', c)
  {
    assert BucketOk(s, c);
    assert UnderSweep(s', c) == UnderSweep(s, c);
    assert Start(s', c) == Start(s, c);
    var xs := s.spine[c];
    forall j: nat | j < |xs|
      ensures xs[j] in s'.heap && s'.heap[xs[j]] == s.heap[xs[j]]
    {
      assert s.home(s.heap[xs[j]].key) == c;
    }
    if !UnderSweep(s, c) {
      forall j: nat | j < |xs|
        ensures s'.heap[xs[j]].key in s'.abs && s'.abs[s'.heap[xs[j]].key] == s'.heap[xs[j]].value
      {
        assert s.home(s.heap[xs[j]].key) == c;
      }
      forall k | k in s'.abs && s'.home(k) == c
        ensures exists j: nat :: j < |xs| && s'.heap[xs[j]].key == k
      {
        assert s.home(k) == c;
        var j: nat :| j < |xs| && s.heap[xs[j]].key == k;
        assert s'.heap[xs[j]].key == k;
      }
    } else {
    }
  }

  /** Threads in other buckets, and threads waiting for a lock, do not notice. */
  lemma OtherPhase<K(!new), V>(s: State<K, V>, s': State<K, V>, b: nat, t: nat, u: nat)
    requires Inv(s) && OnlyAt(s, s', b, t) && b < s.Size() && u < |s.threads| && u != t
    requires !Writes(s.threads[u], b) && !Reads(s.threads[u], b)
    ensures PhaseOk(s', s'.threads[u])
  {
    var p := s.threads[u];
    assert PhaseOk(s, p);
    if p.Walking? {
      var c := p.bucket;
      assert c != b;
      assert BucketOk(s, c);
      forall j: nat | j < p.pos
        ensures s'.spine[c][j] in s'.heap && s'.heap[s'.spine[c][j]].key != p.op.key
      {
        assert s.home(s.heap[s.spine[c][j]].key) == c;
      }
    } else if p.Deleting? {
      assert p.bucket != b;
      assert s.home(s.heap[p.victim].key) == p.bucket;
    }
  }

  lemma OtherNodes<K(!new), V>(s: State<K, V>, s': State<K, V>, b: nat, t: nat, a: Addr)
    requires Inv(s) && OnlyAt(s, s', b, t) && b < s.Size()
    requires forall c: nat :: c < s.Size() && c != b ==> s.writer[c] != Some(t)
    requires a in s'.heap && s'.home(s'.heap[a].key) != b
    ensures OnList(s', s'.home(s'.heap[a].key), a) || Doomed(s', s'.home(s'.heap[a].key), a)
  {
    var c := s.home(s'.heap[a].key);
    assert a in s.heap && s'.heap[a] == s.heap[a];
    if OnList(s, c, a) {
      var j: nat :| j < |s.spine[c]| && s.spine[c][j] == a;
      assert s'.spine[c][j] == a;
    } else {
      assert Doomed(s, c, a);
    }
  }

  /** A step by the writer of bucket b: what remains to be shown is about that bucket and that thread. */
  lemma WriterStep<K(!new), V>(s: State<K, V>, s': State<K, V>, b: nat, t: nat)
    requires Inv(s) && OnlyAt(s, s', b, t) && b < s.Size() && t < |s.threads|
    requires s.readers[b] == {} && (s.writer[b] == None || s.writer[b] == Some(t))
    requires forall c: nat :: c < s.Size() && c != b ==> s.writer[c] != Some(t)
    requires LocksOk(s') && BucketOk(s', b) && PhaseOk(s', s'.threads[t])
    requires forall a :: a in s'.heap && s'.home(s'.heap[a].key) == b ==> OnList(s', b, a) || Doomed(s', b, a)
    ensures Inv(s')
  {
    forall c: nat | c < s'.Size() ensures BucketOk(s', c) {
      if c != b { OtherBucket(s, s', b, t, c); }
    }
    forall u: nat | u < |s'.threads| ensures PhaseOk(s', s'.threads[u]) {
      if u != t {
        assert s.writer[b] != Some(u) && u !in s.readers[b];
        OtherPhase(s, s', b, t, u);
      }
    }
    forall a | a in s'.heap
      ensures OnList(s', s'.home(s'.heap[a].key), a) || Doomed(s', s'.home(s'.heap[a].key), a)
    {
      if s'.home(s'.heap[a].key) != b { OtherNodes(s, s', b, t, a); }
    }
  }

  /** A step that leaves nodes, lists and the atomic map alone. */
  lemma QuietStep<K(!new), V>(s: State<K, V>, s': State<K, V>, t: nat)
    requires Inv(s) && Shape(s') && t < |s.threads|
    requires s'.home == s.home && s'.heap == s.heap && s'.heads == s.heads && s'.spine == s.spine && s'.abs == s.abs
    requires |s'.threads| == |s.threads|
    requires forall u: nat :: u < |s.threads| && u != t ==> s'.threads[u] == s.threads[u]
    requires !s.threads[t].Sweeping? && !s'.threads[t].Sweeping?
    requires !s.threads[t].Deleting? && !s'.threads[t].Deleting?
    requires forall b: nat :: b < s.Size() && s.writer[b] != s'.writer[b] ==>
                                s.writer[b] in {None, Some(t)} && s'.writer[b] in {None, Some(t)}
    requires LocksOk(s') && PhaseOk(s', s'.threads[t])
    ensures Inv(s')
  {
    forall b: nat | b < s'.Size() ensures BucketOk(s', b) {
      assert BucketOk(s, b);
      assert UnderSweep(s', b) == UnderSweep(s, b);
    }
    forall u: nat | u < |s'.threads| ensures PhaseOk(s', s'.threads[u]) {
      if u != t { assert PhaseOk(s, s.threads[u]); }
    }
    forall a | a in s'.heap
      ensures OnList(s', s'.home(s'.heap[a].key), a) || Doomed(s', s'.home(s'.heap[a].key), a)
    {
      var b := s.home(s.heap[a].key);
      if OnList(s, b, a) {
        var j: nat :| j < |s.spine[b]| && s.spine[b][j] == a;
        assert s'.spine[b][j] == a;
      } else {
        assert Doomed(s, b, a);
      }
    }
  }

  // ---------------------------------------------------------------------------------------------
  // Every step keeps the invariant
  // ---------------------------------------------------------------------------------------------

  lemma InitKeeps<K(!new), V>(s: State<K, V>)
    requires Init(s)
    ensures Inv(s)
  {
  }

  lemma InvokeKeeps<K(!new), V>(s: State<K, V>, s': State<K, V>, t: nat, op: Op<K, V>)
    requires Inv(s) && t < |s.threads| && Invoke(s, s', t, op)
    ensures Inv(s')
  {
    QuietStep(s, s', t);
  }

  lemma AcquireSharedKeeps<K(!new), V>(s: State<K, V>, s': State<K, V>, t: nat)
    requires Inv(s) && t < |s.threads| && AcquireShared(s, s', t)
    ensures Inv(s')
  {
    assert BucketOk(s, s.home(s.threads[t].op.key));
    QuietStep(s, s', t);
  }

  lemma AcquireExclusiveKeeps<K(!new), V>(s: State<K, V>, s': State<K, V>, t: nat)
    requires Inv(s) && t < |s.threads| && AcquireExclusive(s, s', t)
    ensures Inv(s')
  {
    assert BucketOk(s, s.home(s.threads[t].op.key));
    QuietStep(s, s', t);
  }

  /** A walker is inside a bucket that nobody is sweeping. */
  lemma WalkerBucket<K(!new), V>(s: State<K, V>, t: nat)
    requires Inv(s) && t < |s.threads| && s.threads[t].Walking?
    ensures WalkerOk(s, s.threads[t])
    ensures BucketOk(s, s.threads[t].bucket) && !UnderSweep(s, s.threads[t].bucket)
    ensures s.threads[t].node == None <==> s.threads[t].pos == |s.spine[s.threads[t].bucket]|
    ensures s.threads[t].node.Some? ==> s.threads[t].node.value in s.heap
    ensures s.threads[t].prev.Some? ==> s.threads[t].prev.value in s.heap
  {
    var p := s.threads[t];
    assert PhaseOk(s, p);
    assert Writes(p, p.bucket) || Reads(p, p.bucket);
    assert BucketOk(s, p.bucket);
  }

  /** The nodes a walker looks at belong to its bucket. */
  lemma WalkerHome<K(!new), V>(s: State<K, V>, t: nat)
    requires Inv(s) && t < |s.threads| && s.threads[t].Walking?
    ensures var p := s.threads[t];
            && p.bucket < s.Size()
            && (p.node.Some? ==> p.node.value in s.heap && s.home(s.heap[p.node.value].key) == p.bucket)
            && (p.prev.Some? ==> p.prev.value in s.heap && s.home(s.heap[p.prev.value].key) == p.bucket)
  {
    WalkerBucket(s, t);
  }

  /** A walker that has reached the end without finding its key: the map does not have the key. */
  lemma KeyMissing<K(!new), V>(s: State<K, V>, t: nat)
    requires Inv(s) && t < |s.threads| && s.threads[t].Walking? && s.threads[t].node == None
    ensures s.threads[t].op.key !in s.abs
  {
    WalkerBucket(s, t);
  }

  /** A walker that stands at its key: the map has the key with that node's value. */
  lemma KeyPresent<K(!new), V>(s: State<K, V>, t: nat)
    requires Inv(s) && t < |s.threads| && s.threads[t].Walking? && s.threads[t].node.Some?
    requires s.threads[t].node.value in s.heap && s.heap[s.threads[t].node.value].key == s.threads[t].op.key
    ensures s.threads[t].op.key in s.abs && s.abs[s.threads[t].op.key] == s.heap[s.threads[t].node.value].value
  {
    WalkerBucket(s, t);
  }

  /** The walker moves on by one node, which does not have its key. */
  lemma MovesOn<K(!new), V>(s: State<K, V>, s': State<K, V>, t: nat)
    requires Shape(s) && t < |s.threads| && Advance(s, s', t) && WalkerOk(s, s.threads[t])
    requires var b := s.threads[t].bucket; Linked(s.heap, s.heads[b], s.spine[b])
    ensures Shape(s') && PhaseOk(s', s'.threads[t])
  {
    var p := s.threads[t];
    var b := p.bucket;
    if p.pos < |s.spine[b]| { Onward(s.heap, s.heads[b], s.spine[b], p.pos); }
    hide Linked;
  }

  lemma AdvanceWalker<K(!new), V>(s: State<K, V>, s': State<K, V>, t: nat)
    requires Inv(s) && t < |s.threads| && Advance(s, s', t)
    ensures Shape(s') && PhaseOk(s', s'.threads[t])
  {
    WalkerBucket(s, t);
    hide LocksOk;
    hide NoLeak;
    hide PhaseOk;
    hide Linked;
    MovesOn(s, s', t);
  }

  lemma AdvanceKeeps<K(!new), V>(s: State<K, V>, s': State<K, V>, t: nat)
    requires Inv(s) && t < |s.threads| && Advance(s, s', t)
    ensures Inv(s')
  {
    AdvanceWalker(s, s', t);
    hide PhaseOk;
    hide BucketOk;
    hide NoLeak;
    SameLocks(s, s', t);
    QuietStep(s, s', t);
  }

  lemma FindStopKeeps<K(!new), V>(s: State<K, V>, s': State<K, V>, t: nat)
    requires Inv(s) && t < |s.threads| && FindStop(s, s', t)
    ensures Inv(s')
  {
    WalkerBucket(s, t);
    SameLocks(s, s', t);
    QuietStep(s, s', t);
  }

  lemma EraseMissKeeps<K(!new), V>(s: State<K, V>, s': State<K, V>, t: nat)
    requires Inv(s) && t < |s.threads| && EraseMiss(s, s', t)
    ensures Inv(s')
  {
    WalkerBucket(s, t);
    KeyMissing(s, t);
    assert s'.abs == s.abs;
    SameLocks(s, s', t);
    QuietStep(s, s', t);
  }

  lemma ReleaseKeeps<K(!new), V>(s: State<K, V>, s': State<K, V>, t: nat)
    requires Inv(s) && t < |s.threads| && Release(s, s', t)
    ensures Inv(s')
  {
    assert PhaseOk(s, s.threads[t]);
    QuietStep(s, s', t);
  }

  lemma ReturnKeeps<K(!new), V>(s: State<K, V>, s': State<K, V>, t: nat)
    requires Inv(s) && t < |s.threads| && Return(s, s', t)
    ensures Inv(s')
  {
    QuietStep(s, s', t);
  }

  lemma ClearReleaseKeeps<K(!new), V>(s: State<K, V>, s': State<K, V>, t: nat)
    requires Inv(s) && t < |s.threads| && ClearRelease(s, s', t)
    ensures Inv(s')
  {
    QuietStep(s, s', t);
  }

  lemma ClearDoneKeeps<K(!new), V>(s: State<K, V>, s': State<K, V>, t: nat)
    requires Inv(s) && t < |s.threads| && ClearDone(s, s', t)
    ensures Inv(s')
  {
    QuietStep(s, s', t);
  }

  /** The writer of a bucket holds that bucket alone, and no other. */
  lemma OneBucket<K(!new), V>(s: State<K, V>, t: nat)
    requires Inv(s) && t < |s.threads| && !s.threads[t].Idle? && !s.threads[t].Called? && !s.threads[t].Returning?
    requires Writes(s.threads[t], s.threads[t].bucket)
    ensures s.threads[t].bucket < s.Size()
    ensures s.writer[s.threads[t].bucket] == Some(t) && s.readers[s.threads[t].bucket] == {}
    ensures forall c: nat :: c < s.Size() && c != s.threads[t].bucket ==> s.writer[c] != Some(t)
  {
    assert PhaseOk(s, s.threads[t]);
  }

  lemma SameLocks<K(!new), V>(s: State<K, V>, s': State<K, V>, t: nat)
    requires Inv(s) && Shape(s') && t < |s.threads| && |s'.threads| == |s.threads|
    requires s'.writer == s.writer && s'.readers == s.readers
    requires forall u: nat :: u < |s.threads| && u != t ==> s'.threads[u] == s.threads[u]
    requires forall b: nat :: Writes(s'.threads[t], b) == Writes(s.threads[t], b)
    requires forall b: nat :: Reads(s'.threads[t], b) == Reads(s.threads[t], b)
    ensures LocksOk(s')
  {
  }

  lemma InsertNewLocks<K(!new), V>(s: State<K, V>, s': State<K, V>, t: nat, a: Addr)
    requires Inv(s) && t < |s.threads| && InsertNew(s, s', t, a)
    ensures LocksOk(s')
    ensures PhaseOk(s', s'.threads[t])
  {
    SameLocks(s, s', t);
  }

  lemma InsertNewFrame<K(!new), V>(s: State<K, V>, s': State<K, V>, t: nat, a: Addr)
    requires Inv(s) && t < |s.threads| && InsertNew(s, s', t, a)
    ensures OnlyAt(s, s', s.threads[t].bucket, t)
  {
    WalkerHome(s, t);
    hide BucketOk;
    hide PhaseOk;
    hide LocksOk;
    hide NoLeak;
  }

  lemma InsertNewBucket<K(!new), V>(s: State<K, V>, s': State<K, V>, t: nat, a: Addr)
    requires Inv(s) && t < |s.threads| && InsertNew(s, s', t, a)
    ensures BucketOk(s', s.threads[t].bucket)
  {
    var p := s.threads[t];
    var b, xs := p.bucket, s.spine[p.bucket];
    WalkerBucket(s, t);
    OneBucket(s, t);
    assert s.heads[b] == None <==> xs == [];
    AppendNode(s.home, b, s.heap, s.heads[b], xs, s.abs, a, p.op.key, p.op.val, s'.heap);
  }

  lemma InsertNewNodes<K(!new), V>(s: State<K, V>, s': State<K, V>, t: nat, a: Addr)
    requires Inv(s) && t < |s.threads| && InsertNew(s, s', t, a)
    ensures forall a' :: a' in s'.heap && s'.home(s'.heap[a'].key) == s.threads[t].bucket ==>
                           OnList(s', s.threads[t].bucket, a')
  {
    var b, xs := s.threads[t].bucket, s.spine[s.threads[t].bucket];
    OneBucket(s, t);
    forall a' | a' in s'.heap && s'.home(s'.heap[a'].key) == b ensures OnList(s', b, a') {
      if a' == a {
        assert s'.spine[b][|xs|] == a;
      } else {
        assert !Doomed(s, b, a');
        var j: nat :| j < |xs| && xs[j] == a';
        assert s'.spine[b][j] == a';
      }
    }
  }

  lemma InsertNewKeeps<K(!new), V>(s: State<K, V>, s': State<K, V>, t: nat, a: Addr)
    requires Inv(s) && t < |s.threads| && InsertNew(s, s', t, a)
    ensures Inv(s')
  {
    var b := s.threads[t].bucket;
    OneBucket(s, t);
    InsertNewLocks(s, s', t, a);
    InsertNewFrame(s, s', t, a);
    InsertNewBucket(s, s', t, a);
    InsertNewNodes(s, s', t, a);
    WriterStep(s, s', b, t);
  }

  lemma InsertUpdateFrame<K(!new), V>(s: State<K, V>, s': State<K, V>, t: nat)
    requires Inv(s) && t < |s.threads| && InsertUpdate(s, s', t)
    ensures OnlyAt(s, s', s.threads[t].bucket, t)
    ensures LocksOk(s')
    ensures PhaseOk(s', s'.threads[t])
  {
    WalkerHome(s, t);
    SameLocks(s, s', t);
  }

  lemma InsertUpdateBucket<K(!new), V>(s: State<K, V>, s': State<K, V>, t: nat)
    requires Inv(s) && t < |s.threads| && InsertUpdate(s, s', t)
    ensures BucketOk(s', s.threads[t].bucket)
  {
    var p := s.threads[t];
    var b, xs := p.bucket, s.spine[p.bucket];
    WalkerBucket(s, t);
    OneBucket(s, t);
    UpdateNode(s.home, b, s.heap, s.heads[b], xs, s.abs, p.pos, p.op.val);
  }

  lemma InsertUpdateNodes<K(!new), V>(s: State<K, V>, s': State<K, V>, t: nat)
    requires Inv(s) && t < |s.threads| && InsertUpdate(s, s', t)
    ensures forall a :: a in s'.heap && s'.home(s'.heap[a].key) == s.threads[t].bucket ==>
                          OnList(s', s.threads[t].bucket, a)
  {
    var b := s.threads[t].bucket;
    OneBucket(s, t);
    forall a | a in s'.heap && s'.home(s'.heap[a].key) == b ensures OnList(s', b, a) {
      assert !Doomed(s, b, a);
      var j: nat :| j < |s.spine[b]| && s.spine[b][j] == a;
      assert s'.spine[b][j] == a;
    }
  }

  lemma InsertUpdateKeeps<K(!new), V>(s: State<K, V>, s': State<K, V>, t: nat)
    requires Inv(s) && t < |s.threads| && InsertUpdate(s, s', t)
    ensures Inv(s')
  {
    var b := s.threads[t].bucket;
    OneBucket(s, t);
    InsertUpdateFrame(s, s', t);
    InsertUpdateBucket(s, s', t);
    InsertUpdateNodes(s, s', t);
    WriterStep(s, s', b, t);
  }

  lemma EraseUnlinkLocks<K(!new), V>(s: State<K, V>, s': State<K, V>, t: nat)
    requires Inv(s) && t < |s.threads| && EraseUnlink(s, s', t)
    ensures LocksOk(s')
  {
    SameLocks(s, s', t);
  }

  lemma EraseUnlinkFrame<K(!new), V>(s: State<K, V>, s': State<K, V>, t: nat)
    requires Inv(s) && t < |s.threads| && EraseUnlink(s, s', t)
    ensures OnlyAt(s, s', s.threads[t].bucket, t)
  {
    WalkerHome(s, t);
    hide BucketOk;
    hide PhaseOk;
    hide LocksOk;
    hide NoLeak;
  }

  /** What unlinking does to the list, whichever branch it takes: position i of xs is taken out. */
  ghost predicate TakenOut<K, V>(heap: map<Addr, Node<K, V>>, heap': map<Addr, Node<K, V>>, start: Option<Addr>,
                                 start': Option<Addr>, xs: seq<Addr>, i: nat) {
    && i < |xs| && (forall j: nat :: j < |xs| ==> xs[j] in heap)
    && heap' == (if i == 0 then heap else heap[xs[i - 1] := heap[xs[i - 1]].(next := heap[xs[i]].next)])
    && start' == (if i == 0 then heap[xs[0]].next else start)
  }

  lemma EraseUnlinkList<K(!new), V>(s: State<K, V>, s': State<K, V>, t: nat)
    requires Inv(s) && t < |s.threads| && EraseUnlink(s, s', t)
    ensures Shape(s') && s'.home == s.home && s'.Size() == s.Size() && s.threads[t].bucket < s.Size()
    ensures var p := s.threads[t];
            var b, xs := p.bucket, s.spine[p.bucket];
            && TakenOut(s.heap, s'.heap, s.heads[b], s'.heads[b], xs, p.pos)
            && Holds(s.home, b, s.heap, s.heads[b], xs, s.abs)
  {
    var p := s.threads[t];
    var b, xs, i := p.bucket, s.spine[p.bucket], p.pos;
    WalkerBucket(s, t);
    OneBucket(s, t);
    hide NoLeak;
    hide LocksOk;
    assert s.heads[b] == p.node <==> i == 0 by {
      if i > 0 { DistinctNodes(s.home, b, s.heap, s.heads[b], xs, 0, i); }
    }
  }

  lemma EraseUnlinkRest<K(!new), V>(s: State<K, V>, s': State<K, V>, t: nat)
    requires Inv(s) && t < |s.threads| && EraseUnlink(s, s', t)
    ensures var p := s.threads[t];
            && t < |s'.threads| && p.bucket < s.Size()
            && |s'.spine| == |s'.writer| == |s.writer| == |s.spine| == s.Size()
            && p.node.Some? && p.node.value in s.heap && s.home(s.heap[p.node.value].key) == p.bucket && p.op.Erase?
            && p.pos < |s.spine[p.bucket]| && s.spine[p.bucket][p.pos] == p.node.value
            && s'.spine[p.bucket] == Without(s.spine[p.bucket], p.pos) && s'.abs == s.abs - {s.heap[p.node.value].key}
            && s'.writer == s.writer && s.writer[p.bucket] == Some(t)
            && s'.threads[t] == Deleting(p.call, p.op, p.bucket, p.node.value, [|s.log|])
  {
    WalkerHome(s, t);
    WalkerBucket(s, t);
    OneBucket(s, t);
    hide NoLeak;
    hide LocksOk;
    hide Linked;
    hide Stores;
  }

  lemma TakenOutHolds<K, V>(home: K -> nat, b: nat, heap: map<Addr, Node<K, V>>, heap': map<Addr, Node<K, V>>,
                            start: Option<Addr>, start': Option<Addr>, xs: seq<Addr>, abs: map<K, V>, i: nat)
    requires TakenOut(heap, heap', start, start', xs, i) && Holds(home, b, heap, start, xs, abs)
    ensures i < |xs| && xs[i] in heap && xs[i] in heap' && heap'[xs[i]].key == heap[xs[i]].key
    ensures Holds(home, b, heap', start', Without(xs, i), abs - {heap[xs[i]].key})
    ensures forall j: nat :: j < |Without(xs, i)| ==> Without(xs, i)[j] != xs[i]
  {
    UnlinkNode(home, b, heap, start, xs, abs, i, heap');
  }

  lemma EraseUnlinkBucket<K(!new), V>(s: State<K, V>, s': State<K, V>, t: nat)
    requires Inv(s) && t < |s.threads| && EraseUnlink(s, s', t)
    ensures BucketOk(s', s.threads[t].bucket)
    ensures PhaseOk(s', s'.threads[t])
  {
    EraseUnlinkList(s, s', t);
    EraseUnlinkRest(s, s', t);
    assert s.threads[t].Walking? && Shape(s);
    hide EraseUnlink;
    hide Inv;
    hide BucketOk;
    hide PhaseOk;
    hide Holds;
    hide TakenOut;
    hide Without;
    var p := s.threads[t];
    var b, xs, i := p.bucket, s.spine[p.bucket], p.pos;
    TakenOutHolds(s.home, b, s.heap, s'.heap, s.heads[b], s'.heads[b], xs, s.abs, i);
    UnlinkedBucket(s', b, t, xs, i);
  }

  lemma UnlinkedBucket<K(!new), V>(s': State<K, V>, b: nat, t: nat, xs: seq<Addr>, i: nat)
    requires Shape(s') && b < s'.Size() && t < |s'.threads| && s'.writer[b] == Some(t) && i < |xs|
    requires s'.threads[t].Deleting? && s'.threads[t].bucket == b && s'.threads[t].victim == xs[i]
    requires s'.threads[t].op.Erase? && xs[i] in s'.heap && s'.home(s'.heap[xs[i]].key) == b
    requires Holds(s'.home, b, s'.heap, s'.heads[b], s'.spine[b], s'.abs)
    requires forall j: nat :: j < |s'.spine[b]| ==> s'.spine[b][j] != xs[i]
    ensures BucketOk(s', b) && PhaseOk(s', s'.threads[t])
  {
    hide Linked;
    hide Stores;
  }

  lemma EraseUnlinkNodes<K(!new), V>(s: State<K, V>, s': State<K, V>, t: nat)
    requires Inv(s) && t < |s.threads| && EraseUnlink(s, s', t)
    ensures forall a :: a in s'.heap && s'.home(s'.heap[a].key) == s.threads[t].bucket ==>
                          OnList(s', s.threads[t].bucket, a) || Doomed(s', s.threads[t].bucket, a)
  {
    var b, xs, i := s.threads[t].bucket, s.spine[s.threads[t].bucket], s.threads[t].pos;
    assert PhaseOk(s, s.threads[t]);
    OneBucket(s, t);
    var ys := s'.spine[b];
    assert ys == Without(xs, i);
    assert i < |xs| && Some(xs[i]) == s.threads[t].node;
    forall a | a in s'.heap && s'.home(s'.heap[a].key) == b ensures OnList(s', b, a) || Doomed(s', b, a) {
      assert !Doomed(s, b, a) && s.home(s.heap[a].key) == b;
      var j: nat :| j < |xs| && xs[j] == a;
      if j < i { assert ys[j] == a; } else if j > i { assert ys[j - 1] == a; }
    }
  }

  lemma EraseUnlinkKeeps<K(!new), V>(s: State<K, V>, s': State<K, V>, t: nat)
    requires Inv(s) && t < |s.threads| && EraseUnlink(s, s', t)
    ensures Inv(s')
  {
    var b := s.threads[t].bucket;
    OneBucket(s, t);
    EraseUnlinkLocks(s, s', t);
    EraseUnlinkFrame(s, s', t);
    EraseUnlinkBucket(s, s', t);
    EraseUnlinkNodes(s, s', t);
    WriterStep(s, s', b, t);
  }

  lemma EraseDeleteFrame<K(!new), V>(s: State<K, V>, s': State<K, V>, t: nat)
    requires Inv(s) && t < |s.threads| && EraseDelete(s, s', t)
    ensures OnlyAt(s, s', s.threads[t].bucket, t)
    ensures LocksOk(s')
    ensures PhaseOk(s', s'.threads[t])
  {
    OneBucket(s, t);
    SameLocks(s, s', t);
  }

  lemma EraseDeleteBucket<K(!new), V>(s: State<K, V>, s': State<K, V>, t: nat)
    requires Inv(s) && t < |s.threads| && EraseDelete(s, s', t)
    ensures BucketOk(s', s.threads[t].bucket)
  {
    var b := s.threads[t].bucket;
    OneBucket(s, t);
    assert BucketOk(s, b);
    HoldsFrame(s.home, b, s.heap, s'.heap, s.heads[b], s.spine[b], s.abs);
  }

  lemma EraseDeleteNodes<K(!new), V>(s: State<K, V>, s': State<K, V>, t: nat)
    requires Inv(s) && t < |s.threads| && EraseDelete(s, s', t)
    ensures forall a :: a in s'.heap && s'.home(s'.heap[a].key) == s.threads[t].bucket ==>
                          OnList(s', s.threads[t].bucket, a)
  {
    var b := s.threads[t].bucket;
    OneBucket(s, t);
    forall a | a in s'.heap && s'.home(s'.heap[a].key) == b ensures OnList(s', b, a) {
      var j: nat :| j < |s.spine[b]| && s.spine[b][j] == a;
      assert s'.spine[b][j] == a;
    }
  }

  lemma EraseDeleteKeeps<K(!new), V>(s: State<K, V>, s': State<K, V>, t: nat)
    requires Inv(s) && t < |s.threads| && EraseDelete(s, s', t)
    ensures Inv(s')
  {
    var b := s.threads[t].bucket;
    OneBucket(s, t);
    EraseDeleteFrame(s, s', t);
    EraseDeleteBucket(s, s', t);
    EraseDeleteNodes(s, s', t);
    WriterStep(s, s', b, t);
  }

  lemma ClearAcquireBucket<K(!new), V>(s: State<K, V>, s': State<K, V>, t: nat)
    requires Inv(s) && t < |s.threads| && ClearAcquire(s, s', t)
    ensures BucketOk(s', s.threads[t].bucket)
    ensures OnlyAt(s, s', s.threads[t].bucket, t)
  {
    assert BucketOk(s, s.threads[t].bucket);
  }

  lemma ClearAcquireNodes<K(!new), V>(s: State<K, V>, s': State<K, V>, t: nat)
    requires Inv(s) && t < |s.threads| && ClearAcquire(s, s', t)
    ensures forall a :: a in s'.heap && s'.home(s'.heap[a].key) == s.threads[t].bucket ==>
                          OnList(s', s.threads[t].bucket, a)
  {
    var b := s.threads[t].bucket;
    forall a | a in s'.heap && s'.home(s'.heap[a].key) == b ensures OnList(s', b, a) {
      var j: nat :| j < |s.spine[b]| && s.spine[b][j] == a;
      assert s'.spine[b][j] == a;
    }
  }

  lemma ClearAcquireKeeps<K(!new), V>(s: State<K, V>, s': State<K, V>, t: nat)
    requires Inv(s) && t < |s.threads| && ClearAcquire(s, s', t)
    ensures Inv(s')
  {
    ClearAcquireBucket(s, s', t);
    ClearAcquireNodes(s, s', t);
    WriterStep(s, s', s.threads[t].bucket, t);
  }

  lemma ClearFreeBucket<K(!new), V>(s: State<K, V>, s': State<K, V>, t: nat)
    requires Inv(s) && t < |s.threads| && ClearFree(s, s', t)
    ensures s.threads[t].bucket < s.Size() && BucketOk(s', s.threads[t].bucket)
  {
    var b := s.threads[t].bucket;
    OneBucket(s, t);
    assert BucketOk(s, b);
    FreeFirst(s.home, b, s.heap, Start(s, b), s.spine[b]);
  }

  lemma ClearFreeFrame<K(!new), V>(s: State<K, V>, s': State<K, V>, t: nat)
    requires Inv(s) && t < |s.threads| && ClearFree(s, s', t)
    ensures OnlyAt(s, s', s.threads[t].bucket, t)
  {
    var b := s.threads[t].bucket;
    OneBucket(s, t);
    assert BucketOk(s, b);
    assert s.threads[t].node == Some(s.spine[b][0]);
  }

  lemma ClearFreeNodes<K(!new), V>(s: State<K, V>, s': State<K, V>, t: nat)
    requires Inv(s) && t < |s.threads| && ClearFree(s, s', t)
    ensures forall a :: a in s'.heap && s'.home(s'.heap[a].key) == s.threads[t].bucket ==>
                          OnList(s', s.threads[t].bucket, a)
  {
    var b := s.threads[t].bucket;
    OneBucket(s, t);
    assert Start(s, b) == At(s.spine[b], 0) by { assert BucketOk(s, b); }
    forall a | a in s'.heap && s'.home(s'.heap[a].key) == b ensures OnList(s', b, a) {
      assert !Doomed(s, b, a);
      var j: nat :| j < |s.spine[b]| && s.spine[b][j] == a;
      assert s'.spine[b][j - 1] == a;
    }
  }

  lemma ClearFreeKeeps<K(!new), V>(s: State<K, V>, s': State<K, V>, t: nat)
    requires Inv(s) && t < |s.threads| && ClearFree(s, s', t)
    ensures Inv(s')
  {
    var b := s.threads[t].bucket;
    OneBucket(s, t);
    SameLocks(s, s', t);
    ClearFreeBucket(s, s', t);
    ClearFreeFrame(s, s', t);
    ClearFreeNodes(s, s', t);
    WriterStep(s, s', b, t);
  }

  lemma ClearResetKeeps<K(!new), V>(s: State<K, V>, s': State<K, V>, t: nat)
    requires Inv(s) && t < |s.threads| && ClearReset(s, s', t)
    ensures Inv(s')
  {
    var b := s.threads[t].bucket;
    OneBucket(s, t);
    assert BucketOk(s, b);
    assert BucketOk(s', b);
    WriterStep(s, s', b, t);
  }

  lemma StepKeeps<K(!new), V(!new)>(s: State<K, V>, s': State<K, V>)
    requires Inv(s) && Next(s, s')
    ensures Inv(s')
  {
    var t: nat :| t < |s.threads| && ThreadStep(s, s', t);
    if op :| Invoke(s, s', t, op) { InvokeKeeps(s, s', t, op); }
    else if AcquireShared(s, s', t) { AcquireSharedKeeps(s, s', t); }
    else if AcquireExclusive(s, s', t) { AcquireExclusiveKeeps(s, s', t); }
    else if Advance(s, s', t) { AdvanceKeeps(s, s', t); }
    else if FindStop(s, s', t) { FindStopKeeps(s, s', t); }
    else if a :| InsertNew(s, s', t, a) { InsertNewKeeps(s, s', t, a); }
    else if InsertUpdate(s, s', t) { InsertUpdateKeeps(s, s', t); }
    else if EraseMiss(s, s', t) { EraseMissKeeps(s, s', t); }
    else if EraseUnlink(s, s', t) { EraseUnlinkKeeps(s, s', t); }
    else if EraseDelete(s, s', t) { EraseDeleteKeeps(s, s', t); }
    else if Release(s, s', t) { ReleaseKeeps(s, s', t); }
    else if Return(s, s', t) { ReturnKeeps(s, s', t); }
    else if ClearAcquire(s, s', t) { ClearAcquireKeeps(s, s', t); }
    else if ClearFree(s, s', t) { ClearFreeKeeps(s, s', t); }
    else if ClearReset(s, s', t) { ClearResetKeeps(s, s', t); }
    else if ClearRelease(s, s', t) { ClearReleaseKeeps(s, s', t); }
    else { ClearDoneKeeps(s, s', t); }
  }

  lemma RunStep<K(!new), V(!new)>(run: seq<State<K, V>>, i: nat)
    requires Run(run) && i + 1 < |run|
    ensures Next(run[i], run[i + 1])
  {
    assert StepAt(run, i);
  }

  /** Every state of every run is in the invariant. */
  lemma {:induction false} RunKeeps<K(!new), V(!new)>(run: seq<State<K, V>>, i: nat)
    requires Run(run) && i < |run|
    ensures Inv(run[i])
  {
    if i == 0 {
      InitKeeps(run[0]);
    } else {
      RunKeeps(run, i - 1);
      RunStep(run, i - 1);
      StepKeeps(run[i - 1], run[i]);
    }
  }
}
