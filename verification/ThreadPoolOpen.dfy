/**
 The pool before its destructor sets the flag: whatever has been accepted gets run, since work does not go on for ever
 without new calls, and stops only when everything has been run and every worker sleeps.
 */
module ThreadPoolOpen {
  import opened Options
  import opened Sums
  import opened ThreadPoolMachine
  import opened ThreadPoolProofs

  ghost function WorkerWork<T>(p: Worker<T>): nat {
    match p
    case Took(_) => 5
    case Running(_) => 4
    case Want => 3
    case Test => 2
    case WillWait => 1
    case Leaving => 1
    case Blocked => 0
    case Done => 0
  }

  ghost function ClientWork<T>(p: Client<T>): nat {
    match p
    case Calling(_) => 11
    case Checking(_) => 10
    case Pushed => 5
    case Notifying => 4
    case Refusing => 1
    case Idle => 0
  }

  ghost function DtorWork(d: Destructor): nat {
    if d == Alive then 2 else if d == WantStop then 1 else 0
  }

  /** How much is left to do. */
  ghost function Work<T>(s: State<T>): nat {
    4 * |s.tasks| + Sum(s.workers, p => WorkerWork(p)) + Sum(s.clients, p => ClientWork(p)) + DtorWork(s.dtor)
  }

  /** What comes from outside: a new call, or a wake-up that nobody asked for. */
  ghost function Added<T(!new)>(s: State<T>, s': State<T>): nat {
    (if NewCall(s, s') then 12 else 0) + (if Spurious(s, s') then 4 else 0)
  }

  lemma SameDecision<T>(s: State<T>)
    ensures var d := Decide(s.tasks, s.stop); d.Take? ==> |d.rest| + 1 == |s.tasks|
  {
  }

  lemma WorkerMoves<T>(s: State<T>, s': State<T>, w: nat)
    requires w < |s.workers| && WorkerStep(s, s', w)
    ensures |s'.workers| == |s.workers| && s'.workers == s.workers[w := s'.workers[w]]
    ensures s'.clients == s.clients && s'.dtor == s.dtor
    ensures 4 * |s'.tasks| + WorkerWork(s'.workers[w]) < 4 * |s.tasks| + WorkerWork(s.workers[w])
  {
    SameDecision(s);
  }

  lemma WorkerWorks<T>(s: State<T>, s': State<T>, w: nat)
    requires w < |s.workers| && WorkerStep(s, s', w)
    ensures Work(s') < Work(s)
  {
    WorkerMoves(s, s', w);
    hide WorkerStep;
    SumUpdate(s.workers, w, s'.workers[w], p => WorkerWork(p));
  }

  lemma ClientMoves<T>(s: State<T>, s': State<T>, c: nat)
    requires c < |s.clients| && (ClientLock(s, s', c) || ClientCheck(s, s', c) || ClientUnlock(s, s', c))
    ensures |s'.clients| == |s.clients| && s'.clients == s.clients[c := s'.clients[c]]
    ensures s'.workers == s.workers && s'.dtor == s.dtor
    ensures 4 * |s'.tasks| + ClientWork(s'.clients[c]) < 4 * |s.tasks| + ClientWork(s.clients[c])
  {
  }

  lemma NotifyMoves<T>(s: State<T>, s': State<T>, c: nat)
    requires c < |s.clients| && ClientNotify(s, s', c)
    ensures Work(s') < Work(s)
  {
    SumUpdate(s.clients, c, Idle, p => ClientWork(p));
    if exists w :: 0 <= w < |s.workers| && s.workers[w] == Blocked {
      var w: nat :| w < |s.workers| && s.workers[w] == Blocked && s' == SetWorker(SetClient(s, c, Idle), w, Want);
      SumUpdate(s.workers, w, Want, p => WorkerWork(p));
    }
  }

  lemma ClientWorks<T>(s: State<T>, s': State<T>, c: nat)
    requires c < |s.clients| && ClientStep(s, s', c)
    ensures Work(s') < Work(s)
  {
    hide ClientNotify;
    if ClientNotify(s, s', c) {
      NotifyMoves(s, s', c);
    } else {
      ClientMoves(s, s', c);
      SumUpdate(s.clients, c, s'.clients[c], p => ClientWork(p));
    }
  }

  lemma OpenDtor<T>(s: State<T>, s': State<T>)
    requires FlagOk(s) && !s'.stop && (DtorStep(s, s') || DtorBegin(s, s'))
    ensures Work(s') < Work(s)
  {
    assert s'.workers == s.workers && s'.clients == s.clients && s'.tasks == s.tasks;
  }

  lemma NewCallWorks<T(!new)>(s: State<T>, s': State<T>)
    requires NewCall(s, s')
    ensures Work(s') == Work(s) + 11
  {
    var c: nat, task :| c < |s.clients| && ClientCall(s, s', c, task);
    SumUpdate(s.clients, c, Calling(task), p => ClientWork(p));
  }

  lemma SpuriousWorks<T(!new)>(s: State<T>, s': State<T>)
    requires Spurious(s, s')
    ensures Work(s') == Work(s) + 3
  {
    var w: nat :| w < |s.workers| && SpuriousWakeup(s, s', w);
    SumUpdate(s.workers, w, Want, p => WorkerWork(p));
  }

  /** In an open pool every step that nobody causes from outside leaves strictly less to do. */
  lemma OpenStep<T(!new)>(s: State<T>, s': State<T>)
    requires FlagOk(s) && !s'.stop && Next(s, s')
    ensures Work(s') + 1 <= Work(s) + Added(s, s')
  {
    hide Work;
    hide NewCall;
    hide Spurious;
    hide WorkerStep;
    hide ClientStep;
    hide DtorStep;
    hide DtorBegin;
    if w: nat :| w < |s.workers| && WorkerStep(s, s', w) { WorkerWorks(s, s', w); }
    else if c: nat :| c < |s.clients| && ClientStep(s, s', c) { ClientWorks(s, s', c); }
    else if NewCall(s, s') { NewCallWorks(s, s'); }
    else if Spurious(s, s') { SpuriousWorks(s, s'); }
    else { OpenDtor(s, s'); }
  }

  /** What came from outside in a stretch of a run. */
  ghost function AllAdded<T(!new)>(run: seq<State<T>>, i: nat, j: nat): nat
    requires i <= j < |run|
    decreases j - i
  {
    if i == j then 0 else AllAdded(run, i, j - 1) + Added(run[j - 1], run[j])
  }

  /** A stretch of a run in which the flag is not set has a bounded number of steps: twelve for each new call and four
      for each spurious wake-up besides what was left to do. */
  lemma {:induction false} OpenIsBounded<T(!new)>(run: seq<State<T>>, i: nat, j: nat)
    requires Run(run) && i <= j < |run| && forall k: nat :: i < k <= j ==> !run[k].stop
    ensures (j - i) + Work(run[j]) <= Work(run[i]) + AllAdded(run, i, j)
    decreases j - i
  {
    hide Work;
    hide Added;
    hide Next;
    hide Init;
    if i < j {
      OpenIsBounded(run, i, j - 1);
      RunKeeps(run, j - 1);
      RunStep(run, j - 1);
      OpenStep(run[j - 1], run[j]);
    }
  }

  /** Nobody has anything to do: no call is under way, every worker sleeps, nothing is queued for them. */
  ghost predicate Settled<T>(s: State<T>) {
    && s.dtor == Alive && (s.tasks == [] || |s.workers| == 0)
    && (forall w: nat :: w < |s.workers| ==> s.workers[w] == Blocked)
    && (forall c: nat :: c < |s.clients| ==> s.clients[c] == Idle)
  }

  /** Until then some thread can go on, without counting on spurious wake-ups, new calls or the destructor's begin. */
  lemma OpenNeverHangs<T(!new)>(run: seq<State<T>>, i: nat)
    requires Run(run) && i < |run| && !run[i].stop && !Settled(run[i])
    ensures exists s' :: Progress(run[i], s')
  {
    RunKeeps(run, i);
    OpenCanProgress(run[i]);
  }

  lemma WorkerCanProgress<T>(s: State<T>, w: nat)
    requires Inv(s) && s.owner == None && !s.stop && w < |s.workers| && s.workers[w] != Blocked
    ensures exists s' :: Progress(s, s')
  {
    assert WorkerOk(s, s.workers[w]);
    var s' := if s.workers[w] == Want then SetWorker(s, w, Test).(owner := Some(ByWorker(w)))
              else SetWorker(s, w, Want).(ran := s.ran + Hand(s.workers[w]));
    assert WorkerStep(s, s', w);
    assert Progress(s, s');
  }

  lemma ClientCanProgress<T>(s: State<T>, c: nat)
    requires Inv(s) && s.owner == None && c < |s.clients| && s.clients[c] != Idle
    requires forall w: nat :: w < |s.workers| ==> s.workers[w] == Blocked
    ensures exists s' :: Progress(s, s')
  {
    var moved := SetClient(s, c, Idle);
    var s' := if s.clients[c].Calling? then SetClient(s, c, Checking(s.clients[c].task)).(owner := Some(ByClient(c)))
              else if |s.workers| > 0 then SetWorker(moved, 0, Want) else moved;
    assert ClientStep(s, s', c);
    assert Progress(s, s');
  }

  /** Tasks that are queued while every worker sleeps have a caller that is about to notify. */
  lemma SomeoneNotifies<T>(s: State<T>)
    requires Inv(s) && !s.stop && s.tasks != [] && |s.workers| > 0
    requires forall w: nat :: w < |s.workers| ==> s.workers[w] == Blocked
    ensures exists c: nat :: c < |s.clients| && s.clients[c] != Idle
  {
    assert s.workers[0] == Blocked;
    SumZero(s.workers, AwakeWeight);
    if forall c: nat :: c < |s.clients| ==> s.clients[c] == Idle { SumZero(s.clients, PromiseWeight); }
  }

  lemma OpenCanProgress<T>(s: State<T>)
    requires Inv(s) && !s.stop && !Settled(s)
    ensures exists s' :: Progress(s, s')
  {
    if s.owner.Some? {
      OwnerCanProgress(s);
    } else if s.dtor == WantStop {
      var s' := s.(dtor := Stopping, owner := Some(ByDestructor));
      assert DtorStep(s, s');
      assert Progress(s, s');
    } else if w: nat :| w < |s.workers| && s.workers[w] != Blocked {
      WorkerCanProgress(s, w);
    } else {
      if s.tasks != [] && |s.workers| > 0 { SomeoneNotifies(s); }
      var c: nat :| c < |s.clients| && s.clients[c] != Idle;
      ClientCanProgress(s, c);
    }
  }

  /** And then everything that was ever accepted has been run, once. */
  lemma SettledMeansRun<T(!new)>(run: seq<State<T>>, i: nat)
    requires Run(run) && i < |run| && Settled(run[i]) && |run[i].workers| > 0
    ensures multiset(run[i].ran) == multiset(run[i].accepted) && run[i].tasks == []
  {
    RunKeeps(run, i);
    HandsNone(run[i].workers);
  }
}
