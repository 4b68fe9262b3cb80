/** What every step of the thread pool keeps, and what follows for whole runs. */
module ThreadPoolProofs {
  import opened Options
  import opened Sums
  import opened ThreadPoolMachine

  ghost predicate WorkerHolds<T>(p: Worker<T>) {
    p == Test || p == WillWait || p.Took? || p == Leaving
  }

  ghost predicate ClientHolds<T>(p: Client<T>) {
    p.Checking? || p == Pushed || p == Refusing
  }

  /** Exactly one thread is inside a critical section, and it is the owner. */
  ghost predicate MutexOk<T>(s: State<T>) {
    && (forall w: nat :: w < |s.workers| ==> (s.owner == Some(ByWorker(w)) <==> WorkerHolds(s.workers[w])))
    && (forall c: nat :: c < |s.clients| ==> (s.owner == Some(ByClient(c)) <==> ClientHolds(s.clients[c])))
    && (s.owner == Some(ByDestructor) <==> s.dtor == Stopping || s.dtor == Stopped)
    && (s.owner.Some? && s.owner.value.ByWorker? ==> s.owner.value.w < |s.workers|)
    && (s.owner.Some? && s.owner.value.ByClient? ==> s.owner.value.c < |s.clients|)
  }

  ghost predicate FlagOk<T>(s: State<T>) {
    s.stop <==> s.dtor == Stopped || s.dtor == NotifyAll || s.dtor.Joining? || s.dtor == Gone
  }

  ghost predicate WorkerOk<T>(s: State<T>, p: Worker<T>) {
    && (p == WillWait ==> !s.stop && s.tasks == [])
    && (p == Leaving || p == Done ==> s.stop && s.tasks == [])
  }

  ghost predicate LocalOk<T>(s: State<T>) {
    && (forall w: nat :: w < |s.workers| ==> WorkerOk(s, s.workers[w]))
    && (forall c: nat :: c < |s.clients| && s.clients[c] == Refusing ==> s.stop)
    && (forall c: nat :: c < |s.clients| && s.clients[c] == Pushed ==> !s.stop)
  }

  /** A worker that is awake and about to test the predicate. */
  ghost function AwakeWeight<T>(p: Worker<T>): nat { if p == Want || p == Test then 1 else 0 }

  /** A notify_one that has been promised and not yet given. */
  ghost function PromiseWeight<T>(p: Client<T>): nat { if p == Pushed || p == Notifying then 1 else 0 }

  ghost function Awake<T>(s: State<T>): nat { Sum(s.workers, AwakeWeight) }

  ghost function Promised<T>(s: State<T>): nat { Sum(s.clients, PromiseWeight) }

  /** While a worker sleeps, every queued task has a waker or an awake worker; once the flag is set, a sleeping
      worker means that notify_all is still to come. */
  ghost predicate WakeOk<T>(s: State<T>) {
    forall w: nat :: w < |s.workers| && s.workers[w] == Blocked ==>
      if s.stop then s.dtor == Stopped || s.dtor == NotifyAll else |s.tasks| <= Promised(s) + Awake(s)
  }

  ghost predicate FifoOk<T>(s: State<T>) {
    s.accepted == s.taken + s.tasks
  }

  ghost function Hand<T>(p: Worker<T>): seq<T> {
    if p.Took? || p.Running? then [p.task] else []
  }

  /** Everything popped and not finished. */
  ghost function Hands<T>(ws: seq<Worker<T>>): multiset<T> {
    if ws == [] then multiset{} else multiset(Hand(ws[0])) + Hands(ws[1..])
  }

  ghost predicate RanOk<T>(s: State<T>) {
    && multiset(s.taken) == multiset(s.ran) + Hands(s.workers)
    && (|s.workers| == 1 ==> s.taken == s.ran + Hand(s.workers[0]))
  }

  ghost predicate JoinOk<T>(s: State<T>) {
    && (s.dtor.Joining? ==> s.dtor.joined <= |s.workers| && forall w: nat :: w < s.dtor.joined ==> s.workers[w] == Done)
    && (s.dtor == Gone ==> forall w: nat :: w < |s.workers| ==> s.workers[w] == Done)
  }

  ghost predicate Core<T>(s: State<T>) {
    MutexOk(s) && FlagOk(s) && LocalOk(s) && FifoOk(s) && JoinOk(s)
  }

  ghost predicate Inv<T>(s: State<T>) {
    Core(s) && WakeOk(s) && RanOk(s)
  }

  // ---------------------------------------------------------------------------------------------
  // Counting
  // ---------------------------------------------------------------------------------------------

  lemma MoveAside<T>(a: multiset<T>, h: multiset<T>, o: multiset<T>, p: multiset<T>)
    requires o <= h
    ensures a + (h - o + p) == a + h - o + p && o <= a + h
  {
  }

  lemma {:induction false} HandsUpdate<T>(ws: seq<Worker<T>>, w: nat, p: Worker<T>)
    requires w < |ws|
    ensures multiset(Hand(ws[w])) <= Hands(ws)
    ensures Hands(ws[w := p]) == Hands(ws) - multiset(Hand(ws[w])) + multiset(Hand(p))
  {
    var first, rest := multiset(Hand(ws[0])), ws[1..];
    assert Hands(ws) == first + Hands(rest);
    if w == 0 {
      assert ws[w := p][1..] == rest;
    } else {
      assert ws[w := p][1..] == rest[w - 1 := p];
      assert Hands(ws[w := p]) == first + Hands(rest[w - 1 := p]);
      HandsUpdate(rest, w - 1, p);
      MoveAside(first, Hands(rest), multiset(Hand(ws[w])), multiset(Hand(p)));
    }
  }

  lemma {:induction false} HandsSame<T>(ws: seq<Worker<T>>, vs: seq<Worker<T>>)
    requires |ws| == |vs| && forall w :: 0 <= w < |ws| ==> Hand(ws[w]) == Hand(vs[w])
    ensures Hands(ws) == Hands(vs)
  {
    if ws != [] { HandsSame(ws[1..], vs[1..]); }
  }

  lemma {:induction false} HandsNone<T>(ws: seq<Worker<T>>)
    requires forall w :: 0 <= w < |ws| ==> Hand(ws[w]) == []
    ensures Hands(ws) == multiset{}
  {
    if ws != [] { HandsNone(ws[1..]); }
  }

  /** No task changes hands. */
  lemma RanSame<T>(s: State<T>, s': State<T>)
    requires RanOk(s) && s'.taken == s.taken && s'.ran == s.ran && |s'.workers| == |s.workers|
    requires forall w: nat :: w < |s.workers| ==> Hand(s'.workers[w]) == Hand(s.workers[w])
    ensures RanOk(s')
  {
    HandsSame(s'.workers, s.workers);
  }

  /** Worker w pops t. */
  lemma RanTake<T>(s: State<T>, s': State<T>, w: nat, t: T)
    requires RanOk(s) && w < |s.workers| && Hand(s.workers[w]) == []
    requires s'.workers == s.workers[w := Took(t)] && s'.taken == s.taken + [t] && s'.ran == s.ran
    ensures RanOk(s')
  {
    HandsUpdate(s.workers, w, Took(t));
    assert multiset(s'.taken) == multiset(s.taken) + multiset([t]);
    assert s'.taken == s.ran + Hand(s.workers[w]) + [t] || |s.workers| != 1;
  }

  /** Worker w finishes its task. */
  lemma RanFinish<T>(s: State<T>, s': State<T>, w: nat)
    requires RanOk(s) && w < |s.workers| && s.workers[w].Running?
    requires s'.workers == s.workers[w := Want] && s'.taken == s.taken && s'.ran == s.ran + [s.workers[w].task]
    ensures RanOk(s')
  {
    var m := multiset(Hand(s.workers[w]));
    HandsUpdate(s.workers, w, Want);
    assert multiset(s'.ran) == multiset(s.ran) + m;
    assert Hands(s'.workers) == Hands(s.workers) - m;
    assert multiset(s.ran) + m + (Hands(s.workers) - m) == multiset(s.ran) + Hands(s.workers);
  }

  /** Worker w moves, and each queued task keeps its waker. */
  lemma WakeWorker<T>(s: State<T>, s': State<T>, w: nat, p: Worker<T>)
    requires WakeOk(s) && w < |s.workers| && s'.workers == s.workers[w := p]
    requires s'.clients == s.clients && s'.stop == s.stop && s'.dtor == s.dtor
    requires p == Blocked ==> !s.stop && s'.tasks == []
    requires s'.tasks == [] || |s'.tasks| + AwakeWeight(s.workers[w]) <= |s.tasks| + AwakeWeight(p)
    ensures WakeOk(s')
  {
    SumUpdate(s.workers, w, p, AwakeWeight);
    forall v: nat | v < |s'.workers| && s'.workers[v] == Blocked
      ensures if s'.stop then s'.dtor == Stopped || s'.dtor == NotifyAll
              else |s'.tasks| <= Promised(s') + Awake(s')
    {
      if v != w { assert s.workers[v] == Blocked; }
    }
  }

  /** A caller moves, and brings a promise for each task it adds. */
  lemma WakeClient<T>(s: State<T>, s': State<T>, c: nat, p: Client<T>)
    requires WakeOk(s) && c < |s.clients| && s'.clients == s.clients[c := p]
    requires s'.workers == s.workers && s'.stop == s.stop && s'.dtor == s.dtor
    requires |s'.tasks| + PromiseWeight(s.clients[c]) <= |s.tasks| + PromiseWeight(p)
    ensures WakeOk(s')
  {
    SumUpdate(s.clients, c, p, PromiseWeight);
    forall v: nat | v < |s'.workers| && s'.workers[v] == Blocked
      ensures if s'.stop then s'.dtor == Stopped || s'.dtor == NotifyAll
              else |s'.tasks| <= Promised(s') + Awake(s')
    {
      assert s.workers[v] == Blocked;
    }
  }

  // ---------------------------------------------------------------------------------------------
  // Every step keeps the invariant
  // ---------------------------------------------------------------------------------------------

  lemma InitKeeps<T>(s: State<T>)
    requires Init(s)
    ensures Inv(s)
  {
    HandsNone(s.workers);
  }

  lemma LockCore<T>(s: State<T>, s': State<T>, w: nat)
    requires Core(s) && w < |s.workers| && WorkerLock(s, s', w)
    ensures Core(s')
  {
    forall v: nat | v < |s'.workers| ensures WorkerOk(s', s'.workers[v]) { assert WorkerOk(s, s.workers[v]); }
  }

  lemma TestCore<T>(s: State<T>, s': State<T>, w: nat)
    requires Core(s) && w < |s.workers| && WorkerTest(s, s', w)
    ensures Core(s')
  {
    forall v: nat | v < |s'.workers| ensures WorkerOk(s', s'.workers[v]) { assert WorkerOk(s, s.workers[v]); }
    var d := Decide(s.tasks, s.stop);
    if d.Take? { assert s'.taken + s'.tasks == s.taken + ([d.task] + d.rest); }
  }

  lemma SleepCore<T>(s: State<T>, s': State<T>, w: nat)
    requires Core(s) && w < |s.workers| && WorkerSleep(s, s', w)
    ensures Core(s')
  {
    forall v: nat | v < |s'.workers| ensures WorkerOk(s', s'.workers[v]) { assert WorkerOk(s, s.workers[v]); }
  }

  lemma UnlockCore<T>(s: State<T>, s': State<T>, w: nat)
    requires Core(s) && w < |s.workers| && WorkerUnlock(s, s', w)
    ensures Core(s')
  {
    forall v: nat | v < |s'.workers| ensures WorkerOk(s', s'.workers[v]) { assert WorkerOk(s, s.workers[v]); }
  }

  lemma RunCore<T>(s: State<T>, s': State<T>, w: nat)
    requires Core(s) && w < |s.workers| && WorkerRun(s, s', w)
    ensures Core(s')
  {
    forall v: nat | v < |s'.workers| ensures WorkerOk(s', s'.workers[v]) { assert WorkerOk(s, s.workers[v]); }
  }

  lemma SpuriousCore<T>(s: State<T>, s': State<T>, w: nat)
    requires Core(s) && w < |s.workers| && SpuriousWakeup(s, s', w)
    ensures Core(s')
  {
    forall v: nat | v < |s'.workers| ensures WorkerOk(s', s'.workers[v]) { assert WorkerOk(s, s.workers[v]); }
  }

  lemma WorkerCore<T>(s: State<T>, s': State<T>, w: nat)
    requires Core(s) && w < |s.workers|
    requires WorkerStep(s, s', w) || SpuriousWakeup(s, s', w)
    ensures Core(s')
  {
    if WorkerLock(s, s', w) { LockCore(s, s', w); }
    else if WorkerTest(s, s', w) { TestCore(s, s', w); }
    else if WorkerSleep(s, s', w) { SleepCore(s, s', w); }
    else if WorkerUnlock(s, s', w) { UnlockCore(s, s', w); }
    else if WorkerRun(s, s', w) { RunCore(s, s', w); }
    else { SpuriousCore(s, s', w); }
  }

  lemma WorkerWake<T>(s: State<T>, s': State<T>, w: nat)
    requires Core(s) && WakeOk(s) && w < |s.workers|
    requires WorkerStep(s, s', w) || SpuriousWakeup(s, s', w)
    ensures WakeOk(s')
  {
    assert WorkerOk(s, s.workers[w]);
    WakeWorker(s, s', w, s'.workers[w]);
  }

  lemma WorkerRan<T>(s: State<T>, s': State<T>, w: nat)
    requires RanOk(s) && w < |s.workers|
    requires WorkerStep(s, s', w) || SpuriousWakeup(s, s', w)
    ensures RanOk(s')
  {
    if s.workers[w] == Test && Decide(s.tasks, s.stop).Take? {
      RanTake(s, s', w, Decide(s.tasks, s.stop).task);
    } else if s.workers[w].Running? {
      RanFinish(s, s', w);
    } else {
      RanSame(s, s');
    }
  }

  lemma WorkerKeeps<T>(s: State<T>, s': State<T>, w: nat)
    requires Inv(s) && w < |s.workers|
    requires WorkerStep(s, s', w) || SpuriousWakeup(s, s', w)
    ensures Inv(s')
  {
    WorkerCore(s, s', w);
    WorkerWake(s, s', w);
    WorkerRan(s, s', w);
  }

  lemma ClientCore<T>(s: State<T>, s': State<T>, c: nat)
    requires Core(s) && c < |s.clients|
    requires ClientLock(s, s', c) || ClientCheck(s, s', c) || ClientUnlock(s, s', c)
    ensures Core(s')
  {
    assert ClientCheck(s, s', c) && !s.stop ==> s'.taken + s'.tasks == s'.accepted;
    forall w: nat | w < |s'.workers| ensures WorkerOk(s', s'.workers[w]) { assert WorkerOk(s, s.workers[w]); }
  }

  lemma ClientKeeps<T>(s: State<T>, s': State<T>, c: nat)
    requires Inv(s) && c < |s.clients|
    requires ClientLock(s, s', c) || ClientCheck(s, s', c) || ClientUnlock(s, s', c)
    ensures Inv(s')
  {
    ClientCore(s, s', c);
    WakeClient(s, s', c, s'.clients[c]);
    RanSame(s, s');
  }

  lemma ClientCallKeeps<T>(s: State<T>, s': State<T>, c: nat, task: T)
    requires Inv(s) && c < |s.clients| && ClientCall(s, s', c, task)
    ensures Inv(s')
  {
    WakeClient(s, s', c, s'.clients[c]);
    RanSame(s, s');
  }

  lemma ClientWakesCore<T>(s: State<T>, s': State<T>, c: nat, w: nat)
    requires Core(s) && c < |s.clients| && w < |s.workers| && s.clients[c] == Notifying && s.workers[w] == Blocked
    requires s' == SetWorker(SetClient(s, c, Idle), w, Want)
    ensures Core(s')
  {
  }

  /** notify_one wakes worker w on behalf of caller c. */
  lemma ClientWakes<T>(s: State<T>, s': State<T>, c: nat, w: nat)
    requires Inv(s) && c < |s.clients| && w < |s.workers| && s.clients[c] == Notifying && s.workers[w] == Blocked
    requires s' == SetWorker(SetClient(s, c, Idle), w, Want)
    ensures Inv(s')
  {
    SumUpdate(s.clients, c, Idle, PromiseWeight);
    SumUpdate(s.workers, w, Want, AwakeWeight);
    RanSame(s, s');
    ClientWakesCore(s, s', c, w);
    hide Core;
    hide RanOk;
    forall v: nat | v < |s'.workers| && s'.workers[v] == Blocked
      ensures if s'.stop then s'.dtor == Stopped || s'.dtor == NotifyAll
              else |s'.tasks| <= Promised(s') + Awake(s')
    {
      assert s.workers[v] == Blocked;
    }
  }

  lemma ClientNotifyKeeps<T>(s: State<T>, s': State<T>, c: nat)
    requires Inv(s) && c < |s.clients| && ClientNotify(s, s', c)
    ensures Inv(s')
  {
    if exists w :: 0 <= w < |s.workers| && s.workers[w] == Blocked {
      var w: nat :| w < |s.workers| && s.workers[w] == Blocked && s' == SetWorker(SetClient(s, c, Idle), w, Want);
      ClientWakes(s, s', c, w);
    } else {
      RanSame(s, s');
    }
  }

  /** The destructor's steps but for notify_all leave workers, clients and tasks alone. */
  ghost predicate DtorMoves<T>(s: State<T>, s': State<T>) {
    DtorBegin(s, s') || DtorLock(s, s') || DtorSet(s, s') || DtorUnlock(s, s') || DtorJoin(s, s')
  }

  lemma DtorCore<T>(s: State<T>, s': State<T>)
    requires Core(s) && DtorMoves(s, s')
    ensures Core(s')
  {
    forall w: nat | w < |s'.workers| ensures WorkerOk(s', s'.workers[w]) { assert WorkerOk(s, s.workers[w]); }
  }

  lemma DtorWake<T>(s: State<T>, s': State<T>)
    requires Core(s) && WakeOk(s) && DtorMoves(s, s')
    ensures WakeOk(s') && s'.workers == s.workers && s'.taken == s.taken && s'.ran == s.ran
  {
    hide LocalOk;
    hide MutexOk;
  }

  lemma DtorKeeps<T>(s: State<T>, s': State<T>)
    requires Inv(s) && DtorMoves(s, s')
    ensures Inv(s')
  {
    DtorCore(s, s');
    DtorWake(s, s');
    RanSame(s, s');
  }

  lemma DtorNotifyKeeps<T>(s: State<T>, s': State<T>)
    requires Inv(s) && DtorNotify(s, s')
    ensures Inv(s')
  {
    RanSame(s, s');
    forall w: nat | w < |s'.workers| ensures WorkerOk(s', s'.workers[w]) { assert WorkerOk(s, s.workers[w]); }
  }

  lemma ProgressKeeps<T>(s: State<T>, s': State<T>)
    requires Inv(s) && Progress(s, s')
    ensures Inv(s')
  {
    if w: nat :| w < |s.workers| && WorkerStep(s, s', w) {
      WorkerKeeps(s, s', w);
    } else if c: nat :| c < |s.clients| && ClientStep(s, s', c) {
      if ClientNotify(s, s', c) { ClientNotifyKeeps(s, s', c); } else { ClientKeeps(s, s', c); }
    } else if DtorNotify(s, s') {
      DtorNotifyKeeps(s, s');
    } else {
      DtorKeeps(s, s');
    }
  }

  lemma StepKeeps<T(!new)>(s: State<T>, s': State<T>)
    requires Inv(s) && Next(s, s')
    ensures Inv(s')
  {
    if Progress(s, s') {
      ProgressKeeps(s, s');
    } else if c: nat, task :| c < |s.clients| && ClientCall(s, s', c, task) {
      ClientCallKeeps(s, s', c, task);
    } else if w: nat :| w < |s.workers| && SpuriousWakeup(s, s', w) {
      WorkerKeeps(s, s', w);
    } else {
      DtorKeeps(s, s');
    }
  }

  lemma RunStep<T(!new)>(run: seq<State<T>>, i: nat)
    requires Run(run) && i + 1 < |run|
    ensures Next(run[i], run[i + 1])
  {
    assert StepAt(run, i);
  }

  lemma {:induction false} RunKeeps<T(!new)>(run: seq<State<T>>, i: nat)
    requires Run(run) && i < |run|
    ensures Inv(run[i])
  {
    if i == 0 {
      InitKeeps(run[0]);
    } else {
      RunKeeps(run, i - 1);
      RunStep(run, i - 1);
      StepKeeps(run[i - 1], run[i]);
    }
  }

  // ---------------------------------------------------------------------------------------------
  // Wake-ups
  // ---------------------------------------------------------------------------------------------

  /** While the pool is open and some worker sleeps, there are at least as many promised notifications and
      awake workers about to test the queue as there are queued tasks. */
  lemma NoLostWakeup<T(!new)>(run: seq<State<T>>, i: nat, w: nat)
    requires Run(run) && i < |run| && w < |run[i].workers| && run[i].workers[w] == Blocked
    ensures !run[i].stop ==> |run[i].tasks| <= Promised(run[i]) + Awake(run[i])
    ensures run[i].stop ==> run[i].dtor == Stopped || run[i].dtor == NotifyAll
  {
    RunKeeps(run, i);
  }

  /** A queued task is never left to sleepers alone: some thread is on its way to it. */
  lemma QueuedTaskIsAttended<T(!new)>(run: seq<State<T>>, i: nat)
    requires Run(run) && i < |run| && run[i].tasks != [] && |run[i].workers| > 0 && !run[i].stop
    ensures || (exists w: nat :: w < |run[i].workers| && run[i].workers[w] != Blocked && run[i].workers[w] != Done)
            || (exists c: nat ::
                  c < |run[i].clients| && (run[i].clients[c] == Pushed || run[i].clients[c] == Notifying))
  {
    RunKeeps(run, i);
    var s := run[i];
    if s.workers[0] == Blocked {
      if forall c: nat :: c < |s.clients| ==> PromiseWeight(s.clients[c]) == 0 {
        SumZero(s.clients, PromiseWeight);
        if forall w: nat :: w < |s.workers| ==> AwakeWeight(s.workers[w]) == 0 { SumZero(s.workers, AwakeWeight); }
      }
    } else {
      assert WorkerOk(s, s.workers[0]);
    }
  }

  /** The mutex is what closes the gap between a false predicate and sleeping: nothing can be pushed, and the
      flag cannot be set, while a worker is in it. */
  lemma NothingSlipsIn<T(!new)>(run: seq<State<T>>, i: nat, w: nat, c: nat)
    requires Run(run) && i < |run| && w < |run[i].workers| && run[i].workers[w] == WillWait && c < |run[i].clients|
    ensures run[i].tasks == [] && !run[i].stop
    ensures !run[i].clients[c].Checking? && run[i].dtor != Stopping
  {
    RunKeeps(run, i);
    assert WorkerOk(run[i], run[i].workers[w]);
  }

  // ---------------------------------------------------------------------------------------------
  // Exactly once
  // ---------------------------------------------------------------------------------------------

  /** Tasks are taken in the order in which they were accepted, none twice and none skipped, and each taken task
      is finished or in the hands of exactly one worker. */
  lemma TakenInOrderOnce<T(!new)>(run: seq<State<T>>, i: nat)
    requires Run(run) && i < |run|
    ensures run[i].accepted == run[i].taken + run[i].tasks
    ensures multiset(run[i].accepted) == multiset(run[i].ran) + Hands(run[i].workers) + multiset(run[i].tasks)
  {
    RunKeeps(run, i);
  }

  /** Once the flag is set nothing more is accepted. */
  lemma NothingAcceptedAfterStop<T(!new)>(run: seq<State<T>>, i: nat)
    requires Run(run) && i + 1 < |run| && run[i].stop
    ensures run[i + 1].stop && run[i + 1].accepted == run[i].accepted
  {
    RunStep(run, i);
    RunKeeps(run, i);
    StopIsFinal(run[i], run[i + 1]);
  }

  lemma StopIsFinal<T(!new)>(s: State<T>, s': State<T>)
    requires FlagOk(s) && s.stop && Next(s, s')
    ensures s'.stop && s'.accepted == s.accepted
  {
  }

  /** A worker ends only with the flag set and the queue drained. */
  lemma WorkersEndDrained<T(!new)>(run: seq<State<T>>, i: nat, w: nat)
    requires Run(run) && i < |run| && w < |run[i].workers| && run[i].workers[w] == Done
    ensures run[i].stop && run[i].tasks == []
  {
    RunKeeps(run, i);
    assert WorkerOk(run[i], run[i].workers[w]);
  }

  /** When the destructor is done, a pool with at least one worker has run every accepted task exactly once. */
  lemma DestroyedMeansDrained<T(!new)>(run: seq<State<T>>, i: nat)
    requires Run(run) && i < |run| && run[i].dtor == Gone && |run[i].workers| > 0
    ensures multiset(run[i].ran) == multiset(run[i].accepted)
    ensures run[i].taken == run[i].accepted
  {
    RunKeeps(run, i);
    var s := run[i];
    assert WorkerOk(s, s.workers[0]);
    HandsNone(s.workers);
  }

  /** The server's pool has one worker; there tasks also finish in the order in which they were accepted. */
  lemma OneWorkerRunsInOrder<T(!new)>(run: seq<State<T>>, i: nat)
    requires Run(run) && i < |run| && |run[i].workers| == 1
    ensures run[i].ran <= run[i].accepted
    ensures run[i].dtor == Gone ==> run[i].ran == run[i].accepted
  {
    RunKeeps(run, i);
    var s := run[i];
    assert s.accepted == s.ran + (Hand(s.workers[0]) + s.tasks);
    if s.dtor == Gone { assert WorkerOk(s, s.workers[0]); }
  }

  /** Without workers the same does not hold: an accepted task is never run. */
  lemma NoWorkersRunNothing<T(!new)>(run: seq<State<T>>, i: nat)
    requires Run(run) && i < |run| && |run[i].workers| == 0
    ensures run[i].ran == [] && run[i].tasks == run[i].accepted
  {
    RunKeeps(run, i);
    assert |multiset(run[i].taken)| == 0 by { NothingTaken(run, i); }
  }

  /** When the destructor is done, everything accepted has been run exactly when there was a worker or nothing was
      accepted. */
  lemma DrainedExactly<T(!new)>(run: seq<State<T>>, i: nat)
    requires Run(run) && i < |run| && run[i].dtor == Gone
    ensures multiset(run[i].ran) == multiset(run[i].accepted) <==> |run[i].workers| > 0 || run[i].accepted == []
  {
    if |run[i].workers| > 0 {
      DestroyedMeansDrained(run, i);
    } else {
      NoWorkersRunNothing(run, i);
      assert |multiset(run[i].accepted)| == |run[i].accepted|;
    }
  }

  lemma {:induction false} NothingTaken<T(!new)>(run: seq<State<T>>, i: nat)
    requires Run(run) && i < |run| && |run[i].workers| == 0
    ensures run[i].taken == [] && run[i].ran == []
  {
    if i > 0 {
      RunStep(run, i - 1);
      SameWorkers(run[i - 1], run[i]);
      NothingTaken(run, i - 1);
    }
  }

  lemma WorkerStepSame<T>(s: State<T>, s': State<T>, w: nat)
    requires w < |s.workers| && (WorkerStep(s, s', w) || SpuriousWakeup(s, s', w))
    ensures |s'.workers| == |s.workers|
  {
  }

  lemma ClientStepSame<T>(s: State<T>, s': State<T>, c: nat)
    requires c < |s.clients| && ClientStep(s, s', c)
    ensures |s'.workers| == |s.workers| && s'.taken == s.taken && s'.ran == s.ran
  {
  }

  lemma SameWorkers<T(!new)>(s: State<T>, s': State<T>)
    requires Next(s, s')
    ensures |s'.workers| == |s.workers|
    ensures |s.workers| == 0 ==> s'.taken == s.taken && s'.ran == s.ran
  {
    hide WorkerStep;
    hide ClientStep;
    hide SpuriousWakeup;
    if w: nat :| w < |s.workers| && (WorkerStep(s, s', w) || SpuriousWakeup(s, s', w)) {
      WorkerStepSame(s, s', w);
    } else if c: nat :| c < |s.clients| && ClientStep(s, s', c) {
      ClientStepSame(s, s', c);
    }
  }

  // ---------------------------------------------------------------------------------------------
  // Shutdown
  // ---------------------------------------------------------------------------------------------

  ghost function WorkerRank<T>(p: Worker<T>): nat {
    match p
    case Took(_) => 5
    case WillWait => 5
    case Running(_) => 4
    case Blocked => 4
    case Want => 3
    case Test => 2
    case Leaving => 1
    case Done => 0
  }

  ghost function ClientRank<T>(p: Client<T>): nat {
    match p
    case Calling(_) => 4
    case Checking(_) => 3
    case Pushed => 2
    case Refusing => 1
    case Notifying => 1
    case Idle => 0
  }

  ghost function DtorRank(d: Destructor, workers: nat): nat {
    match d
    case Alive => workers + 8
    case WantStop => workers + 7
    case Stopping => workers + 6
    case Stopped => workers + 5
    case NotifyAll => workers + 4
    case Joining(k) => if k <= workers then workers - k + 1 else 1
    case Gone => 0
  }

  /** Once the flag is set, no worker goes to sleep again. */
  lemma NoneSleepsAgain<T(!new)>(run: seq<State<T>>, i: nat, w: nat)
    requires Run(run) && i + 1 < |run| && run[i].stop && w < |run[i].workers| && run[i].workers[w] != Blocked
    ensures w < |run[i + 1].workers| && run[i + 1].workers[w] != Blocked
  {
    RunKeeps(run, i);
    RunStep(run, i);
    AwakeStays(run[i], run[i + 1], w);
  }

  lemma AwakeStays<T(!new)>(s: State<T>, s': State<T>, w: nat)
    requires LocalOk(s) && Next(s, s') && s.stop && w < |s.workers| && s.workers[w] != Blocked
    ensures w < |s'.workers| && s'.workers[w] != Blocked
  {
    assert WorkerOk(s, s.workers[w]);
    if v: nat :| v < |s.workers| && (WorkerStep(s, s', v) || SpuriousWakeup(s, s', v)) {
      WorkerStepSame(s, s', v);
    } else if c: nat :| c < |s.clients| && ClientStep(s, s', c) {
      ClientStepSame(s, s', c);
    }
  }

  /** How much is left to do. */
  ghost function Measure<T>(s: State<T>): nat {
    4 * |s.tasks| + Sum(s.workers, WorkerRank) + Sum(s.clients, ClientRank) + DtorRank(s.dtor, |s.workers|)
  }

  /** Once the flag is set, every step but a new call of enqueue leaves strictly less to do. */
  lemma ShutdownStep<T(!new)>(s: State<T>, s': State<T>)
    requires Inv(s) && s.stop && Next(s, s')
    ensures s'.stop
    ensures Measure(s') + 1 <= Measure(s) + (if NewCall(s, s') then 5 else 0)
  {
    if Progress(s, s') {
      assert s'.stop && Measure(s') < Measure(s) by { ShutdownProgress(s, s'); }
    } else if c: nat, task :| c < |s.clients| && ClientCall(s, s', c, task) {
      SumUpdate(s.clients, c, s'.clients[c], ClientRank);
    } else if w: nat :| w < |s.workers| && SpuriousWakeup(s, s', w) {
      ShutdownWorker(s, s', w);
    }
  }

  lemma ShutdownNotifyAll<T>(s: State<T>, s': State<T>)
    requires s.stop && DtorNotify(s, s')
    ensures s'.stop && Measure(s') < Measure(s)
  {
    SumBelow(s'.workers, WorkerRank, s.workers, WorkerRank);
  }

  lemma ShutdownDtor<T>(s: State<T>, s': State<T>)
    requires FlagOk(s) && JoinOk(s) && s.stop && DtorStep(s, s')
    ensures s'.stop && Measure(s') < Measure(s)
  {
    if DtorNotify(s, s') {
      ShutdownNotifyAll(s, s');
    } else {
      assert s'.workers == s.workers && s'.clients == s.clients && s'.tasks == s.tasks;
    }
  }

  lemma ShutdownProgress<T>(s: State<T>, s': State<T>)
    requires Inv(s) && s.stop && Progress(s, s')
    ensures s'.stop && Measure(s') < Measure(s)
  {
    if w: nat :| w < |s.workers| && WorkerStep(s, s', w) {
      ShutdownWorker(s, s', w);
    } else if c: nat :| c < |s.clients| && ClientStep(s, s', c) {
      ShutdownClient(s, s', c);
    } else {
      ShutdownDtor(s, s');
    }
  }

  lemma WorkerRankDrops<T>(s: State<T>, s': State<T>, w: nat)
    requires LocalOk(s) && s.stop && w < |s.workers| && (WorkerStep(s, s', w) || SpuriousWakeup(s, s', w))
    ensures |s'.workers| == |s.workers| && s'.workers == s.workers[w := s'.workers[w]]
    ensures s'.stop && s'.clients == s.clients && s'.dtor == s.dtor
    ensures 4 * |s'.tasks| + WorkerRank(s'.workers[w]) < 4 * |s.tasks| + WorkerRank(s.workers[w])
  {
    assert WorkerOk(s, s.workers[w]);
  }

  lemma ShutdownWorker<T>(s: State<T>, s': State<T>, w: nat)
    requires LocalOk(s) && s.stop && w < |s.workers| && (WorkerStep(s, s', w) || SpuriousWakeup(s, s', w))
    ensures s'.stop && Measure(s') < Measure(s)
  {
    WorkerRankDrops(s, s', w);
    SumUpdate(s.workers, w, s'.workers[w], WorkerRank);
  }

  lemma ShutdownNotify<T>(s: State<T>, s': State<T>, c: nat)
    requires s.stop && c < |s.clients| && ClientNotify(s, s', c)
    ensures s'.stop && Measure(s') < Measure(s)
  {
    SumUpdate(s.clients, c, Idle, ClientRank);
    if exists w :: 0 <= w < |s.workers| && s.workers[w] == Blocked {
      var w: nat :| w < |s.workers| && s.workers[w] == Blocked && s' == SetWorker(SetClient(s, c, Idle), w, Want);
      SumUpdate(s.workers, w, Want, WorkerRank);
    }
  }

  lemma ShutdownClient<T>(s: State<T>, s': State<T>, c: nat)
    requires s.stop && c < |s.clients| && ClientStep(s, s', c)
    ensures s'.stop && Measure(s') < Measure(s)
  {
    if ClientNotify(s, s', c) {
      ShutdownNotify(s, s', c);
    } else {
      SumUpdate(s.clients, c, s'.clients[c], ClientRank);
    }
  }

  /** The number of new calls in a stretch of a run. */
  ghost function Calls<T(!new)>(run: seq<State<T>>, i: nat, j: nat): nat
    requires i <= j < |run|
    decreases j - i
  {
    if i == j then 0 else Calls(run, i, j - 1) + (if NewCall(run[j - 1], run[j]) then 1 else 0)
  }

  lemma ShutdownRunStep<T(!new)>(run: seq<State<T>>, i: nat)
    requires Run(run) && i + 1 < |run| && run[i].stop
    ensures run[i + 1].stop
    ensures Measure(run[i + 1]) + 1 <= Measure(run[i]) + (if NewCall(run[i], run[i + 1]) then 5 else 0)
  {
    RunKeeps(run, i);
    RunStep(run, i);
    ShutdownStep(run[i], run[i + 1]);
  }

  /** After the flag is set a run has a bounded number of steps left, five more for each new call. */
  lemma {:induction false} ShutdownIsBounded<T(!new)>(run: seq<State<T>>, i: nat, j: nat)
    requires Run(run) && i <= j < |run| && run[i].stop
    ensures run[j].stop
    ensures (j - i) + Measure(run[j]) <= Measure(run[i]) + 5 * Calls(run, i, j)
    decreases j - i
  {
    if i < j {
      ShutdownIsBounded(run, i, j - 1);
      ShutdownRunStep(run, j - 1);
    }
  }

  /** Everyone has finished: all workers have ended, the destructor has returned, no enqueue is under way. */
  ghost predicate Finished<T>(s: State<T>) {
    && s.dtor == Gone
    && (forall w: nat :: w < |s.workers| ==> s.workers[w] == Done)
    && (forall c: nat :: c < |s.clients| ==> s.clients[c] == Idle)
  }

  /** Once the flag is set, as long as anything is left to do some thread can go on, without counting on spurious
      wake-ups or new calls. With the bound above: every shutdown ends, and ends with all joins returned. */
  lemma ShutdownNeverHangs<T(!new)>(run: seq<State<T>>, i: nat)
    requires Run(run) && i < |run| && run[i].stop && !Finished(run[i])
    ensures exists s' :: Progress(run[i], s')
  {
    RunKeeps(run, i);
    CanProgress(run[i]);
  }

  lemma OwnerCanProgress<T>(s: State<T>)
    requires Inv(s) && s.owner.Some?
    ensures exists s' :: Progress(s, s')
  {
    match s.owner.value
    case ByWorker(w) =>
      var p, d := s.workers[w], Decide(s.tasks, s.stop);
      var s' := if p == Test then
                  if d.Sleep? then SetWorker(s, w, WillWait)
                  else if d.Quit? then SetWorker(s, w, Leaving)
                  else SetWorker(s, w, Took(d.task)).(tasks := d.rest, taken := s.taken + [d.task])
                else if p == WillWait then SetWorker(s, w, Blocked).(owner := None)
                else if p.Took? then SetWorker(s, w, Running(p.task)).(owner := None)
                else SetWorker(s, w, Done).(owner := None);
      assert WorkerStep(s, s', w);
      assert Progress(s, s');
    case ByClient(c) =>
      var p := s.clients[c];
      var s' := if p.Checking? then
                  if s.stop then SetClient(s, c, Refusing)
                  else SetClient(s, c, Pushed).(tasks := s.tasks + [p.task], accepted := s.accepted + [p.task])
                else if p == Pushed then SetClient(s, c, Notifying).(owner := None)
                else SetClient(s, c, Idle).(owner := None);
      assert ClientStep(s, s', c);
      assert Progress(s, s');
    case ByDestructor =>
      var s' := if s.dtor == Stopping then s.(dtor := Stopped, stop := true) else s.(dtor := NotifyAll, owner := None);
      assert DtorStep(s, s');
      assert Progress(s, s');
  }

  lemma CanProgress<T>(s: State<T>)
    requires Inv(s) && s.stop && !Finished(s)
    ensures exists s' :: Progress(s, s')
  {
    if s.owner.Some? {
      OwnerCanProgress(s);
    } else if s.dtor == NotifyAll {
      var s' := s.(dtor := Joining(0), workers := Awakened(s.workers));
      assert DtorStep(s, s');
      assert Progress(s, s');
    } else if w: nat :| w < |s.workers| && s.workers[w] != Done {
      var s' := if s.workers[w] == Want then SetWorker(s, w, Test).(owner := Some(ByWorker(w)))
                else SetWorker(s, w, Want).(ran := s.ran + Hand(s.workers[w]));
      assert WorkerStep(s, s', w);
      assert Progress(s, s');
    } else if c: nat :| c < |s.clients| && s.clients[c] != Idle {
      var s' := if s.clients[c].Calling? then SetClient(s, c, Checking(s.clients[c].task)).(owner := Some(ByClient(c)))
                else SetClient(s, c, Idle);
      assert ClientStep(s, s', c);
      assert Progress(s, s');
    } else {
      var s' := if s.dtor.joined < |s.workers| then s.(dtor := Joining(s.dtor.joined + 1)) else s.(dtor := Gone);
      assert DtorStep(s, s');
      assert Progress(s, s');
    }
  }
}
