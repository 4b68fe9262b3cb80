/**
 What becomes of the tasks that callers pass to enqueue, told by where the callers stand before and after each step:
 every task is accepted as it was passed, refused, or still on its way, once.
 */
module ThreadPoolAccounts {
  import opened ThreadPoolMachine
  import ThreadPoolProofs

  /** The task that a caller holds and that is not decided on yet. */
  ghost function Pending<T>(p: Client<T>): multiset<T> {
    if p.Calling? || p.Checking? then multiset{p.task} else multiset{}
  }

  /** The task with which a caller begins a call. */
  ghost function Passed<T>(p: Client<T>, p': Client<T>): multiset<T> {
    if p.Idle? && p'.Calling? then multiset{p'.task} else multiset{}
  }

  /** The task that is pushed when a caller gets from the test of the flag to the notification. */
  ghost function Pushing<T>(p: Client<T>, p': Client<T>): multiset<T> {
    if p.Checking? && p'.Pushed? then multiset{p.task} else multiset{}
  }

  /** The task of a call that throws. */
  ghost function Refused<T>(p: Client<T>, p': Client<T>): multiset<T> {
    if p.Checking? && p'.Refusing? then multiset{p.task} else multiset{}
  }

  // ---------------------------------------------------------------------------------------------
  // One step
  // ---------------------------------------------------------------------------------------------

  /** Whatever step it is: the callers that are not in it stay where they are, the one that is in it goes one way. */
  ghost predicate OneCaller<T>(s: State<T>, s': State<T>, c: nat) {
    && c < |s.clients| == |s'.clients| && s'.clients == s.clients[c := s'.clients[c]]
    && var p, p' := s.clients[c], s'.clients[c];
    && Pending(p') + Pushing(p, p') + Refused(p, p') == Pending(p) + Passed(p, p')
    && (if p.Checking? && p'.Pushed?
        then !s.stop && s'.accepted == s.accepted + [p.task] && s'.tasks == s.tasks + [p.task]
        else s'.accepted == s.accepted)
    && (p.Checking? && p'.Refusing? ==> s.stop)
    && (p.Checking? ==> p' == p || p'.Pushed? || p'.Refusing?)
  }

  ghost predicate NoCaller<T>(s: State<T>, s': State<T>) {
    s'.clients == s.clients && s'.accepted == s.accepted
  }

  lemma StepOfWorker<T>(s: State<T>, s': State<T>, w: nat)
    requires w < |s.workers| && (WorkerStep(s, s', w) || SpuriousWakeup(s, s', w))
    ensures NoCaller(s, s')
  {
  }

  lemma StepOfDestructor<T>(s: State<T>, s': State<T>)
    requires DtorStep(s, s') || DtorBegin(s, s')
    ensures NoCaller(s, s')
  {
  }

  lemma LockStep<T>(s: State<T>, s': State<T>, c: nat)
    requires c < |s.clients| && ClientLock(s, s', c)
    ensures OneCaller(s, s', c)
  {
  }

  lemma CheckStep<T>(s: State<T>, s': State<T>, c: nat)
    requires c < |s.clients| && ClientCheck(s, s', c)
    ensures OneCaller(s, s', c)
  {
  }

  lemma UnlockStep<T>(s: State<T>, s': State<T>, c: nat)
    requires c < |s.clients| && ClientUnlock(s, s', c)
    ensures OneCaller(s, s', c)
  {
  }

  lemma NotifyStep<T>(s: State<T>, s': State<T>, c: nat)
    requires c < |s.clients| && ClientNotify(s, s', c)
    ensures OneCaller(s, s', c)
  {
    assert s'.clients == s.clients[c := Idle] && s'.accepted == s.accepted;
  }

  lemma StepInCall<T>(s: State<T>, s': State<T>, c: nat)
    requires c < |s.clients| && ClientStep(s, s', c)
    ensures OneCaller(s, s', c)
  {
    hide OneCaller;
    hide ClientLock;
    hide ClientCheck;
    hide ClientUnlock;
    hide ClientNotify;
    if ClientLock(s, s', c) { LockStep(s, s', c); }
    else if ClientCheck(s, s', c) { CheckStep(s, s', c); }
    else if ClientUnlock(s, s', c) { UnlockStep(s, s', c); }
    else { NotifyStep(s, s', c); }
  }

  lemma StepIntoCall<T>(s: State<T>, s': State<T>, c: nat, task: T)
    requires c < |s.clients| && ClientCall(s, s', c, task)
    ensures OneCaller(s, s', c)
  {
  }

  lemma StepOfCaller<T(!new)>(s: State<T>, s': State<T>)
    requires Next(s, s')
    ensures NoCaller(s, s') || exists c: nat :: OneCaller(s, s', c)
  {
    hide OneCaller;
    hide NoCaller;
    hide ClientCall;
    hide ClientStep;
    hide WorkerStep;
    hide SpuriousWakeup;
    hide DtorStep;
    hide DtorBegin;
    if c: nat, task :| c < |s.clients| && ClientCall(s, s', c, task) {
      StepIntoCall(s, s', c, task);
    } else if c: nat :| c < |s.clients| && ClientStep(s, s', c) {
      StepInCall(s, s', c);
    } else if w: nat :| w < |s.workers| && (WorkerStep(s, s', w) || SpuriousWakeup(s, s', w)) {
      StepOfWorker(s, s', w);
    } else {
      StepOfDestructor(s, s');
    }
  }

  /** The accepted tasks grow exactly when a caller passes from the test of the flag to the notification, and then by
      the very task that this caller holds; the flag decides which way it goes. */
  ghost predicate AsPassed<T>(s: State<T>, s': State<T>) {
    && |s'.clients| == |s.clients|
    && (forall c: nat {:trigger s'.clients[c]} :: c < |s.clients| && s.clients[c].Checking? ==>
          var p, p' := s.clients[c], s'.clients[c];
          && (p'.Pushed? ==> !s.stop && s'.accepted == s.accepted + [p.task])
          && (p'.Refusing? ==> s.stop && s'.accepted == s.accepted)
          && (p'.Pushed? || p'.Refusing? || p' == p))
    && (s'.accepted != s.accepted ==>
          exists c: nat {:trigger s'.clients[c]} :: c < |s.clients| && s.clients[c].Checking? && s'.clients[c].Pushed?)
  }

  lemma CallerAsPassed<T>(s: State<T>, s': State<T>, c: nat)
    requires OneCaller(s, s', c)
    ensures AsPassed(s, s')
  {
    hide Pending;
    hide Passed;
    hide Pushing;
    hide Refused;
    var p' := s'.clients[c];
    assert s'.accepted != s.accepted ==> s.clients[c].Checking? && p'.Pushed?;
  }

  lemma NobodyAsPassed<T>(s: State<T>, s': State<T>)
    requires NoCaller(s, s')
    ensures AsPassed(s, s')
  {
  }

  /** In every step of every run. */
  lemma AcceptedAsPassed<T(!new)>(run: seq<State<T>>, i: nat)
    requires Run(run) && i + 1 < |run|
    ensures AsPassed(run[i], run[i + 1])
  {
    hide Next;
    hide OneCaller;
    hide NoCaller;
    hide AsPassed;
    ThreadPoolProofs.RunStep(run, i);
    var s, s' := run[i], run[i + 1];
    StepOfCaller(s, s');
    if c: nat :| OneCaller(s, s', c) { CallerAsPassed(s, s', c); } else { NobodyAsPassed(s, s'); }
  }

  // ---------------------------------------------------------------------------------------------
  // Whole runs
  // ---------------------------------------------------------------------------------------------

  ghost function Tally<T>(ps: seq<Client<T>>, ps': seq<Client<T>>, f: (Client<T>, Client<T>) -> multiset<T>)
    : multiset<T>
  {
    if |ps| == 0 || |ps'| == 0 then multiset{} else f(ps[0], ps'[0]) + Tally(ps[1..], ps'[1..], f)
  }

  /** A tally over the steps of a run up to the n-th state. */
  ghost function Total<T>(run: seq<State<T>>, n: nat, f: (Client<T>, Client<T>) -> multiset<T>): multiset<T>
    requires n < |run|
  {
    if n == 0 then multiset{} else Total(run, n - 1, f) + Tally(run[n - 1].clients, run[n].clients, f)
  }

  /** The tasks on their way. */
  ghost function OnTheWay<T>(ps: seq<Client<T>>): multiset<T> {
    if |ps| == 0 then multiset{} else Pending(ps[0]) + OnTheWay(ps[1..])
  }

  lemma {:induction false} TallyNone<T>(ps: seq<Client<T>>, f: (Client<T>, Client<T>) -> multiset<T>)
    requires forall p :: p in ps ==> f(p, p) == multiset{}
    ensures Tally(ps, ps, f) == multiset{}
  {
    if |ps| > 0 { TallyNone(ps[1..], f); }
  }

  lemma {:induction false} TallyOne<T>(ps: seq<Client<T>>, c: nat, p': Client<T>,
                                       f: (Client<T>, Client<T>) -> multiset<T>)
    requires c < |ps| && forall p :: p in ps ==> f(p, p) == multiset{}
    ensures Tally(ps, ps[c := p'], f) == f(ps[c], p')
  {
    if c == 0 {
      assert ps[c := p'][1..] == ps[1..];
      TallyNone(ps[1..], f);
    } else {
      assert ps[c := p'][1..] == ps[1..][c - 1 := p'];
      TallyOne(ps[1..], c - 1, p', f);
    }
  }

  lemma OnTheWaySplit<T>(ps: seq<Client<T>>, c: nat, p': Client<T>)
    requires c < |ps|
    ensures OnTheWay(ps) == Pending(ps[0]) + OnTheWay(ps[1..])
    ensures OnTheWay(ps[c := p'])
            == if c == 0 then Pending(p') + OnTheWay(ps[1..]) else Pending(ps[0]) + OnTheWay(ps[1..][c - 1 := p'])
  {
    hide Pending;
    assert ps[c := p'][1..] == if c == 0 then ps[1..] else ps[1..][c - 1 := p'];
  }

  lemma {:induction false} OnTheWayUpdate<T>(ps: seq<Client<T>>, c: nat, p': Client<T>)
    requires c < |ps|
    ensures OnTheWay(ps[c := p']) + Pending(ps[c]) == OnTheWay(ps) + Pending(p')
  {
    hide Pending;
    hide OnTheWay;
    OnTheWaySplit(ps, c, p');
    if c == 0 {
      Exchange(Pending(p'), OnTheWay(ps[1..]), Pending(ps[0]));
    } else {
      OnTheWayUpdate(ps[1..], c - 1, p');
      Swap(Pending(ps[0]), OnTheWay(ps[1..][c - 1 := p']), Pending(ps[c]), OnTheWay(ps[1..]), Pending(p'));
    }
  }

  lemma Exchange<T>(a: multiset<T>, b: multiset<T>, c: multiset<T>)
    ensures (a + b) + c == (c + b) + a
  {
  }

  lemma Swap<T>(a: multiset<T>, b: multiset<T>, c: multiset<T>, d: multiset<T>, e: multiset<T>)
    requires b + c == d + e
    ensures (a + b) + c == (a + d) + e
  {
    assert (a + b) + c == a + (b + c);
    assert (a + d) + e == a + (d + e);
  }

  lemma Balance<T>(accepted: multiset<T>, refused: multiset<T>, way: multiset<T>, passed: multiset<T>,
                   push: multiset<T>, refuse: multiset<T>, before: multiset<T>, after: multiset<T>, pass: multiset<T>,
                   way': multiset<T>)
    requires accepted + refused + way == passed
    requires after + push + refuse == before + pass && way' + before == way + after
    ensures (accepted + push) + (refused + refuse) + way' == passed + pass
  {
    var left, right := (accepted + push) + (refused + refuse) + way', passed + pass;
    forall x ensures left[x] == right[x] {
      assert (accepted + refused + way)[x] == passed[x];
      assert (after + push + refuse)[x] == (before + pass)[x] && (way' + before)[x] == (way + after)[x];
    }
  }

  /** Over a run every task that was ever passed to enqueue is accepted, refused or on its way, exactly once. */
  lemma {:induction false} EveryTaskAccounted<T(!new)>(run: seq<State<T>>, n: nat)
    requires Run(run) && n < |run|
    ensures multiset(run[n].accepted) + Total(run, n, Refused) + OnTheWay(run[n].clients) == Total(run, n, Passed)
  {
    hide Next;
    hide Init;
    hide Total;
    hide Tally;
    hide OnTheWay;
    if n == 0 {
      NothingYet(run);
    } else {
      EveryTaskAccounted(run, n - 1);
      ThreadPoolProofs.RunStep(run, n - 1);
      AccountStep(run, n - 1);
    }
  }

  lemma NothingYet<T(!new)>(run: seq<State<T>>)
    requires Run(run)
    ensures run[0].accepted == [] && OnTheWay(run[0].clients) == multiset{}
    ensures Total(run, 0, Refused) == multiset{} == Total(run, 0, Passed)
  {
    NobodyOnTheWay(run[0].clients);
  }

  lemma {:induction false} NobodyOnTheWay<T>(ps: seq<Client<T>>)
    requires forall c :: 0 <= c < |ps| ==> ps[c].Idle?
    ensures OnTheWay(ps) == multiset{}
  {
    if |ps| > 0 { NobodyOnTheWay(ps[1..]); }
  }

  lemma AccountCaller<T>(s: State<T>, s': State<T>, c: nat)
    requires OneCaller(s, s', c)
    ensures var p, p' := s.clients[c], s'.clients[c];
            && Tally(s.clients, s'.clients, Refused) == Refused(p, p')
            && Tally(s.clients, s'.clients, Passed) == Passed(p, p')
            && OnTheWay(s'.clients) + Pending(p) == OnTheWay(s.clients) + Pending(p')
  {
    hide Tally;
    hide OnTheWay;
    TallyOne(s.clients, c, s'.clients[c], Refused);
    TallyOne(s.clients, c, s'.clients[c], Passed);
    OnTheWayUpdate(s.clients, c, s'.clients[c]);
  }

  lemma PushedOne<T>(s: State<T>, s': State<T>, c: nat)
    requires OneCaller(s, s', c)
    ensures multiset(s'.accepted) == multiset(s.accepted) + Pushing(s.clients[c], s'.clients[c])
    ensures var p, p' := s.clients[c], s'.clients[c];
            Pending(p') + Pushing(p, p') + Refused(p, p') == Pending(p) + Passed(p, p')
  {
  }

  lemma AccountStep<T(!new)>(run: seq<State<T>>, i: nat)
    requires i + 1 < |run| && Next(run[i], run[i + 1])
    requires multiset(run[i].accepted) + Total(run, i, Refused) + OnTheWay(run[i].clients) == Total(run, i, Passed)
    ensures multiset(run[i + 1].accepted) + Total(run, i + 1, Refused) + OnTheWay(run[i + 1].clients)
            == Total(run, i + 1, Passed)
  {
    hide Next;
    hide Tally;
    hide OnTheWay;
    hide OneCaller;
    hide Pending;
    hide Passed;
    hide Pushing;
    hide Refused;
    var s, s' := run[i], run[i + 1];
    StepOfCaller(s, s');
    if c: nat :| OneCaller(s, s', c) {
      InRange(s, s', c);
      var p, p' := s.clients[c], s'.clients[c];
      AccountCaller(s, s', c);
      PushedOne(s, s', c);
      Balance(multiset(s.accepted), Total(run, i, Refused), OnTheWay(s.clients), Total(run, i, Passed),
              Pushing(p, p'), Refused(p, p'), Pending(p), Pending(p'), Passed(p, p'), OnTheWay(s'.clients));
    } else {
      AccountNobody(s);
    }
  }

  lemma InRange<T>(s: State<T>, s': State<T>, c: nat)
    requires OneCaller(s, s', c)
    ensures c < |s.clients| == |s'.clients|
  {
  }

  lemma AccountNobody<T>(s: State<T>)
    ensures Tally(s.clients, s.clients, Refused) == multiset{} == Tally(s.clients, s.clients, Passed)
  {
    TallyNone(s.clients, Refused);
    TallyNone(s.clients, Passed);
  }

  /** When the destructor of a pool with workers is done and every call of enqueue is over, each task that was passed
      has been run once or was refused. */
  lemma EveryTaskAnswered<T(!new)>(run: seq<State<T>>, n: nat)
    requires Run(run) && n < |run| && run[n].dtor == Gone && |run[n].workers| > 0
    requires forall c: nat :: c < |run[n].clients| ==> run[n].clients[c].Idle?
    ensures multiset(run[n].ran) + Total(run, n, Refused) == Total(run, n, Passed)
  {
    EveryTaskAccounted(run, n);
    NobodyOnTheWay(run[n].clients);
    ThreadPoolProofs.DestroyedMeansDrained(run, n);
  }
}
