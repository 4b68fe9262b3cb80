/**
 The thread pool of ThreadPool.hpp as a step machine: any number of workers, any number of threads calling
 enqueue, and one destructor, around a mutex, a condition variable, a FIFO queue and a stop flag.

 Waits can wake spuriously.  notify_one is a step of its own, after the mutex is released.  The sequences
 `accepted`, `taken` and `ran` record what has been pushed, popped and finished; no step reads them.
 */
module ThreadPoolMachine {
  import opened Options

  datatype Worker<T> =
      /** At the lock: on the way into the loop body, or awake inside wait and re-acquiring the mutex. */
    | Want
      /** Holds the mutex, about to evaluate the wait predicate. */
    | Test
      /** Holds the mutex, the predicate was false, about to sleep. */
    | WillWait
    | Blocked
      /** Holds the mutex, has popped a task. */
    | Took(task: T)
    | Running(task: T)
      /** Holds the mutex, about to return from the thread function. */
    | Leaving
    | Done

  datatype Client<T> =
    | Idle
    | Calling(task: T)
      /** Holds the mutex, about to look at the stop flag. */
    | Checking(task: T)
      /** Holds the mutex, has pushed its task. */
    | Pushed
      /** Has released the mutex, has not called notify_one yet. */
    | Notifying
      /** Holds the mutex, is throwing. */
    | Refusing

  datatype Destructor =
    | Alive
    | WantStop
    | Stopping    // holds the mutex
    | Stopped     // holds the mutex, has set the flag
    | NotifyAll
    | Joining(joined: nat)
    | Gone

  datatype Holder = ByWorker(w: nat) | ByClient(c: nat) | ByDestructor

  datatype State<T> = State(
    tasks: seq<T>,
    stop: bool,
    owner: Option<Holder>,
    workers: seq<Worker<T>>,
    clients: seq<Client<T>>,
    dtor: Destructor,
    accepted: seq<T>,
    taken: seq<T>,
    ran: seq<T>)

  /** What a worker that holds the mutex does next: lines 51-56. */
  datatype Decision<T> = Sleep | Quit | Take(task: T, rest: seq<T>)

  function Decide<T>(tasks: seq<T>, stop: bool): (d: Decision<T>)
    ensures d.Sleep? <==> !stop && tasks == []
    ensures d.Quit? <==> stop && tasks == []
    ensures d.Take? ==> [d.task] + d.rest == tasks
  {
    if !(stop || tasks != []) then Sleep
    else if stop && tasks == [] then Quit
    else Take(tasks[0], tasks[1..])
  }

  ghost predicate Init<T>(s: State<T>) {
    && s.tasks == [] && !s.stop && s.owner == None && s.dtor == Alive
    && s.accepted == [] && s.taken == [] && s.ran == []
    && (forall w :: 0 <= w < |s.workers| ==> s.workers[w] == Want)
    && (forall c :: 0 <= c < |s.clients| ==> s.clients[c] == Idle)
  }

  ghost function SetWorker<T>(s: State<T>, w: nat, p: Worker<T>): State<T>
    requires w < |s.workers|
  {
    s.(workers := s.workers[w := p])
  }

  ghost function SetClient<T>(s: State<T>, c: nat, p: Client<T>): State<T>
    requires c < |s.clients|
  {
    s.(clients := s.clients[c := p])
  }

  // Worker steps -----------------------------------------------------------------------------------

  ghost predicate WorkerLock<T>(s: State<T>, s': State<T>, w: nat)
    requires w < |s.workers|
  {
    s.workers[w] == Want && s.owner == None && s' == SetWorker(s, w, Test).(owner := Some(ByWorker(w)))
  }

  ghost predicate WorkerTest<T>(s: State<T>, s': State<T>, w: nat)
    requires w < |s.workers|
  {
    && s.workers[w] == Test
    && match Decide(s.tasks, s.stop)
       case Sleep => s' == SetWorker(s, w, WillWait)
       case Quit => s' == SetWorker(s, w, Leaving)
       case Take(t, rest) => s' == SetWorker(s, w, Took(t)).(tasks := rest, taken := s.taken + [t])
  }

  /** Inside wait: the mutex is released and the thread sleeps, in one atomic step. */
  ghost predicate WorkerSleep<T>(s: State<T>, s': State<T>, w: nat)
    requires w < |s.workers|
  {
    s.workers[w] == WillWait && s' == SetWorker(s, w, Blocked).(owner := None)
  }

  ghost predicate WorkerUnlock<T>(s: State<T>, s': State<T>, w: nat)
    requires w < |s.workers|
  {
    || (s.workers[w].Took? && s' == SetWorker(s, w, Running(s.workers[w].task)).(owner := None))
    || (s.workers[w] == Leaving && s' == SetWorker(s, w, Done).(owner := None))
  }

  ghost predicate WorkerRun<T>(s: State<T>, s': State<T>, w: nat)
    requires w < |s.workers|
  {
    s.workers[w].Running? && s' == SetWorker(s, w, Want).(ran := s.ran + [s.workers[w].task])
  }

  ghost predicate SpuriousWakeup<T>(s: State<T>, s': State<T>, w: nat)
    requires w < |s.workers|
  {
    s.workers[w] == Blocked && s' == SetWorker(s, w, Want)
  }

  // Steps of a thread in enqueue -------------------------------------------------------------------

  ghost predicate ClientCall<T>(s: State<T>, s': State<T>, c: nat, task: T)
    requires c < |s.clients|
  {
    s.clients[c] == Idle && s' == SetClient(s, c, Calling(task))
  }

  ghost predicate ClientLock<T>(s: State<T>, s': State<T>, c: nat)
    requires c < |s.clients|
  {
    && s.clients[c].Calling? && s.owner == None
    && s' == SetClient(s, c, Checking(s.clients[c].task)).(owner := Some(ByClient(c)))
  }

  ghost predicate ClientCheck<T>(s: State<T>, s': State<T>, c: nat)
    requires c < |s.clients|
  {
    && s.clients[c].Checking?
    && var t := s.clients[c].task;
    && s' == if s.stop then SetClient(s, c, Refusing)
             else SetClient(s, c, Pushed).(tasks := s.tasks + [t], accepted := s.accepted + [t])
  }

  ghost predicate ClientUnlock<T>(s: State<T>, s': State<T>, c: nat)
    requires c < |s.clients|
  {
    || (s.clients[c] == Pushed && s' == SetClient(s, c, Notifying).(owner := None))
    || (s.clients[c] == Refusing && s' == SetClient(s, c, Idle).(owner := None))
  }

  /** notify_one wakes one sleeper, any one, if there is one. */
  ghost predicate ClientNotify<T>(s: State<T>, s': State<T>, c: nat)
    requires c < |s.clients|
  {
    && s.clients[c] == Notifying
    && var moved := SetClient(s, c, Idle);
    if exists w :: 0 <= w < |s.workers| && s.workers[w] == Blocked
    then exists w: nat :: w < |s.workers| && s.workers[w] == Blocked && s' == SetWorker(moved, w, Want)
    else s' == moved
  }

  // Steps of the destructor ------------------------------------------------------------------------

  ghost predicate DtorBegin<T>(s: State<T>, s': State<T>) {
    s.dtor == Alive && s' == s.(dtor := WantStop)
  }

  ghost predicate DtorLock<T>(s: State<T>, s': State<T>) {
    s.dtor == WantStop && s.owner == None && s' == s.(dtor := Stopping, owner := Some(ByDestructor))
  }

  ghost predicate DtorSet<T>(s: State<T>, s': State<T>) {
    s.dtor == Stopping && s' == s.(dtor := Stopped, stop := true)
  }

  ghost predicate DtorUnlock<T>(s: State<T>, s': State<T>) {
    s.dtor == Stopped && s' == s.(dtor := NotifyAll, owner := None)
  }

  ghost function Awakened<T>(ws: seq<Worker<T>>): seq<Worker<T>> {
    seq(|ws|, i requires 0 <= i < |ws| => if ws[i] == Blocked then Want else ws[i])
  }

  ghost predicate DtorNotify<T>(s: State<T>, s': State<T>) {
    s.dtor == NotifyAll && s' == s.(dtor := Joining(0), workers := Awakened(s.workers))
  }

  /** join returns only when the thread has ended; the threads are joined in order. */
  ghost predicate DtorJoin<T>(s: State<T>, s': State<T>) {
    && s.dtor.Joining?
    && var k := s.dtor.joined;
    if k < |s.workers| then s.workers[k] == Done && s' == s.(dtor := Joining(k + 1)) else s' == s.(dtor := Gone)
  }

  // All steps --------------------------------------------------------------------------------------

  ghost predicate WorkerStep<T>(s: State<T>, s': State<T>, w: nat)
    requires w < |s.workers|
  {
    || WorkerLock(s, s', w) || WorkerTest(s, s', w) || WorkerSleep(s, s', w)
    || WorkerUnlock(s, s', w) || WorkerRun(s, s', w)
  }

  ghost predicate ClientStep<T>(s: State<T>, s': State<T>, c: nat)
    requires c < |s.clients|
  {
    ClientLock(s, s', c) || ClientCheck(s, s', c) || ClientUnlock(s, s', c) || ClientNotify(s, s', c)
  }

  ghost predicate DtorStep<T>(s: State<T>, s': State<T>) {
    || DtorLock(s, s') || DtorSet(s, s') || DtorUnlock(s, s') || DtorNotify(s, s') || DtorJoin(s, s')
  }

  /** Some thread goes on with what it is doing. */
  ghost predicate Progress<T>(s: State<T>, s': State<T>) {
    || (exists w: nat :: w < |s.workers| && WorkerStep(s, s', w))
    || (exists c: nat :: c < |s.clients| && ClientStep(s, s', c))
    || DtorStep(s, s')
  }

  ghost predicate NewCall<T(!new)>(s: State<T>, s': State<T>) {
    exists c: nat, task :: c < |s.clients| && ClientCall(s, s', c, task)
  }

  ghost predicate Spurious<T>(s: State<T>, s': State<T>) {
    exists w: nat :: w < |s.workers| && SpuriousWakeup(s, s', w)
  }

  ghost predicate Next<T(!new)>(s: State<T>, s': State<T>) {
    Progress(s, s') || NewCall(s, s') || Spurious(s, s') || DtorBegin(s, s')
  }

  ghost predicate StepAt<T(!new)>(run: seq<State<T>>, i: nat)
    requires i + 1 < |run|
  {
    Next(run[i], run[i + 1])
  }

  /** A run: a start state and any number of steps. */
  ghost predicate Run<T(!new)>(run: seq<State<T>>) {
    |run| > 0 && Init(run[0]) && forall i: nat :: i + 1 < |run| ==> StepAt(run, i)
  }
}
