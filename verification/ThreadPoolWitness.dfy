/** A pool without workers accepts work, is destroyed, and has run nothing. */
module ThreadPoolWitness {
  import opened Options
  import opened Paths
  import opened ThreadPoolMachine

  /** No workers, one thread that calls enqueue. */
  ghost function Lonely<T>(client: Client<T>, owner: Option<Holder>, dtor: Destructor, stop: bool,
                           tasks: seq<T>): State<T>
  {
    State(tasks, stop, owner, [], [client], dtor, tasks, [], [])
  }

  /** A step of the one caller. */
  lemma ByCaller<T(!new)>(s: State<T>, s': State<T>)
    requires |s.clients| == 1 && ClientStep(s, s', 0)
    ensures Next(s, s')
  {
    assert Progress(s, s');
  }

  /** The call of enqueue. */
  lemma Accepts<T(!new)>(job: T) returns (run: seq<State<T>>)
    ensures Path(Next, run, Lonely<T>(Client.Idle, None, Alive, false, []),
                 Lonely(Client.Idle, None, Alive, false, [job]))
  {
    var s0 := Lonely<T>(Client.Idle, None, Alive, false, []);
    var s1 := Lonely(Calling(job), None, Alive, false, []);
    var s2 := Lonely(Checking(job), Some(ByClient(0)), Alive, false, []);
    var s3 := Lonely(Pushed, Some(ByClient(0)), Alive, false, [job]);
    var s4 := Lonely(Notifying, None, Alive, false, [job]);
    var s5 := Lonely(Client.Idle, None, Alive, false, [job]);
    assert Path(Next, [s0], s0, s0);
    assert ClientCall(s0, s1, 0, job);
    run := Extend(Next, [s0], s0, s0, s1);
    assert ClientLock(s1, s2, 0);
    ByCaller(s1, s2);
    run := Extend(Next, run, s0, s1, s2);
    assert [] + [job] == [job] && ClientCheck(s2, s3, 0);
    ByCaller(s2, s3);
    run := Extend(Next, run, s0, s2, s3);
    assert ClientUnlock(s3, s4, 0);
    ByCaller(s3, s4);
    run := Extend(Next, run, s0, s3, s4);
    assert ClientNotify(s4, s5, 0);
    ByCaller(s4, s5);
    run := Extend(Next, run, s0, s4, s5);
  }

  /** The destructor, with nobody to join. */
  lemma Destroys<T(!new)>(job: T, run: seq<State<T>>, s0: State<T>) returns (run': seq<State<T>>)
    requires Path(Next, run, s0, Lonely(Client.Idle, None, Alive, false, [job]))
    ensures Path(Next, run', s0, Lonely(Client.Idle, None, Gone, true, [job]))
  {
    var s1 := Lonely(Client.Idle, None, Alive, false, [job]);
    var s2 := Lonely(Client.Idle, None, WantStop, false, [job]);
    var s3 := Lonely(Client.Idle, Some(ByDestructor), Stopping, false, [job]);
    var s4 := Lonely(Client.Idle, Some(ByDestructor), Stopped, true, [job]);
    var s5 := Lonely(Client.Idle, None, NotifyAll, true, [job]);
    var s6 := Lonely(Client.Idle, None, Joining(0), true, [job]);
    var s7 := Lonely(Client.Idle, None, Gone, true, [job]);
    assert DtorBegin(s1, s2);
    run' := Extend(Next, run, s0, s1, s2);
    assert DtorStep(s2, s3);
    run' := Extend(Next, run', s0, s2, s3);
    assert DtorStep(s3, s4);
    run' := Extend(Next, run', s0, s3, s4);
    assert DtorStep(s4, s5);
    run' := Extend(Next, run', s0, s4, s5);
    assert Awakened(s5.workers) == [] && DtorStep(s5, s6);
    run' := Extend(Next, run', s0, s5, s6);
    assert DtorStep(s6, s7);
    run' := Extend(Next, run', s0, s6, s7);
  }

  /** Whatever was enqueued, the destructor returns and it was not run. */
  lemma UnrunWork<T(!new)>(job: T) returns (run: seq<State<T>>)
    ensures Run(run)
    ensures var s := run[|run| - 1]; s.dtor == Gone && s.workers == [] && s.accepted == [job] && s.ran == []
  {
    var s0 := Lonely<T>(Client.Idle, None, Alive, false, []);
    run := Accepts(job);
    run := Destroys(job, run, s0);
    assert Init(run[0]);
    forall i: nat | i + 1 < |run| ensures StepAt(run, i) { assert Steps(Next, run, i); }
  }
}
