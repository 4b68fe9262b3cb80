/**
 The thread pool as the object it is, one method per critical section.  What threads do between these
 sections, and in which order they enter them, is the business of ThreadPoolMachine.
 */
module ThreadPoolClass {
  import opened ThreadPoolMachine

  /** What another thread may call. */
  datatype Call<T> = Enqueueing(task: T) | Stopping

  predicate StopAfter<T>(calls: seq<Call<T>>, stop: bool) {
    stop || exists i :: 0 <= i < |calls| && calls[i].Stopping?
  }

  /** The tasks of the calls up to the one that sets the flag, if it is not set already. */
  function Accepted<T>(calls: seq<Call<T>>, stop: bool): seq<T> {
    if |calls| == 0 || stop || calls[0].Stopping? then [] else [calls[0].task] + Accepted(calls[1..], stop)
  }

  function Flat<T>(script: seq<seq<Call<T>>>): seq<Call<T>> {
    if |script| == 0 then [] else script[0] + Flat(script[1..])
  }

  lemma {:induction false} CallsCat<T>(a: seq<Call<T>>, b: seq<Call<T>>, stop: bool)
    ensures StopAfter(a + b, stop) <==> StopAfter(b, StopAfter(a, stop))
    ensures Accepted(a + b, stop) == Accepted(a, stop) + Accepted(b, StopAfter(a, stop))
  {
    assert StopAfter(a + b, stop) <==> StopAfter(b, StopAfter(a, stop)) by {
      if i :| 0 <= i < |a| && a[i].Stopping? { assert (a + b)[i].Stopping?; }
      if i :| 0 <= i < |b| && b[i].Stopping? { assert (a + b)[|a| + i].Stopping?; }
    }
    if |a| == 0 {
      assert a + b == b;
    } else if !stop && !a[0].Stopping? {
      assert (a + b)[1..] == a[1..] + b;
      CallsCat(a[1..], b, stop);
      assert StopAfter(a, stop) <==> StopAfter(a[1..], stop) by {
        if i :| 0 <= i < |a| && a[i].Stopping? { assert a[1..][i - 1].Stopping?; }
        if i :| 0 <= i < |a[1..]| && a[1..][i].Stopping? { assert a[i + 1].Stopping?; }
      }
    }
  }

  lemma {:induction false} FlatCat<T>(a: seq<seq<Call<T>>>, b: seq<seq<Call<T>>>)
    ensures Flat(a + b) == Flat(a) + Flat(b)
  {
    if |a| == 0 {
      assert a + b == b;
    } else {
      assert (a + b)[1..] == a[1..] + b;
      FlatCat(a[1..], b);
    }
  }

  class ThreadPool<T> {
    var tasks: seq<T>
    var stop: bool

    constructor ()
      ensures tasks == [] && !stop
    {
      tasks, stop := [], false;
    }

    /** The locked part of enqueue: refuses once the pool is stopped, appends otherwise. */
    method Enqueue(task: T) returns (accepted: bool)
      modifies this
      ensures accepted <==> !old(stop)
      ensures tasks == if accepted then old(tasks) + [task] else old(tasks)
      ensures stop == old(stop)
    {
      if stop {
        return false;
      }
      tasks := tasks + [task];
      accepted := true;
    }

    /** The locked part of a turn of the worker loop: sleep, end, or pop the oldest task. */
    method Turn() returns (d: Decision<T>)
      modifies this
      ensures d == Decide(old(tasks), old(stop))
      ensures tasks == if d.Take? then d.rest else old(tasks)
      ensures stop == old(stop)
    {
      if !(stop || tasks != []) {
        return Sleep;
      }
      if stop && tasks == [] {
        return Quit;
      }
      var task := tasks[0];
      tasks := tasks[1..];
      d := Take(task, tasks);
    }

    /** The locked part of the destructor. */
    method SetStop()
      modifies this
      ensures stop && tasks == old(tasks)
    {
      stop := true;
    }

    /** What other threads call between two turns of the worker. */
    method Meanwhile(calls: seq<Call<T>>)
      modifies this
      ensures tasks == old(tasks) + Accepted(calls, old(stop)) && stop == StopAfter(calls, old(stop))
    {
      for i := 0 to |calls|
        invariant tasks == old(tasks) + Accepted(calls[..i], old(stop)) && stop == StopAfter(calls[..i], old(stop))
      {
        assert calls[..i + 1] == calls[..i] + [calls[i]];
        CallsCat(calls[..i], [calls[i]], old(stop));
        match calls[i]
        case Enqueueing(task) => var accepted := Enqueue(task);
        case Stopping => SetStop();
      }
      assert calls[..|calls|] == calls;
    }

    /** One turn of the worker with the task it took. */
    method RunOne(before: seq<T>) returns (ran: seq<T>, ended: bool)
      modifies this
      ensures ran + tasks == before + old(tasks) && stop == old(stop)
      ensures ended <==> stop && old(tasks) == []
      ensures if old(tasks) == [] then tasks == [] else |tasks| < |old(tasks)|
    {
      ghost var was := tasks;
      var d := Turn();
      ran, ended := before, false;
      match d
      case Quit => ended := true;
      case Take(task, rest) =>
        assert [task] + rest == was;
        ran := before + [task];
        assert ran + rest == before + ([task] + rest);
      case Sleep =>
    }

    /** The loop of the only worker, where `script` is what the others call before each of its turns until none calls
        any more.  It runs all that was queued and is accepted, in order, and then ends exactly when the flag is set. */
    method Work(script: seq<seq<Call<T>>>) returns (ran: seq<T>, ended: bool)
      modifies this
      ensures ran == old(tasks) + Accepted(Flat(script), old(stop)) && tasks == []
      ensures stop == StopAfter(Flat(script), old(stop)) && (ended <==> stop)
    {
      hide Accepted;
      hide StopAfter;
      hide Flat;
      ran, ended := [], false;
      ghost var due := tasks;
      var turn := 0;
      Nobody(script, stop);
      while !ended && (turn < |script| || stop || tasks != [])
        invariant turn <= |script| && ran + tasks == due
        invariant due == old(tasks) + Accepted(Flat(script[..turn]), old(stop))
        invariant stop == StopAfter(Flat(script[..turn]), old(stop))
        invariant ended ==> stop && tasks == []
        decreases |script| - turn, |tasks|, !ended
      {
        if turn < |script| {
          NextTurn(script, turn, old(stop));
          ghost var more := Accepted(script[turn], stop);
          InOrder(ran, tasks, more);
          InOrder(old(tasks), Accepted(Flat(script[..turn]), old(stop)), more);
          Meanwhile(script[turn]);
          due := due + more;
          turn := turn + 1;
        }
        ran, ended := RunOne(ran);
      }
      assert ran + [] == ran;
      Unheard(script, turn, old(stop));
    }
  }

  lemma InOrder<T>(a: seq<T>, b: seq<T>, c: seq<T>)
    ensures (a + b) + c == a + (b + c)
  {
  }

  lemma Nobody<T>(script: seq<seq<Call<T>>>, stop: bool)
    ensures Accepted(Flat(script[..0]), stop) == [] && StopAfter(Flat(script[..0]), stop) == stop
  {
  }

  lemma NextTurn<T>(script: seq<seq<Call<T>>>, turn: nat, stop: bool)
    requires turn < |script|
    ensures var before := Flat(script[..turn]);
            && Accepted(Flat(script[..turn + 1]), stop)
               == Accepted(before, stop) + Accepted(script[turn], StopAfter(before, stop))
            && StopAfter(Flat(script[..turn + 1]), stop) == StopAfter(script[turn], StopAfter(before, stop))
  {
    assert script[..turn + 1] == script[..turn] + [script[turn]];
    FlatCat(script[..turn], [script[turn]]);
    assert Flat([script[turn]]) == script[turn] by { assert [script[turn]][1..] == []; }
    CallsCat(Flat(script[..turn]), script[turn], stop);
  }

  /** What is called when the flag is set changes nothing. */
  lemma Unheard<T>(script: seq<seq<Call<T>>>, turn: nat, stop: bool)
    requires turn <= |script| && (turn == |script| || StopAfter(Flat(script[..turn]), stop))
    ensures Accepted(Flat(script), stop) == Accepted(Flat(script[..turn]), stop)
    ensures StopAfter(Flat(script), stop) == StopAfter(Flat(script[..turn]), stop)
  {
    assert script == script[..turn] + script[turn..];
    FlatCat(script[..turn], script[turn..]);
    CallsCat(Flat(script[..turn]), Flat(script[turn..]), stop);
  }
}
