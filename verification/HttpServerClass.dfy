/**
 The server object, which holds the pool, the table of connections and the parser as objects and whose fields the event
 loop updates step by step, against the value model of its state.
 */
module HttpServers {
  import opened Options
  import opened MemoryPools
  import opened Lifecycle
  import HashTables

  /** What the environment brings to an event: the descriptor that accept would return, whether the `new` of the pool
      succeeds and whether another one fails; or the text that is read and how its handler ends. */
  datatype Input = Input(descriptor: Descriptor, memory: bool, failure: Failure, text: string, handling: Handling)

  /** The environment of the value model says the same, with the block that `new` made. */
  ghost predicate Agrees(input: Input, env: Env) {
    && env.text == input.text && env.handling == input.handling && env.failure == input.failure
    && (env.made.Some? ==> input.memory)
  }

  ghost predicate AllAgree(inputs: seq<Input>, envs: seq<Env>) {
    |inputs| == |envs| && forall k :: 0 <= k < |envs| ==> Agrees(inputs[k], envs[k])
  }

  /** A batch has been processed, event by event, in an environment that agrees with the inputs. */
  ghost predicate Completed(was: State, events: seq<Event>, inputs: seq<Input>, envs: seq<Env>, now: State) {
    && |envs| == |events| && AllAgree(inputs, envs) && EnvsOk(was, events, envs)
    && now == Process(was, events, envs) && Sound(now)
  }

  /** The first i events of a batch have been processed, and the loop goes on. */
  ghost predicate During(was: State, events: seq<Event>, inputs: seq<Input>, envs: seq<Env>, i: nat, now: State) {
    && i <= |events| == |inputs| && Completed(was, events[..i], inputs[..i], envs, now)
    && now.halt == None && AllCurrent(was, now, events[i..])
  }

  class HttpServer {
    const serverSocket: Descriptor
    const connectionsMemPool: MemoryPool
    const connections: HashTables.ConcurrentHashMap<Descriptor, Context>
    const parser: HttpRequests.HttpParser
    var handles: map<Context, Descriptor>
    var descriptors: set<Descriptor>
    var watched: map<Descriptor, Context>
    var lastConnection: Option<Context>
    var halt: Option<Halt>
    ghost var lastHandle: Descriptor
    ghost var ids: map<Descriptor, nat>
    ghost var accepted: nat
    ghost var orphans: set<Context>
    ghost var strays: set<Descriptor>

    ghost function View(): State
      reads this, connectionsMemPool, connections
    {
      State(serverSocket, connectionsMemPool.View(), handles, descriptors, watched, connections.contents,
            lastConnection, lastHandle, ids, accepted, orphans, strays, halt)
    }

    /** The objects are in order and the tables agree. */
    ghost predicate Valid()
      reads this, connectionsMemPool, parser, connections, connections.buckets, connections.nodes
    {
      connectionsMemPool.Valid() && connections.Valid() && parser.Valid() && Inv(View())
    }

    /** Boot, up to the loop, with a pool as its own constructor makes it and any hash function. */
    constructor (socket: Descriptor, pool: MemoryPool, hash: Descriptor -> nat)
      requires pool.Valid() && Constructed(pool.View(), 3) && pool.maxAlloc == 100
      ensures Valid() && Booted(View()) && serverSocket == socket && connectionsMemPool == pool && fresh(parser)
      ensures fresh(connections) && fresh(connections.buckets) && connections.nodes == {}
      ensures |connections.buckets| == 1031
    {
      hide HashTables.ConcurrentHashMap.Valid;
      serverSocket, connectionsMemPool := socket, pool;
      parser := new HttpRequests.HttpParser();
      connections := new HashTables.ConcurrentHashMap<Descriptor, Context>(hash);
      handles, descriptors, watched := map[], {}, map[];
      lastConnection, halt := None, None;
      lastHandle, ids, accepted, orphans, strays := 0, map[], 0, {}, {};
      new;
      BootedInv(View());
    }

    /** Every context that an event or Terminate may use has room for what the pool's blocks are made for. */
    lemma ContextsHaveSize()
      requires Valid()
      ensures forall fd :: fd in connections.contents ==>
                connections.contents[fd].Length == connectionsMemPool.blockSize
      ensures forall ctx :: ctx in connectionsMemPool.inUse ==> ctx.Length == connectionsMemPool.blockSize
    {
      hide HashTables.ConcurrentHashMap.Valid;
      hide Conserved;
      forall fd | fd in connections.contents ensures connections.contents[fd] in connectionsMemPool.inUse {
        HeldByItsBlock(View(), fd);
      }
    }

    /** HttpServer.cpp, lines 119-129; `memory` tells whether the `new` of Insert succeeds. */
    method OnClientConnected(ctx: Context, memory: bool) returns (ok: bool)
      requires ctx in handles && connections.Valid()
      modifies `lastConnection, connections, connections.buckets, connections.nodes
      ensures connections.Valid() && fresh(connections.nodes - old(connections.nodes))
      ensures lastConnection == Some(ctx) && (ok <==> memory || handles[ctx] in old(connections.contents))
      ensures connections.contents ==
              if ok then old(connections.contents)[handles[ctx] := ctx] else old(connections.contents)
    {
      hide HashTables.ConcurrentHashMap.Valid;
      lastConnection := Some(ctx);
      ok := connections.Insert(handles[ctx], ctx, memory);
    }

    /** HttpServer.cpp, lines 131-140. */
    method OnClientDisconnected(ctx: Context)
      requires ctx in handles && connections.Valid()
      modifies connections, connections.buckets, connections.nodes
      ensures connections.Valid() && connections.nodes == old(connections.nodes)
      ensures connections.contents == old(connections.contents) - {handles[ctx]}
    {
      hide HashTables.ConcurrentHashMap.Valid;
      connections.Erase(handles[ctx]);
    }

    /** accept returns a descriptor that is not open: the offered one, if it can. */
    method AcceptDescriptor(offered: Descriptor) returns (fd: Descriptor)
      ensures fd > serverSocket && fd !in descriptors
      ensures offered > serverSocket && offered !in descriptors ==> fd == offered
    {
      if offered > serverSocket && offered !in descriptors { return offered; }
      ghost var taken := descriptors + {serverSocket};
      ghost var high := UpperBound(taken);
      assert serverSocket in taken && (high in descriptors ==> high in taken);
      assert high > serverSocket && high !in descriptors;
      fd :| fd > serverSocket && fd !in descriptors;
    }

    /** The channel: the new descriptor is stored in the context. */
    method AcceptConnection(ctx: Context, descriptor: Descriptor)
      modifies `descriptors, `handles, `lastHandle, `accepted
      ensures descriptors == old(descriptors) + {descriptor} && handles == old(handles)[ctx := descriptor]
      ensures lastHandle == descriptor && accepted == old(accepted) + 1
    {
      descriptors := descriptors + {descriptor};
      handles := handles[ctx := descriptor];
      lastHandle, accepted := descriptor, accepted + 1;
    }

    /** Server.cpp, lines 239-247, for a context that the pool has given.  Without memory for its node the connection
        is accepted and not stored. */
    method Admit(ctx: Context, fd: Descriptor, memory: bool) returns (ok: bool)
      requires connections.Valid() && fd !in connections.contents
      modifies `descriptors, `handles, `lastHandle, `ids, `accepted, `lastConnection, `watched
      modifies connections, connections.buckets, connections.nodes
      ensures connections.Valid() && fresh(connections.nodes - old(connections.nodes)) && ok == memory
      ensures descriptors == old(descriptors) + {fd} && handles == old(handles)[ctx := fd]
      ensures lastHandle == fd && accepted == old(accepted) + 1 && lastConnection == Some(ctx)
      ensures connections.contents == if ok then old(connections.contents)[fd := ctx] else old(connections.contents)
      ensures watched == if ok then old(watched)[fd := ctx] else old(watched)
      ensures ids == if ok then old(ids)[fd := old(accepted)] else old(ids)
    {
      hide HashTables.ConcurrentHashMap.Valid;
      AcceptConnection(ctx, fd);
      ok := OnClientConnected(ctx, memory);
      if ok {
        watched := watched[handles[ctx] := ctx];
        ids := ids[fd := accepted - 1];
      }
    }

    /** Server.cpp, lines 235-239: a context from the pool and a descriptor from accept. */
    method Obtain(input: Input) returns (fd: Descriptor, block: Outcome<Context>, ghost env: Env)
      requires connectionsMemPool.Valid()
      modifies connectionsMemPool
      ensures connectionsMemPool.Valid() && env.descriptor == fd && Agrees(input, env)
      ensures block == Result(old(connectionsMemPool.View()), env.made)
      ensures connectionsMemPool.View() == Next(old(connectionsMemPool.View()), Get(env.made))
      ensures EnvOk(old(View()), env) && fd !in descriptors && (input.memory ==> block != BadAlloc)
    {
      hide MemoryPool.Valid;
      ghost var before := connectionsMemPool.View();
      fd := AcceptDescriptor(input.descriptor);
      block := connectionsMemPool.GetMemory(input.memory);
      ghost var made := if input.memory && |before.idle| == 0 && block.Block? then Some(block.block) else None;
      env := Env(fd, made, input.failure, input.text, input.handling);
    }

    /** Server.cpp, lines 237-247: what follows when the pool has given a context. */
    method Serve(ctx: Context, fd: Descriptor, failure: Failure)
      requires connections.Valid() && fd !in connections.contents && halt == None
      modifies this, connections, connections.buckets, connections.nodes
      ensures connections.Valid() && fresh(connections.nodes - old(connections.nodes))
      ensures View() == Store(old(View()), ctx, fd, failure, connectionsMemPool.View())
    {
      hide HashTables.ConcurrentHashMap.Valid;
      if failure == NoTimer {
        orphans, halt := orphans + {ctx}, Some(OutOfMemory);
        return;
      }
      var ok := Admit(ctx, fd, failure != NoNode);
      if !ok {
        orphans, strays, halt := orphans + {ctx}, strays + {fd}, Some(OutOfMemory);
      }
    }

    /** Server.cpp, lines 232-248.  Whatever throws leaves the loop. */
    method HandleNewConnectionEvent(input: Input) returns (ghost env: Env)
      requires Valid() && halt == None
      modifies this, connectionsMemPool, connections, connections.buckets, connections.nodes
      ensures Valid() && fresh(connections.nodes - old(connections.nodes))
      ensures View() == Accept(old(View()), env) && EnvOk(old(View()), env) && Agrees(input, env)
      ensures input.memory && input.failure == NoFailure ==> halt != Some(OutOfMemory)
    {
      hide Next;
      hide Result;
      hide EnvOk;
      hide Inv;
      hide Store;
      hide MemoryPool.Valid;
      hide HashTables.ConcurrentHashMap.Valid;
      hide HttpRequests.HttpParser.Valid;
      ghost var before := View();
      NotConnected(before);
      var fd, block;
      fd, block, env := Obtain(input);
      AcceptKeeps(before, env);
      AcceptOutcome(before, env);
      StoreForgets(before, fd, env.failure, connectionsMemPool.View());
      if block.Exhausted? {
        halt := Some(PoolExhausted);
      } else if block.BadAlloc? {
        halt := Some(OutOfMemory);
      } else {
        Serve(block.block, fd, input.failure);
      }
      assert View() == Accept(before, env);
    }

    /** Server.cpp, lines 125-130: all but the release of the context. */
    method Drop(ctx: Context)
      requires ctx in handles && connections.Valid()
      modifies `watched, `descriptors, `ids, connections, connections.buckets, connections.nodes
      ensures connections.Valid() && connections.nodes == old(connections.nodes)
      ensures watched == old(watched) - {handles[ctx]} && descriptors == old(descriptors) - {handles[ctx]}
      ensures connections.contents == old(connections.contents) - {handles[ctx]} && ids == old(ids) - {handles[ctx]}
    {
      hide HashTables.ConcurrentHashMap.Valid;
      watched := watched - {handles[ctx]};
      descriptors := descriptors - {handles[ctx]};
      OnClientDisconnected(ctx);
      ids := ids - {handles[ctx]};
    }

    /** Server.cpp, lines 123-133. */
    method HandleDisconnectionEvent(ctx: Context)
      requires Valid() && Live(View(), ctx) && ctx !in orphans
      modifies this, connectionsMemPool, connections, connections.buckets, connections.nodes
      ensures Valid() && connections.nodes == old(connections.nodes)
      ensures View() == Hangup(old(View()), ctx) && halt == old(halt)
    {
      hide Next;
      hide MemoryPool.Valid;
      hide HashTables.ConcurrentHashMap.Valid;
      hide HttpRequests.HttpParser.Valid;
      hide Inv;
      ghost var before := View();
      HangupKeeps(before, ctx);
      Drop(ctx);
      connectionsMemPool.Release(ctx, None);
      assert View() == Hangup(before, ctx);
    }

    /** Server.cpp, lines 250-268, and HttpServer.cpp, lines 142-199, inside the catch-all of lines 197-205. */
    method HandleMessageEvent(ctx: Context, input: Input) returns (ghost env: Env)
      requires Valid() && halt == None && Live(View(), ctx)
      modifies this, connectionsMemPool, parser, connections, connections.buckets, connections.nodes
      ensures Valid() && connections.nodes == old(connections.nodes)
      ensures View() == Receive(old(View()), ctx, env) && Agrees(input, env)
      ensures input.handling == OtherError || |input.text| == 0 ==> connections.contents == old(connections.contents)
    {
      hide Inv;
      hide MemoryPool.Valid;
      hide HashTables.ConcurrentHashMap.Valid;
      hide HttpRequests.Parse;
      hide Hangup;
      env := Env(input.descriptor, None, input.failure, input.text, input.handling);
      ghost var before := View();
      NoOrphans(before);
      ReceiveKeeps(before, ctx, env);
      ReceiveExactly(before, ctx, env);
      if |input.text| == 0 { return; }
      var outcome := parser.RequestFromBuffer(input.text);
      if outcome.Undefined? {
        halt := Some(BadRequestAccess);
        return;
      }
      if outcome.OutOfRange? || input.handling == OtherError { return; }
      var value := HeaderValue(outcome.request.headers, "Connection");
      if value == Some("close") { HandleDisconnectionEvent(ctx); }
    }

    /** Server.cpp, lines 185-224: the dispatch of one event. */
    method HandleEvent(evt: Event, input: Input) returns (ghost env: Env)
      requires Valid() && halt == None
      requires var ctx := DigestEvent(serverSocket, evt).0; ctx.Some? ==> Live(View(), ctx.value)
      modifies this, connectionsMemPool, parser, connections, connections.buckets, connections.nodes
      ensures Valid() && fresh(connections.nodes - old(connections.nodes))
      ensures View() == Dispatch(old(View()), evt, env) && Agrees(input, env)
      ensures evt.ident == serverSocket ==> EnvOk(old(View()), env)
    {
      hide Inv;
      hide MemoryPool.Valid;
      hide HashTables.ConcurrentHashMap.Valid;
      hide HttpRequests.HttpParser.Valid;
      hide EnvOk;
      hide Accept;
      hide Receive;
      hide Hangup;
      NoOrphans(View());
      var (context, kind) := DigestEvent(serverSocket, evt);
      if context == None {
        env := HandleNewConnectionEvent(input);
      } else {
        env := Env(input.descriptor, None, input.failure, input.text, input.handling);
        match kind {
          case Read => env := HandleMessageEvent(context.value, input);
          case Disconnect => HandleDisconnectionEvent(context.value);
          case Write =>
          case Weird =>
        }
      }
    }

    /** Server.cpp, lines 182-225: one turn of the loop.  An exception leaves it. */
    method HandleEvents(evtList: seq<Event>, inputs: seq<Input>) returns (ghost envs: seq<Env>)
      requires |evtList| == |inputs| && Valid() && halt == None && Fetched(View(), evtList)
      modifies this, connectionsMemPool, parser, connections, connections.buckets, connections.nodes
      ensures Valid() && fresh(connections.nodes - old(connections.nodes))
      ensures Completed(old(View()), evtList, inputs, envs, View())
    {
      hide Inv;
      hide During;
      hide Dispatch;
      hide Completed;
      hide Fetched;
      hide MemoryPool.Valid;
      hide HashTables.ConcurrentHashMap.Valid;
      hide HttpRequests.HttpParser.Valid;
      ghost var was := View();
      envs := [];
      Started(was, evtList, inputs);
      for i := 0 to |evtList|
        invariant Valid() && serverSocket == was.server && During(was, evtList, inputs, envs, i, View())
        invariant fresh(connections.nodes - old(connections.nodes))
      {
        ghost var before := View();
        NextIsLive(was, evtList, inputs, envs, i, before);
        var env := HandleEvent(evtList[i], inputs[i]);
        Turn(was, evtList, inputs, envs, i, before, env);
        envs := envs + [env];
        if halt != None {
          envs := envs + Unread(inputs[i + 1..]);
          return;
        }
      }
      Ended(was, evtList, inputs, envs, View());
    }

    /** HttpServer.cpp, lines 78-86. */
    method DisconnectDownFrom(last: nat)
      requires Valid() && Intact(View())
      modifies this, connectionsMemPool, connections, connections.buckets, connections.nodes
      ensures Valid() && View() == Countdown(old(View()), last) && halt == old(halt)
    {
      hide Inv;
      hide Hangup;
      hide Countdown;
      hide MemoryPool.Valid;
      hide HashTables.ConcurrentHashMap.Valid;
      hide HttpRequests.HttpParser.Valid;
      var index: nat := last;
      ghost var done := Countdown(View(), last);
      while index > serverSocket
        invariant Valid() && halt == old(halt) && Countdown(View(), index) == done
        invariant connections.nodes == old(connections.nodes)
        decreases index
      {
        CountdownTurn(View(), index);
        var currentConnection := connections.Find(index);
        if currentConnection.Some? { HandleDisconnectionEvent(currentConnection.value); }
        index := index - 1;
      }
      CountdownTurn(View(), index);
    }

    /** HttpServer.cpp, lines 73-87, also after an exception has ended the loop. */
    method Terminate()
      requires Valid() && Intact(View())
      modifies this, connectionsMemPool, connections, connections.buckets, connections.nodes
      ensures Valid() && View() == Lifecycle.Terminate(old(View()))
      ensures halt == old(halt) <==> old(accepted) > 0
      ensures halt == old(halt) ==> connections.contents == Above(old(connections.contents), old(lastHandle))
    {
      hide Inv;
      hide Countdown;
      hide Lifecycle.Terminate;
      hide MemoryPool.Valid;
      hide HashTables.ConcurrentHashMap.Valid;
      hide HttpRequests.HttpParser.Valid;
      TerminateExact(View());
      LastIsHeld(View());
      if lastConnection == None {
        halt := Some(NoLastConnection);
      } else {
        DisconnectDownFrom(handles[lastConnection.value]);
      }
    }
  }

  lemma StoreForgets(s: State, fd: Descriptor, failure: Failure, pool: Pool<Context>)
    ensures forall ctx: Context {:trigger Store(s, ctx, fd, failure, pool)} ::
              Store(s.(pool := pool), ctx, fd, failure, pool) == Store(s, ctx, fd, failure, pool)
  {
  }

  lemma NoOrphans(s: State)
    requires Inv(s) && s.halt == None
    ensures s.orphans == {}
  {
  }

  lemma LastIsHeld(s: State)
    requires Inv(s) && Intact(s)
    ensures s.last == None ==> Lifecycle.Terminate(s) == s.(halt := Some(NoLastConnection))
    ensures s.last.Some? ==>
              && s.last.value in s.handles
              && Lifecycle.Terminate(s) == Countdown(s, s.handles[s.last.value])
  {
  }

  lemma CountdownTurn(s: State, index: nat)
    requires Inv(s) && Intact(s)
    ensures index <= s.server ==> Countdown(s, index) == s
    ensures index > s.server && index in s.connections ==>
              && Live(s, s.connections[index]) && s.connections[index] !in s.orphans
              && Countdown(s, index) == Countdown(Hangup(s, s.connections[index]), index - 1)
    ensures index > s.server && index !in s.connections ==> Countdown(s, index) == Countdown(s, index - 1)
  {
    hide Inv;
    hide Hangup;
    if index in s.connections {
      HeldByItsBlock(s, index);
      HangupKeeps(s, s.connections[index]);
    }
  }

  /** A descriptor that is not open stands for no connection. */
  lemma NotConnected(s: State)
    requires Inv(s)
    ensures forall fd :: fd !in s.descriptors ==> fd !in s.connections
  {
  }

  lemma Started(was: State, events: seq<Event>, inputs: seq<Input>)
    requires |events| == |inputs| && Inv(was) && was.halt == None && Fetched(was, events)
    ensures During(was, events, inputs, [], 0, was)
  {
    FetchedIsCurrent(was, events);
    assert events[0..] == events;
  }

  lemma NextIsLive(was: State, events: seq<Event>, inputs: seq<Input>, envs: seq<Env>, i: nat, now: State)
    requires i < |events| && During(was, events, inputs, envs, i, now) && Inv(now)
    ensures now.halt == None && |events| == |inputs|
    ensures events[i].ident != now.server ==> events[i].udata.Some? && Live(now, events[i].udata.value)
  {
    assert events[i..][0] in events[i..];
    assert Current(was, now, events[i]);
  }

  lemma Ended(was: State, events: seq<Event>, inputs: seq<Input>, envs: seq<Env>, now: State)
    requires During(was, events, inputs, envs, |events|, now)
    ensures Completed(was, events, inputs, envs, now)
  {
    assert events[..|events|] == events && inputs[..|inputs|] == inputs;
  }

  lemma {:induction false} ProcessCat(s: State, a: seq<Event>, ea: seq<Env>, b: seq<Event>, eb: seq<Env>)
    requires |a| == |ea| && |b| == |eb|
    ensures Process(s, a + b, ea + eb) == Process(Process(s, a, ea), b, eb)
    ensures EnvsOk(s, a, ea) && EnvsOk(Process(s, a, ea), b, eb) ==> EnvsOk(s, a + b, ea + eb)
    decreases |a|
  {
    hide Dispatch;
    hide EnvOk;
    if |a| == 0 {
      assert a + b == b && ea + eb == eb;
    } else {
      assert (a + b)[1..] == a[1..] + b && (ea + eb)[1..] == ea[1..] + eb;
      ProcessCat(Dispatch(s, a[0], ea[0]), a[1..], ea[1..], b, eb);
    }
  }

  lemma ProcessSnoc(s: State, a: seq<Event>, ea: seq<Env>, e: Event, env: Env)
    requires |a| == |ea| && EnvsOk(s, a, ea)
    requires var m := Process(s, a, ea); e.ident == m.server && m.halt == None ==> EnvOk(m, env)
    ensures Process(s, a + [e], ea + [env]) == Dispatch(Process(s, a, ea), e, env)
    ensures EnvsOk(s, a + [e], ea + [env])
  {
    hide Dispatch;
    hide EnvOk;
    var m := Process(s, a, ea);
    var m' := Dispatch(m, e, env);
    assert [e][1..] == [] && [env][1..] == [];
    assert Process(m', [], []) == m' && EnvsOk(m', [], []);
    assert Process(m, [e], [env]) == m' && EnvsOk(m, [e], [env]);
    ProcessCat(s, a, ea, [e], [env]);
  }

  /** What would have been brought to the events that are not dispatched any more. */
  ghost function Unread(inputs: seq<Input>): (envs: seq<Env>)
    ensures AllAgree(inputs, envs)
  {
    seq(|inputs|, k requires 0 <= k < |inputs| => Env(0, None, inputs[k].failure, inputs[k].text, inputs[k].handling))
  }

  /** One turn of the loop over a batch: the loop goes on, or it has ended and the other events are not dispatched. */
  lemma Turn(was: State, events: seq<Event>, inputs: seq<Input>, envs: seq<Env>, i: nat, before: State, env: Env)
    requires i < |events| && During(was, events, inputs, envs, i, before) && Inv(before) && Agrees(inputs[i], env)
    requires events[i].ident == before.server ==> EnvOk(before, env)
    ensures var after := Dispatch(before, events[i], env);
            && after.server == before.server
            && if after.halt == None then During(was, events, inputs, envs + [env], i + 1, after)
               else Completed(was, events, inputs, envs + [env] + Unread(inputs[i + 1..]), after)
  {
    hide Inv;
    hide Dispatch;
    hide EnvOk;
    hide Agrees;
    hide Current;
    var after := Dispatch(before, events[i], env);
    Later(was, before, events[i..], env);
    hide AllCurrent;
    assert events[i..][1..] == events[i + 1..];
    assert events[..i + 1] == events[..i] + [events[i]];
    ProcessSnoc(was, events[..i], envs, events[i], env);
    AgreeCat(inputs[..i], envs, [inputs[i]], [env]);
    assert inputs[..i + 1] == inputs[..i] + [inputs[i]];
    if after.halt.Some? { Stopped(was, events, inputs, envs + [env], Unread(inputs[i + 1..]), i + 1, after); }
  }

  lemma AgreeCat(a: seq<Input>, ea: seq<Env>, b: seq<Input>, eb: seq<Env>)
    requires AllAgree(a, ea) && AllAgree(b, eb)
    ensures AllAgree(a + b, ea + eb)
  {
    hide Agrees;
  }

  lemma Stopped(was: State, events: seq<Event>, inputs: seq<Input>, envs: seq<Env>, rest: seq<Env>, n: nat, now: State)
    requires n <= |events| == |inputs| && Completed(was, events[..n], inputs[..n], envs, now) && now.halt.Some?
    requires AllAgree(inputs[n..], rest)
    ensures Completed(was, events, inputs, envs + rest, now)
  {
    hide Dispatch;
    hide Agrees;
    AgreeCat(inputs[..n], envs, inputs[n..], rest);
    hide AllAgree;
    assert inputs[..n] + inputs[n..] == inputs && |rest| == |events[n..]| by { assert |rest| == |inputs[n..]|; }
    ProcessCat(was, events[..n], envs, events[n..], rest);
    HaltedStays(now, events[n..], rest);
    assert events[..n] + events[n..] == events;
  }
}
