/**
 The connections of the server: Server.cpp, HttpServer.cpp and EventHandler.cpp between one batch of events and the
 next.  The two server objects, which call each other, are one value here, together with what the operating system
 keeps for them: the open descriptors and the registrations of the event queue.
 */
module Lifecycle {
  import opened Options
  import opened MemoryPools
  import HttpRequests

  /** A block of the pool, which holds a SocketContext. */
  type Context = array<char>
  type Descriptor = nat

  /** What ends the loop: an exception, which leaves the objects intact; or an access without a defined
      outcome. */
  datatype Halt = PoolExhausted | OutOfMemory | BadRequestAccess | DeadContext | NoLastConnection

  datatype State = State(
    server: Descriptor,
    pool: Pool<Context>,
    handles: map<Context, Descriptor>,        // Socket.Handle, which a block keeps when it is released
    descriptors: set<Descriptor>,             // open client descriptors
    watched: map<Descriptor, Context>,        // read registrations of clients, with their udata
    connections: map<Descriptor, Context>,    // _connections
    last: Option<Context>,                    // _lastConnection; None while it is not initialised
    lastHandle: Descriptor,                   // what accept returned last
    ids: map<Descriptor, nat>,                // which accepted connection a descriptor stands for
    accepted: nat,
    orphans: set<Context>,                    // blocks taken for a connection that an exception kept from being stored
    strays: set<Descriptor>,                  // descriptors accepted for one
    halt: Option<Halt>)

  datatype EventType = Read | Write | Disconnect | Weird

  datatype Filter = ReadFilter | WriteFilter | OtherFilter

  datatype Event = Event(ident: Descriptor, filter: Filter, eof: bool, error: bool, udata: Option<Context>)

  /** How the handler of a request ends. */
  datatype Handling = Returned | HttpError | RuntimeError | OtherError

  /** Which other allocation of HandleNewConnectionEvent throws: that of the timer, before accept, or that of the
      node in which the connection is stored, after it. */
  datatype Failure = NoFailure | NoTimer | NoNode

  /** What the environment decides for an event: the descriptor that accept returns, the block that `new` yields and
      the allocation that fails; or the text that is read and how its handler ends. */
  datatype Env = Env(descriptor: Descriptor, made: Option<Context>, failure: Failure, text: string, handling: Handling)

  const MAX_CONNECTIONS: nat := 100
  const PRE_ALLOCATED: nat := 3

  // ---------------------------------------------------------------------------------------------
  // The steps
  // ---------------------------------------------------------------------------------------------

  /** DigestEvent: a later test overwrites an earlier one, so end-of-file on a read filter is a read. */
  function DigestEvent(server: Descriptor, e: Event): (Option<Context>, EventType) {
    if e.ident == server then (None, Weird)
    else
      var kind := if e.eof || e.error then Disconnect else Weird;
      var kind := if e.filter == ReadFilter then Read else kind;
      var kind := if e.filter == WriteFilter then Write else kind;
      (e.udata, kind)
  }

  /** What HandleNewConnectionEvent does with a context from the pool. */
  function Store(s: State, ctx: Context, fd: Descriptor, failure: Failure, pool: Pool<Context>): State {
    match failure
    case NoTimer => s.(pool := pool, orphans := s.orphans + {ctx}, halt := Some(OutOfMemory))
    case NoNode =>
      s.(pool := pool, handles := s.handles[ctx := fd], descriptors := s.descriptors + {fd}, last := Some(ctx),
         lastHandle := fd, accepted := s.accepted + 1, orphans := s.orphans + {ctx}, strays := s.strays + {fd},
         halt := Some(OutOfMemory))
    case NoFailure =>
      s.(pool := pool, handles := s.handles[ctx := fd], descriptors := s.descriptors + {fd}, last := Some(ctx),
         lastHandle := fd, connections := s.connections[fd := ctx], watched := s.watched[fd := ctx],
         ids := s.ids[fd := s.accepted], accepted := s.accepted + 1)
  }

  /** HandleNewConnectionEvent with OnClientConnected. */
  function Accept(s: State, env: Env): State {
    var pool := Next(s.pool, Get(env.made));
    match Result(s.pool, env.made)
    case Exhausted => s.(pool := pool, halt := Some(PoolExhausted))
    case BadAlloc => s.(pool := pool, halt := Some(OutOfMemory))
    case Block(ctx) => Store(s, ctx, env.descriptor, env.failure, pool)
  }

  /** A context may be used while its block is in use and holds a descriptor. */
  predicate Live(s: State, ctx: Context) {
    ctx in s.pool.inUse && ctx in s.handles
  }

  /** HandleDisconnectionEvent with OnClientDisconnected. */
  function Hangup(s: State, ctx: Context): State {
    if !Live(s, ctx) then s.(halt := Some(DeadContext)) else
    var fd := s.handles[ctx];
    s.(watched := s.watched - {fd}, descriptors := s.descriptors - {fd}, connections := s.connections - {fd},
       ids := s.ids - {fd}, pool := Next(s.pool, Call.Release(ctx, None)))
  }

  function HeaderValue(headers: seq<HttpRequests.Header>, key: string): Option<string> {
    if |headers| == 0 then None
    else if headers[0].key == key then Some(headers[0].value)
    else HeaderValue(headers[1..], key)
  }

  /** OnClientMessage gets as far as its last line, and that asks for the connection to be closed. */
  predicate Closes(env: Env) {
    && |env.text| > 0
    && env.handling != OtherError
    && var r := HttpRequests.Parse(env.text);
       r.Parsed? && HeaderValue(r.request.headers, "Connection") == Some("close")
  }

  /** HandleMessageEvent: whatever is thrown is swallowed. */
  function Receive(s: State, ctx: Context, env: Env): State {
    if !Live(s, ctx) then s.(halt := Some(DeadContext))
    else if |env.text| > 0 && HttpRequests.Parse(env.text).Undefined? then s.(halt := Some(BadRequestAccess))
    else if Closes(env) then Hangup(s, ctx) else s
  }

  function Dispatch(s: State, e: Event, env: Env): State {
    if s.halt.Some? then s else
    var (context, kind) := DigestEvent(s.server, e);
    if context.None? then Accept(s, env)
    else match kind
      case Read => Receive(s, context.value, env)
      case Disconnect => Hangup(s, context.value)
      case Write => s
      case Weird => s
  }

  function Process(s: State, events: seq<Event>, envs: seq<Env>): State
    requires |events| == |envs|
    decreases |events|
  {
    if |events| == 0 then s else Process(Dispatch(s, events[0], envs[0]), events[1..], envs[1..])
  }

  /** The loop of Terminate, from `index` down. */
  function Countdown(s: State, index: nat): State
    decreases index
  {
    if index <= s.server then s else
    var s' := if index in s.connections then Hangup(s, s.connections[index]) else s;
    if s'.halt == Some(DeadContext) then s' else Countdown(s', index - 1)
  }

  /** The objects are as some sequence of calls left them: the loop runs, or an exception ended it. */
  predicate Intact(s: State) {
    s.halt == None || s.halt == Some(PoolExhausted) || s.halt == Some(OutOfMemory)
  }

  /** HttpServer::Terminate, which may also be called after an exception has ended the loop. */
  function Terminate(s: State): State {
    if !Intact(s) then s
    else if s.last.None? || s.last.value !in s.handles then s.(halt := Some(NoLastConnection))
    else Countdown(s, s.handles[s.last.value])
  }

  /** The first of the headers with this key has this value. */
  ghost predicate FirstIs(headers: seq<HttpRequests.Header>, key: string, value: string) {
    exists i: nat :: i < |headers| && headers[i] == HttpRequests.Header(key, value) &&
                     forall j: nat :: j < i ==> headers[j].key != key
  }

  /** A well-formed request, sent as RFC 2616 prescribes, closes its connection exactly when its handling ends in no
      unknown exception and the first of its Connection headers says so. */
  lemma RequestCloses(r: HttpRequests.Request, env: Env)
    requires HttpRequests.WellFormed(r) && env.text == HttpRequests.Print(r)
    ensures Closes(env) <==> env.handling != OtherError && FirstIs(r.headers, "Connection", "close")
  {
    HttpRequests.PrintedRequestParses(r);
    FirstValue(r.headers, "Connection", "close");
  }

  lemma {:induction false} FirstValue(headers: seq<HttpRequests.Header>, key: string, value: string)
    ensures HeaderValue(headers, key) == Some(value) <==> FirstIs(headers, key, value)
  {
    if |headers| > 0 && headers[0].key == key {
      if headers[0].value == value { assert headers[0] == HttpRequests.Header(key, value); }
    } else if |headers| > 0 {
      FirstValue(headers[1..], key, value);
      if i: nat :| i < |headers[1..]| && headers[1..][i] == HttpRequests.Header(key, value) &&
                   forall j: nat :: j < i ==> headers[1..][j].key != key {
        assert headers[i + 1] == HttpRequests.Header(key, value);
        forall j: nat | j < i + 1 ensures headers[j].key != key {
          if j > 0 { assert headers[j] == headers[1..][j - 1]; }
        }
      }
      if i: nat :| i < |headers| && headers[i] == HttpRequests.Header(key, value) &&
                   forall j: nat :: j < i ==> headers[j].key != key {
        assert headers[1..][i - 1] == headers[i];
        forall j: nat | j < i - 1 ensures headers[1..][j].key != key { assert headers[1..][j] == headers[j + 1]; }
      }
    }
  }

  // ---------------------------------------------------------------------------------------------
  // What the environment may do
  // ---------------------------------------------------------------------------------------------

  /** accept returns a descriptor that is not open, above the server's; `new` returns a block that does not exist. */
  predicate EnvOk(s: State, env: Env) {
    && env.descriptor > s.server && env.descriptor !in s.descriptors
    && Legal(s.pool, Get(env.made))
  }

  ghost predicate EnvsOk(s: State, events: seq<Event>, envs: seq<Env>)
    requires |events| == |envs|
    decreases |events|
  {
    |events| > 0 && s.halt == None ==>
      && (events[0].ident == s.server ==> EnvOk(s, envs[0]))
      && EnvsOk(Dispatch(s, events[0], envs[0]), events[1..], envs[1..])
  }

  /** What a read event of the queue looks like: the listening socket, or a registration with its udata. */
  predicate Fired(s: State, e: Event) {
    && e.filter == ReadFilter
    && if e.ident == s.server then true else e.ident in s.watched && e.udata == Some(s.watched[e.ident])
  }

  predicate OncePerDescriptor(events: seq<Event>) {
    forall i, j :: 0 <= i < j < |events| ==> events[i].ident != events[j].ident
  }

  /** A batch that the queue may yield: at most one event for a descriptor, since only reads are registered. */
  ghost predicate Fetched(s: State, events: seq<Event>) {
    |events| <= 32 && OncePerDescriptor(events) && forall e :: e in events ==> Fired(s, e)
  }

  datatype Action = Batch(events: seq<Event>, envs: seq<Env>) | Termination

  ghost predicate MayHappen(s: State, a: Action) {
    a.Batch? ==> |a.events| == |a.envs| && Fetched(s, a.events) && EnvsOk(s, a.events, a.envs)
  }

  function Act(s: State, a: Action): State {
    match a
    case Batch(events, envs) => if |events| == |envs| then Process(s, events, envs) else s
    case Termination => Terminate(s)
  }

  ghost predicate Run(s: State, actions: seq<Action>, s': State)
    decreases |actions|
  {
    if |actions| == 0 then s' == s
    else MayHappen(s, actions[0]) && Run(Act(s, actions[0]), actions[1..], s')
  }

  function StateAfter(s: State, actions: seq<Action>): State
    decreases |actions|
  {
    if |actions| == 0 then s else StateAfter(Act(s, actions[0]), actions[1..])
  }

  lemma {:induction false} RunIsAfter(s: State, actions: seq<Action>, s': State)
    requires Run(s, actions, s')
    ensures s' == StateAfter(s, actions)
    decreases |actions|
  {
    if |actions| > 0 { RunIsAfter(Act(s, actions[0]), actions[1..], s'); }
  }

  /** The state in which the loop begins. */
  ghost predicate Booted(s: State) {
    && Constructed(s.pool, PRE_ALLOCATED) && s.pool.max == MAX_CONNECTIONS
    && s.descriptors == {} && s.watched == map[] && s.connections == map[] && s.ids == map[]
    && s.last == None && s.accepted == 0 && s.orphans == {} && s.strays == {} && s.halt == None
  }

  // ---------------------------------------------------------------------------------------------
  // The invariant
  // ---------------------------------------------------------------------------------------------

  ghost predicate PoolOk(s: State) {
    && Conserved(s.pool) && s.pool.max == MAX_CONNECTIONS <= s.pool.capacity
    && (s.pool.lost > 0 ==> s.halt.Some?)
  }

  /** Descriptors, registrations and connections agree but for strays, and are those of clients. */
  ghost predicate TablesAgree(s: State) {
    && s.watched == s.connections
    && s.descriptors == s.connections.Keys + s.strays && s.connections.Keys == s.ids.Keys
    && (forall fd :: fd in s.strays ==> fd !in s.connections)
    && (forall fd :: fd in s.connections ==> fd > s.server)
    && (forall fd :: fd in s.ids ==> s.ids[fd] < s.accepted)
  }

  /** The connections are exactly the blocks in use that are not orphans, and each block holds its own descriptor. */
  ghost predicate ContextsAgree(s: State) {
    && (forall fd :: fd in s.connections ==>
          var ctx := s.connections[fd]; Live(s, ctx) && s.handles[ctx] == fd && ctx !in s.orphans)
    && s.orphans <= s.pool.inUse
    && (forall ctx :: ctx in s.pool.inUse && ctx !in s.orphans ==>
          ctx in s.handles && s.handles[ctx] in s.connections && s.connections[s.handles[ctx]] == ctx)
  }

  /** _lastConnection still reads the descriptor that was accepted last. */
  ghost predicate LastOk(s: State) {
    if s.accepted == 0 then s.last == None && s.connections == map[]
    else s.last.Some? && s.last.value in s.handles && s.handles[s.last.value] == s.lastHandle
  }

  /** At most one connection is lost halfway, and that ends the loop. */
  ghost predicate LeaksOk(s: State) {
    && |s.strays| <= |s.orphans| <= 1
    && (s.halt == None ==> s.orphans == {} && s.strays == {})
  }

  ghost predicate Inv(s: State) {
    PoolOk(s) && TablesAgree(s) && ContextsAgree(s) && LastOk(s) && LeaksOk(s)
  }

  /** Nothing that is dead was used. */
  predicate Sound(s: State) {
    s.halt != Some(DeadContext)
  }

  lemma BootedInv(s: State)
    requires Booted(s)
    ensures Inv(s) && Sound(s)
  {
    ConstructedConserved(s.pool, PRE_ALLOCATED);
  }

  // ---------------------------------------------------------------------------------------------
  // Accepting
  // ---------------------------------------------------------------------------------------------

  ghost predicate SameTables(s: State, s': State) {
    s'.connections == s.connections && s'.ids == s.ids && s.accepted <= s'.accepted
  }

  /** Descriptor fd stands for a new connection. */
  ghost predicate Grew(s: State, s': State, fd: Descriptor) {
    && fd !in s.connections && fd in s'.connections && s'.connections == s.connections[fd := s'.connections[fd]]
    && fd !in s.ids && s'.ids == s.ids[fd := s.accepted] && s'.accepted == s.accepted + 1
  }

  /** Descriptor fd stands for no connection any more. */
  ghost predicate Shrank(s: State, s': State, fd: Descriptor) {
    s'.connections == s.connections - {fd} && s'.ids == s.ids - {fd} && s'.accepted == s.accepted
  }

  lemma AcceptTables(s: State, env: Env)
    requires TablesAgree(s) && s.halt == None && env.descriptor > s.server && env.descriptor !in s.descriptors
    ensures TablesAgree(Accept(s, env)) && Accept(s, env).server == s.server
    ensures if Accept(s, env).halt == None then Grew(s, Accept(s, env), env.descriptor)
            else SameTables(s, Accept(s, env))
  {
    hide Next;
    hide Result;
    match Result(s.pool, env.made)
    case Block(ctx) => StoreTables(s, ctx, env.descriptor, env.failure, Next(s.pool, Get(env.made)));
    case Exhausted =>
    case BadAlloc =>
  }

  lemma StoreTables(s: State, ctx: Context, fd: Descriptor, failure: Failure, pool: Pool<Context>)
    requires TablesAgree(s) && s.halt == None && fd > s.server && fd !in s.descriptors
    ensures TablesAgree(Store(s, ctx, fd, failure, pool))
    ensures if failure == NoFailure then Grew(s, Store(s, ctx, fd, failure, pool), fd)
            else SameTables(s, Store(s, ctx, fd, failure, pool))
  {
    var s' := Store(s, ctx, fd, failure, pool);
    assert fd !in s.connections && fd !in s.ids && fd !in s.strays;
    assert s'.descriptors == s'.connections.Keys + s'.strays;
  }

  lemma StoreContexts(s: State, ctx: Context, fd: Descriptor, failure: Failure, pool: Pool<Context>)
    requires TablesAgree(s) && ContextsAgree(s) && ctx !in s.pool.inUse && fd !in s.descriptors
    requires pool.inUse == s.pool.inUse + {ctx}
    ensures ContextsAgree(Store(s, ctx, fd, failure, pool))
  {
    var s' := Store(s, ctx, fd, failure, pool);
    forall f | f in s'.connections
      ensures Live(s', s'.connections[f]) && s'.handles[s'.connections[f]] == f && s'.connections[f] !in s'.orphans
    {
      if f in s.connections { assert s.connections[f] != ctx; }
    }
    forall c | c in s'.pool.inUse && c !in s'.orphans
      ensures c in s'.handles && s'.handles[c] in s'.connections && s'.connections[s'.handles[c]] == c
    {
      if c != ctx { assert c in s.pool.inUse && c !in s.orphans && s.handles[c] != fd; }
    }
  }

  lemma AcceptContexts(s: State, env: Env)
    requires TablesAgree(s) && ContextsAgree(s) && EnvOk(s, env)
    requires Result(s.pool, env.made).Block? ==> Result(s.pool, env.made).block !in s.pool.inUse
    ensures ContextsAgree(Accept(s, env))
  {
    GetInUse(s.pool, env.made);
    hide Next;
    hide Result;
    match Result(s.pool, env.made)
    case Block(ctx) => StoreContexts(s, ctx, env.descriptor, env.failure, Next(s.pool, Get(env.made)));
    case Exhausted =>
    case BadAlloc =>
  }

  lemma GetInUse(p: Pool<Context>, made: Option<Context>)
    ensures Next(p, Get(made)).inUse == match Result(p, made) case Block(b) => p.inUse + {b} case _ => p.inUse
  {
  }

  /** Which pool Accept leaves, and whether it ends the loop. */
  lemma AcceptOutcome(s: State, env: Env)
    requires s.halt == None
    ensures Accept(s, env).pool == Next(s.pool, Get(env.made))
    ensures Accept(s, env).halt ==
            match Result(s.pool, env.made)
            case Exhausted => Some(PoolExhausted)
            case BadAlloc => Some(OutOfMemory)
            case Block(ctx) => if env.failure == NoFailure then None else Some(OutOfMemory)
  {
    hide Next;
    hide Result;
    match Result(s.pool, env.made)
    case Block(ctx) => assert Accept(s, env) == Store(s, ctx, env.descriptor, env.failure, Next(s.pool, Get(env.made)));
    case Exhausted =>
    case BadAlloc =>
  }

  lemma GetLoses(p: Pool<Context>, made: Option<Context>)
    ensures Next(p, Get(made)).lost > p.lost ==> Result(p, made).BadAlloc?
  {
  }

  lemma AcceptPool(s: State, env: Env)
    requires PoolOk(s) && s.halt == None && Legal(s.pool, Get(env.made))
    ensures PoolOk(Accept(s, env)) && Sound(Accept(s, env))
  {
    StepConserves(s.pool, Get(env.made));
    GetLoses(s.pool, env.made);
    AcceptOutcome(s, env);
    hide Conserved;
    hide Next;
    hide Result;
    hide Accept;
  }

  lemma AcceptRest(s: State, env: Env)
    requires LastOk(s) && LeaksOk(s) && s.halt == None
    ensures LastOk(Accept(s, env)) && LeaksOk(Accept(s, env))
  {
    hide Next;
    hide Result;
    match Result(s.pool, env.made)
    case Block(ctx) =>
      var s' := Store(s, ctx, env.descriptor, env.failure, Next(s.pool, Get(env.made)));
      assert s.orphans + {ctx} == {ctx} && s.strays + {env.descriptor} == {env.descriptor};
      assert LastOk(s') && LeaksOk(s');
    case Exhausted =>
    case BadAlloc =>
  }

  lemma AcceptKeeps(s: State, env: Env)
    requires Inv(s) && s.halt == None && EnvOk(s, env)
    ensures Inv(Accept(s, env)) && Sound(Accept(s, env)) && Accept(s, env).server == s.server
    ensures if Accept(s, env).halt == None then Grew(s, Accept(s, env), env.descriptor)
            else SameTables(s, Accept(s, env))
  {
    GetIsNew(s.pool, env.made);
    AcceptTables(s, env);
    AcceptContexts(s, env);
    AcceptPool(s, env);
    AcceptRest(s, env);
    hide Accept;
    hide Grew;
    hide TablesAgree;
    hide ContextsAgree;
    hide PoolOk;
    hide LastOk;
    hide LeaksOk;
  }

  lemma StoreLeaves(s: State, ctx: Context, fd: Descriptor, failure: Failure, pool: Pool<Context>)
    requires s.halt == None && s.watched == s.connections
    ensures var s' := Store(s, ctx, fd, failure, pool);
            && s'.pool == pool && s'.watched == s'.connections
            && (s'.halt == if failure == NoFailure then None else Some(OutOfMemory))
            && (s'.connections == if failure == NoFailure then s.connections[fd := ctx] else s.connections)
            && (s'.descriptors == if failure == NoTimer then s.descriptors else s.descriptors + {fd})
            && (if failure == NoTimer then s'.last == s.last && s'.lastHandle == s.lastHandle && s'.handles == s.handles
                else s'.last == Some(ctx) && s'.lastHandle == fd && s'.handles == s.handles[ctx := fd])
  {
  }

  lemma ExhaustedSame(p: Pool<Context>, made: Option<Context>)
    ensures Result(p, made).Exhausted? ==> Next(p, Get(made)) == p
  {
  }

  /** What is left after an accept, by what failed.  Without a connection to be had nothing has changed.  When only the
      table's node is missing the descriptor is open and the context is the last one, but there is neither a connection
      nor a registration; when the timer is missing there is just the block, which nobody holds. */
  lemma AcceptLeaves(s: State, env: Env)
    requires Inv(s) && s.halt == None && EnvOk(s, env)
    ensures var s', fd, failure := Accept(s, env), env.descriptor, env.failure;
            && s'.watched == s'.connections
            && match Result(s.pool, env.made)
               case Block(ctx) =>
                 && ctx !in s.pool.inUse && s'.pool.inUse == s.pool.inUse + {ctx}
                 && (s'.halt == if failure == NoFailure then None else Some(OutOfMemory))
                 && (s'.connections == if failure == NoFailure then s.connections[fd := ctx] else s.connections)
                 && (s'.descriptors == if failure == NoTimer then s.descriptors else s.descriptors + {fd})
                 && (if failure == NoTimer then s'.last == s.last && s'.lastHandle == s.lastHandle
                     else s'.last == Some(ctx) && s'.lastHandle == fd && s'.handles == s.handles[ctx := fd])
               case Exhausted => s' == s.(halt := Some(PoolExhausted))
               case BadAlloc => s'.(pool := s.pool) == s.(halt := Some(OutOfMemory)) && s'.pool.inUse == s.pool.inUse
  {
    GetInUse(s.pool, env.made);
    GetIsNew(s.pool, env.made);
    ExhaustedSame(s.pool, env.made);
    Registered(s);
    hide Inv;
    hide EnvOk;
    hide Next;
    hide Result;
    hide Store;
    match Result(s.pool, env.made)
    case Block(ctx) => StoreLeaves(s, ctx, env.descriptor, env.failure, Next(s.pool, Get(env.made)));
    case Exhausted =>
    case BadAlloc =>
  }

  lemma Registered(s: State)
    requires Inv(s)
    ensures s.watched == s.connections
  {
  }

  // ---------------------------------------------------------------------------------------------
  // Disconnecting
  // ---------------------------------------------------------------------------------------------

  lemma HangupTables(s: State, ctx: Context)
    requires TablesAgree(s) && Live(s, ctx) && s.handles[ctx] in s.connections
    ensures TablesAgree(Hangup(s, ctx)) && Shrank(s, Hangup(s, ctx), s.handles[ctx])
  {
    hide Next;
    var fd := s.handles[ctx];
    assert fd !in s.strays;
    assert s.descriptors - {fd} == (s.connections - {fd}).Keys + s.strays;
  }

  lemma HangupContexts(s: State, ctx: Context)
    requires ContextsAgree(s) && Live(s, ctx) && ctx !in s.orphans
    ensures ContextsAgree(Hangup(s, ctx))
  {
    assert Next(s.pool, Call.Release(ctx, None)).inUse == s.pool.inUse - {ctx};
    hide Next;
    var s', fd := Hangup(s, ctx), s.handles[ctx];
    forall f | f in s'.connections
      ensures Live(s', s'.connections[f]) && s'.handles[s'.connections[f]] == f && s'.connections[f] !in s'.orphans
    {
      assert f in s.connections && f != fd;
    }
    forall c | c in s'.pool.inUse && c !in s'.orphans
      ensures c in s'.handles && s'.handles[c] in s'.connections && s'.connections[s'.handles[c]] == c
    {
      assert c in s.pool.inUse && c != ctx && s.connections[fd] == ctx;
    }
  }

  lemma HangupPool(s: State, ctx: Context)
    requires PoolOk(s) && LastOk(s) && LeaksOk(s) && Live(s, ctx)
    ensures PoolOk(Hangup(s, ctx)) && LastOk(Hangup(s, ctx)) && LeaksOk(Hangup(s, ctx))
  {
    NoGrowth(s.pool, ctx);
    StepConserves(s.pool, Call.Release(ctx, None));
    hide Conserved;
  }

  lemma HangupKeeps(s: State, ctx: Context)
    requires Inv(s) && ctx in s.pool.inUse && ctx !in s.orphans
    ensures Live(s, ctx) && Inv(Hangup(s, ctx)) && Shrank(s, Hangup(s, ctx), s.handles[ctx])
    ensures Hangup(s, ctx).halt == s.halt && Hangup(s, ctx).server == s.server
    ensures Hangup(s, ctx).last == s.last && Hangup(s, ctx).lastHandle == s.lastHandle
    ensures Hangup(s, ctx).orphans == s.orphans && Hangup(s, ctx).strays == s.strays
  {
    assert Live(s, ctx) && s.handles[ctx] in s.connections;
    HangupTables(s, ctx);
    HangupContexts(s, ctx);
    HangupPool(s, ctx);
    hide Next;
    hide Shrank;
    hide TablesAgree;
    hide ContextsAgree;
    hide PoolOk;
    hide LastOk;
    hide LeaksOk;
  }

  lemma NoGrowth(p: Pool<Context>, ctx: Context)
    requires Conserved(p) && 0 < p.max <= p.capacity && ctx in p.inUse
    ensures !MustGrow(p, Call.Release(ctx, None))
  {
    assert p.inUse == (p.inUse - {ctx}) + {ctx};
  }

  lemma ReceiveKeeps(s: State, ctx: Context, env: Env)
    requires Inv(s) && s.halt == None && ctx in s.pool.inUse
    ensures Live(s, ctx) && Inv(Receive(s, ctx, env)) && Sound(Receive(s, ctx, env))
    ensures Receive(s, ctx, env).server == s.server
    ensures if Receive(s, ctx, env).halt != None then SameTables(s, Receive(s, ctx, env)) && !Closes(env)
            else if Closes(env) then Shrank(s, Receive(s, ctx, env), s.handles[ctx])
            else Receive(s, ctx, env) == s
  {
    assert ctx !in s.orphans;
    HangupKeeps(s, ctx);
    HaltKeeps(s, BadRequestAccess);
    hide Inv;
    hide Hangup;
    hide Shrank;
  }

  lemma ClosesExactly(env: Env)
    ensures |env.text| > 0 && HttpRequests.Parse(env.text).Parsed? ==>
              (Closes(env) <==> env.handling != OtherError &&
                                FirstIs(HttpRequests.Parse(env.text).request.headers, "Connection", "close"))
    ensures Closes(env) ==>
              |env.text| > 0 && HttpRequests.Parse(env.text).Parsed? && env.handling != OtherError
  {
    hide HttpRequests.Parse;
    if |env.text| > 0 && HttpRequests.Parse(env.text).Parsed? {
      FirstValue(HttpRequests.Parse(env.text).request.headers, "Connection", "close");
    }
  }

  /** What a message does to the connections.  One that parses closes its own exactly when its handling ends in no
      unknown exception and the first of its Connection headers says so; an unknown exception, no text, and a line that
      throws leave all of them open, and the loop running. */
  lemma ReceiveExactly(s: State, ctx: Context, env: Env)
    requires Inv(s) && s.halt == None && ctx in s.pool.inUse
    ensures ctx in s.handles && s.handles[ctx] in s.connections && s.connections[s.handles[ctx]] == ctx
    ensures var s', fd, outcome := Receive(s, ctx, env), s.handles[ctx], HttpRequests.Parse(env.text);
            && (|env.text| == 0 || outcome.OutOfRange? ==> s' == s)
            && (env.handling == OtherError ==> s'.connections == s.connections)
            && (|env.text| > 0 && outcome.Undefined? ==>
                  s'.connections == s.connections && s'.halt == Some(BadRequestAccess))
            && (|env.text| > 0 && outcome.Parsed? ==>
                  && s'.halt == None
                  && s'.connections ==
                     if env.handling != OtherError && FirstIs(outcome.request.headers, "Connection", "close")
                     then s.connections - {fd} else s.connections)
  {
    hide HttpRequests.Parse;
    hide Closes;
    hide FirstIs;
    hide Hangup;
    assert ctx !in s.orphans;
    HangupKeeps(s, ctx);
    ClosesExactly(env);
    hide Inv;
  }

  lemma HaltKeeps(s: State, halt: Halt)
    requires Inv(s)
    ensures Inv(s.(halt := Some(halt)))
  {
  }

  /** What an event that names a context does, whatever its filter.  Write events do nothing; other filters disconnect
      on end of file and on errors; for reads these flags do not matter. */
  lemma DispatchByFilter(s: State, e: Event, env: Env)
    requires Inv(s) && s.halt == None && e.ident != s.server && e.udata.Some? && e.udata.value in s.pool.inUse
    ensures e.udata.value in s.handles
    ensures var s', ctx := Dispatch(s, e, env), e.udata.value;
            match e.filter
            case WriteFilter => s' == s
            case OtherFilter =>
              && s'.halt == None
              && s'.connections == if e.eof || e.error then s.connections - {s.handles[ctx]} else s.connections
            case ReadFilter =>
              && Dispatch(s, e.(eof := !e.eof), env) == s' == Dispatch(s, e.(error := !e.error), env)
              && (|env.text| == 0 ==> s' == s)
  {
    hide HttpRequests.Parse;
    hide Receive;
    hide Hangup;
    hide Inv;
    hide Shrank;
    var ctx := e.udata.value;
    NoOrphan(s, ctx);
    HangupKeeps(s, ctx);
    HangupRemoves(s, ctx);
    if |env.text| == 0 { ReceiveExactly(s, ctx, env); }
  }

  lemma NoOrphan(s: State, ctx: Context)
    requires Inv(s) && s.halt == None
    ensures ctx !in s.orphans
  {
  }

  lemma HangupRemoves(s: State, ctx: Context)
    requires Live(s, ctx)
    ensures Hangup(s, ctx).connections == s.connections - {s.handles[ctx]} && Hangup(s, ctx).halt == s.halt
  {
    hide Next;
  }

  // ---------------------------------------------------------------------------------------------
  // One batch
  // ---------------------------------------------------------------------------------------------

  /** An event that has not been dispatched yet still means the connection that it meant when it was fetched. */
  ghost predicate Current(s0: State, s: State, e: Event) {
    && e.filter == ReadFilter
    && s.server == s0.server
    && (e.ident != s.server ==>
          && e.ident in s.connections && e.udata == Some(s.connections[e.ident])
          && e.ident in s0.ids && e.ident in s.ids && s.ids[e.ident] == s0.ids[e.ident])
  }

  ghost predicate AllCurrent(s0: State, s: State, events: seq<Event>) {
    OncePerDescriptor(events) && forall e :: e in events ==> Current(s0, s, e)
  }

  lemma FetchedIsCurrent(s: State, events: seq<Event>)
    requires Inv(s) && Fetched(s, events)
    ensures AllCurrent(s, s, events)
  {
    forall e | e in events ensures Current(s, s, e) { assert Fired(s, e); }
  }

  lemma HeldByItsBlock(s: State, fd: Descriptor)
    requires Inv(s) && fd in s.connections
    ensures s.connections[fd] in s.pool.inUse && s.connections[fd] !in s.orphans
    ensures s.connections[fd] in s.handles && s.handles[s.connections[fd]] == fd
  {
  }

  /** What dispatching an event comes to. */
  ghost predicate Became(s: State, e: Event, env: Env, s': State) {
    && Inv(s') && Sound(s') && s'.server == s.server
    && if s'.halt != None then SameTables(s, s') && (e.ident != s.server ==> !Closes(env))
       else if e.ident == s.server then Grew(s, s', env.descriptor)
       else if Closes(env) then Shrank(s, s', e.ident)
       else s' == s
  }

  lemma DispatchBecomes(s0: State, s: State, e: Event, env: Env)
    requires Inv(s) && s.halt == None && Current(s0, s, e) && (e.ident == s.server ==> EnvOk(s, env))
    ensures Became(s, e, env, Dispatch(s, e, env))
  {
    hide Accept;
    hide Receive;
    hide EnvOk;
    hide Closes;
    hide Grew;
    hide Shrank;
    if e.ident == s.server {
      AcceptKeeps(s, env);
    } else {
      HeldByItsBlock(s, e.ident);
      ReceiveKeeps(s, e.udata.value, env);
    }
    hide Inv;
  }

  /** One event leaves the other events of the batch. */
  lemma BecameKeeps(s0: State, s: State, e: Event, env: Env, s': State, f: Event)
    requires Became(s, e, env, s') && s'.halt == None && f.ident != e.ident && Current(s0, s, f)
    ensures Current(s0, s', f)
  {
    hide Inv;
    hide Closes;
  }

  lemma DispatchKeeps(s0: State, s: State, e: Event, env: Env, f: Event)
    requires Inv(s) && s.halt == None && Current(s0, s, e) && (e.ident == s.server ==> EnvOk(s, env))
    ensures var s' := Dispatch(s, e, env);
            && Inv(s') && Sound(s') && s'.server == s.server
            && (s'.halt == None && f.ident != e.ident && Current(s0, s, f) ==> Current(s0, s', f))
  {
    DispatchBecomes(s0, s, e, env);
    hide Dispatch;
    hide Inv;
    var s' := Dispatch(s, e, env);
    if s'.halt == None && f.ident != e.ident && Current(s0, s, f) { BecameKeeps(s0, s, e, env, s', f); }
  }

  lemma Later(s0: State, s: State, events: seq<Event>, env: Env)
    requires Inv(s) && s.halt == None && |events| > 0 && AllCurrent(s0, s, events)
    requires events[0].ident == s.server ==> EnvOk(s, env)
    ensures var s' := Dispatch(s, events[0], env);
            && Inv(s') && Sound(s') && s'.server == s.server
            && (s'.halt == None ==> AllCurrent(s0, s', events[1..]))
            && Current(s0, s, events[0])
  {
    hide Inv;
    hide Dispatch;
    hide Current;
    assert events[0] in events;
    DispatchKeeps(s0, s, events[0], env, events[0]);
    forall i | 1 <= i < |events|
      ensures Dispatch(s, events[0], env).halt == None ==> Current(s0, Dispatch(s, events[0], env), events[i])
    {
      assert events[i] in events;
      DispatchKeeps(s0, s, events[0], env, events[i]);
    }
  }

  lemma {:induction false} HaltedStays(s: State, events: seq<Event>, envs: seq<Env>)
    requires |events| == |envs| && s.halt.Some?
    ensures Process(s, events, envs) == s
  {
    if |events| > 0 { HaltedStays(s, events[1..], envs[1..]); }
  }

  lemma {:induction false} BatchKeeps(s0: State, s: State, events: seq<Event>, envs: seq<Env>)
    requires |events| == |envs| && Inv(s) && s.halt == None
    requires AllCurrent(s0, s, events) && EnvsOk(s, events, envs)
    ensures Inv(Process(s, events, envs)) && Sound(Process(s, events, envs))
    decreases |events|
  {
    hide Inv;
    hide Dispatch;
    hide AllCurrent;
    if |events| > 0 {
      Later(s0, s, events, envs[0]);
      var s' := Dispatch(s, events[0], envs[0]);
      if s'.halt.Some? {
        HaltedStays(s', events[1..], envs[1..]);
      } else {
        BatchKeeps(s0, s', events[1..], envs[1..]);
      }
    }
  }

  /** The context of an event is in use, holds the event's descriptor and is the connection for which it fired. */
  ghost predicate OnItsConnection(s0: State, s: State, e: Event) {
    && e.udata.Some? && Live(s, e.udata.value) && s.handles[e.udata.value] == e.ident
    && e.ident in s0.ids && e.ident in s.ids && s.ids[e.ident] == s0.ids[e.ident]
  }

  lemma CurrentIsLive(s0: State, s: State, e: Event)
    requires Inv(s) && Current(s0, s, e)
    ensures e.ident != s0.server ==> OnItsConnection(s0, s, e)
  {
  }

  /** Batch safety: every event is dispatched on the connection for which it fired, whatever the events before it
      closed and accepted. */
  lemma {:induction false} BatchSafety(s0: State, s: State, events: seq<Event>, envs: seq<Env>, k: nat)
    requires |events| == |envs| && k < |events| && Inv(s) && s.halt == None
    requires AllCurrent(s0, s, events) && EnvsOk(s, events, envs)
    ensures var s' := Process(s, events[..k], envs[..k]);
            s'.halt == None && events[k].ident != s0.server ==> OnItsConnection(s0, s', events[k])
    decreases k
  {
    hide Inv;
    hide Dispatch;
    hide AllCurrent;
    hide EnvOk;
    hide OnItsConnection;
    Later(s0, s, events, envs[0]);
    if k == 0 {
      CurrentIsLive(s0, s, events[0]);
    } else {
      var s' := Dispatch(s, events[0], envs[0]);
      assert events[..k][1..] == events[1..][..k - 1] && envs[..k][1..] == envs[1..][..k - 1];
      assert Process(s, events[..k], envs[..k]) == Process(s', events[1..][..k - 1], envs[1..][..k - 1]);
      if s'.halt.Some? {
        HaltedStays(s', events[1..][..k - 1], envs[1..][..k - 1]);
      } else {
        BatchSafety(s0, s', events[1..], envs[1..], k - 1);
      }
    }
  }

  /** Event k is dispatched and carries a message that closes this descriptor. */
  ghost predicate ClosesAt(s: State, events: seq<Event>, envs: seq<Env>, fd: Descriptor, k: nat)
    requires |events| == |envs| && k < |events|
  {
    events[k].ident == fd && Closes(envs[k]) && Process(s, events[..k], envs[..k]).halt == None
  }

  /** Some event of the batch closes this descriptor. */
  ghost predicate SomeCloses(s: State, events: seq<Event>, envs: seq<Env>, fd: Descriptor)
    requires |events| == |envs|
  {
    exists k: nat :: k < |events| && ClosesAt(s, events, envs, fd, k)
  }

  lemma ClosesAtStep(s: State, events: seq<Event>, envs: seq<Env>, fd: Descriptor, k: nat)
    requires |events| == |envs| && 0 < k < |events|
    ensures ClosesAt(s, events, envs, fd, k)
            <==> ClosesAt(Dispatch(s, events[0], envs[0]), events[1..], envs[1..], fd, k - 1)
  {
    hide Dispatch;
    hide Closes;
    assert events[..k][1..] == events[1..][..k - 1] && envs[..k][1..] == envs[1..][..k - 1];
  }

  lemma SomeClosesStep(s: State, events: seq<Event>, envs: seq<Env>, fd: Descriptor)
    requires |events| == |envs| > 0 && s.halt == None
    ensures SomeCloses(s, events, envs, fd) <==>
              (events[0].ident == fd && Closes(envs[0])) ||
              SomeCloses(Dispatch(s, events[0], envs[0]), events[1..], envs[1..], fd)
  {
    hide Dispatch;
    hide Closes;
    var s' := Dispatch(s, events[0], envs[0]);
    assert ClosesAt(s, events, envs, fd, 0) <==> events[0].ident == fd && Closes(envs[0]);
    if k: nat :| k < |events| && ClosesAt(s, events, envs, fd, k) {
      if k > 0 { ClosesAtStep(s, events, envs, fd, k); }
    }
    if k: nat :| k < |events[1..]| && ClosesAt(s', events[1..], envs[1..], fd, k) {
      ClosesAtStep(s, events, envs, fd, k + 1);
    }
  }

  lemma HaltedCloses(s: State, events: seq<Event>, envs: seq<Env>, fd: Descriptor)
    requires |events| == |envs| && s.halt.Some?
    ensures !SomeCloses(s, events, envs, fd)
  {
    forall k: nat | k < |events| ensures !ClosesAt(s, events, envs, fd, k) {
      HaltedStays(s, events[..k], envs[..k]);
    }
  }

  /** Descriptor fd still stands for the connection that it stood for in s. */
  ghost predicate StillOpen(s: State, s': State, fd: Descriptor)
    requires fd in s.ids
  {
    fd in s'.ids && s'.ids[fd] == s.ids[fd]
  }

  /** A connection is open after a batch exactly when no dispatched event of the batch closes it; end of file, errors,
      and exceptions that end the loop in the middle of the batch do not end it. */
  lemma {:induction false} SurvivesExactly(s0: State, s: State, events: seq<Event>, envs: seq<Env>, fd: Descriptor)
    requires |events| == |envs| && Inv(s) && s.halt == None && fd in s.ids
    requires AllCurrent(s0, s, events) && EnvsOk(s, events, envs)
    ensures StillOpen(s, Process(s, events, envs), fd) <==> !SomeCloses(s, events, envs, fd)
    decreases |events|
  {
    hide Inv;
    hide Dispatch;
    hide AllCurrent;
    hide EnvOk;
    if |events| > 0 {
      hide SomeCloses;
      Later(s0, s, events, envs[0]);
      var s' := Dispatch(s, events[0], envs[0]);
      Survival(s0, s, events[0], envs[0], fd);
      SomeClosesStep(s, events, envs, fd);
      if s'.halt.Some? {
        HaltedStays(s', events[1..], envs[1..]);
        HaltedCloses(s', events[1..], envs[1..], fd);
      } else if fd in s'.ids {
        SurvivesExactly(s0, s', events[1..], envs[1..], fd);
      } else {
        GoneStays(s0, s', events[1..], envs[1..], fd, s.ids[fd]);
      }
    }
  }

  lemma IdsBelow(s: State, fd: Descriptor)
    requires Inv(s) && fd in s.ids
    ensures s.ids[fd] < s.accepted && fd in s.connections
  {
  }

  lemma GrewStill(s: State, s': State, d: Descriptor, fd: Descriptor)
    requires Grew(s, s', d) && fd in s.ids
    ensures StillOpen(s, s', fd) && s.accepted < s'.accepted
  {
  }

  lemma ShrankStill(s: State, s': State, d: Descriptor, fd: Descriptor)
    requires Shrank(s, s', d) && fd in s.ids
    ensures if fd == d then fd !in s'.ids else StillOpen(s, s', fd)
    ensures s.accepted == s'.accepted
  {
  }

  lemma Survival(s0: State, s: State, e: Event, env: Env, fd: Descriptor)
    requires Inv(s) && s.halt == None && Current(s0, s, e) && (e.ident == s.server ==> EnvOk(s, env)) && fd in s.ids
    ensures var s' := Dispatch(s, e, env);
            && (StillOpen(s, s', fd) <==> !(e.ident == fd && Closes(env)))
            && (fd !in s'.ids || s'.ids[fd] == s.ids[fd])
            && s.ids[fd] < s'.accepted
  {
    IdsBelow(s, fd);
    NotTheServer(s, fd);
    hide Inv;
    hide Dispatch;
    hide Closes;
    hide EnvOk;
    hide Grew;
    hide Shrank;
    DispatchBecomes(s0, s, e, env);
    hide Current;
    var s' := Dispatch(s, e, env);
    if s'.halt == None {
      if e.ident == s.server { GrewStill(s, s', env.descriptor, fd); }
      else if Closes(env) { ShrankStill(s, s', e.ident, fd); }
    }
  }

  lemma NotTheServer(s: State, fd: Descriptor)
    requires Inv(s) && fd in s.ids
    ensures fd != s.server
  {
    assert fd in s.connections;
  }

  /** A connection that is gone does not come back: its descriptor gets a new identity. */
  lemma {:induction false} GoneStays(s0: State, s: State, events: seq<Event>, envs: seq<Env>, fd: Descriptor, id: nat)
    requires |events| == |envs| && Inv(s) && s.halt == None && id < s.accepted
    requires fd in s.ids ==> s.ids[fd] != id
    requires AllCurrent(s0, s, events) && EnvsOk(s, events, envs)
    ensures var s' := Process(s, events, envs); fd in s'.ids ==> s'.ids[fd] != id
    decreases |events|
  {
    hide Inv;
    hide Dispatch;
    hide AllCurrent;
    hide EnvOk;
    if |events| > 0 {
      Later(s0, s, events, envs[0]);
      var s' := Dispatch(s, events[0], envs[0]);
      GoneOnce(s0, s, events[0], envs[0], fd, id);
      if s'.halt.Some? {
        HaltedStays(s', events[1..], envs[1..]);
      } else {
        GoneStays(s0, s', events[1..], envs[1..], fd, id);
      }
    }
  }

  lemma GoneOnce(s0: State, s: State, e: Event, env: Env, fd: Descriptor, id: nat)
    requires Inv(s) && s.halt == None && Current(s0, s, e) && id < s.accepted && (e.ident == s.server ==> EnvOk(s, env))
    requires fd in s.ids ==> s.ids[fd] != id
    ensures var s' := Dispatch(s, e, env);
            (fd in s'.ids ==> s'.ids[fd] != id) && id < s'.accepted
  {
    hide Inv;
    hide Dispatch;
    hide Closes;
    hide EnvOk;
    DispatchBecomes(s0, s, e, env);
    hide Current;
  }

  // ---------------------------------------------------------------------------------------------
  // Terminate
  // ---------------------------------------------------------------------------------------------

  /** The connections above an index. */
  function Above(connections: map<Descriptor, Context>, index: nat): map<Descriptor, Context> {
    map fd | fd in connections && fd > index :: connections[fd]
  }

  lemma AboveStep(connections: map<Descriptor, Context>, index: nat)
    requires index > 0
    ensures Above(connections - {index}, index - 1) == Above(connections, index)
    ensures index !in connections ==> Above(connections, index - 1) == Above(connections, index)
  {
  }

  lemma AboveServer(s: State, index: nat)
    requires Inv(s) && index <= s.server
    ensures Above(s.connections, index) == s.connections
  {
  }

  /** The countdown disconnects exactly the connections between the server and the index, and keeps the rest. */
  lemma {:induction false} CountdownExact(s: State, index: nat)
    requires Inv(s) && Intact(s)
    ensures var s' := Countdown(s, index);
            && Inv(s') && s'.halt == s.halt && s'.last == s.last && s'.lastHandle == s.lastHandle
            && s'.connections == Above(s.connections, index)
            && (forall fd :: fd in s'.ids ==> fd in s.ids && s'.ids[fd] == s.ids[fd]) && s'.accepted == s.accepted
            && s'.orphans == s.orphans && s'.strays == s.strays
    decreases index
  {
    hide Inv;
    hide Hangup;
    hide Above;
    if index <= s.server {
      AboveServer(s, index);
    } else {
      AboveStep(s.connections, index);
      if index in s.connections {
        HeldByItsBlock(s, index);
        HangupKeeps(s, s.connections[index]);
        CountdownExact(Hangup(s, s.connections[index]), index - 1);
      } else {
        CountdownExact(s, index - 1);
      }
    }
  }

  /** Terminate works exactly when a connection was ever accepted, also after an exception has ended the
      loop.  It then disconnects exactly the connections up to the descriptor accepted last; so it empties the server
      exactly when none is larger. */
  lemma TerminateExact(s: State)
    requires Inv(s) && Intact(s)
    ensures var s' := Terminate(s);
            && Inv(s') && Sound(s')
            && (s'.halt == s.halt <==> s.accepted > 0)
            && (s'.halt != s.halt ==> s'.halt == Some(NoLastConnection))
            && (s.accepted > 0 ==>
                  && s'.connections == Above(s.connections, s.lastHandle) && s'.strays == s.strays
                  && (s'.connections == map[] <==> forall fd :: fd in s.connections ==> fd <= s.lastHandle))
  {
    if s.accepted > 0 {
      CountdownExact(s, s.lastHandle);
      var s' := Terminate(s);
      if fd :| fd in s.connections && fd > s.lastHandle { assert fd in s'.connections; }
    }
  }

  // ---------------------------------------------------------------------------------------------
  // Whole runs
  // ---------------------------------------------------------------------------------------------

  lemma ActKeeps(s: State, a: Action)
    requires Inv(s) && Sound(s) && MayHappen(s, a)
    ensures Inv(Act(s, a)) && Sound(Act(s, a))
  {
    if a.Termination? {
      if Intact(s) { TerminateExact(s); }
    } else if s.halt.Some? {
      HaltedStays(s, a.events, a.envs);
    } else {
      FetchedIsCurrent(s, a.events);
      BatchKeeps(s, s, a.events, a.envs);
    }
  }

  /** In every run the tables agree and no dead context is used. */
  lemma {:induction false} RunKeeps(s: State, actions: seq<Action>, s': State)
    requires Inv(s) && Sound(s) && Run(s, actions, s')
    ensures Inv(s') && Sound(s')
    decreases |actions|
  {
    hide Inv;
    if |actions| > 0 {
      ActKeeps(s, actions[0]);
      RunKeeps(Act(s, actions[0]), actions[1..], s');
    }
  }

  lemma {:induction false} AsManyBlocks(connections: map<Descriptor, Context>, blocks: set<Context>,
                                        handles: map<Context, Descriptor>)
    requires forall fd :: fd in connections ==>
               connections[fd] in blocks && connections[fd] in handles && handles[connections[fd]] == fd
    requires forall b :: b in blocks ==> b in handles && handles[b] in connections && connections[handles[b]] == b
    ensures |connections| == |blocks|
    decreases |blocks|
  {
    if |blocks| == 0 {
      assert blocks == {};
      if fd :| fd in connections { assert false; }
      assert connections == map[];
    } else {
      var b := Member(blocks);
      var fd := handles[b];
      AsManyBlocks(connections - {fd}, blocks - {b}, handles);
      assert connections == (connections - {fd})[fd := b];
      assert blocks == (blocks - {b}) + {b};
    }
  }

  /** Every block in use is held by one connection or is an orphan. */
  lemma OnePerConnection(s: State)
    requires Inv(s)
    ensures |s.connections| + |s.orphans| == |s.pool.inUse| <= MAX_CONNECTIONS
  {
    InUseBound(s);
    assert ContextsAgree(s);
    hide Inv;
    StoredCount(s);
  }

  lemma InUseBound(s: State)
    requires PoolOk(s)
    ensures |s.pool.inUse| <= MAX_CONNECTIONS
  {
  }

  lemma StoredCount(s: State)
    requires ContextsAgree(s)
    ensures |s.connections| + |s.orphans| == |s.pool.inUse|
  {
    var held := s.pool.inUse - s.orphans;
    assert s.pool.inUse == held + s.orphans;
    forall fd | fd in s.connections
      ensures var ctx := s.connections[fd]; ctx in held && ctx in s.handles && s.handles[ctx] == fd
    {
      assert Live(s, s.connections[fd]);
    }
    forall b | b in held
      ensures b in s.handles && s.handles[b] in s.connections && s.connections[s.handles[b]] == b
    {
      assert b in s.pool.inUse && b !in s.orphans;
    }
    hide ContextsAgree;
    AsManyBlocks(s.connections, held, s.handles);
  }

  lemma HeldAreStored(s: State)
    requires ContextsAgree(s)
    ensures s.pool.inUse == s.connections.Values + s.orphans && s.connections.Values !! s.orphans
  {
    forall ctx | ctx in s.connections.Values ensures ctx in s.pool.inUse && ctx !in s.orphans {
      var fd :| fd in s.connections && s.connections[fd] == ctx;
      assert Live(s, s.connections[fd]);
    }
    forall ctx | ctx in s.pool.inUse ensures ctx in s.connections.Values + s.orphans {
      if ctx !in s.orphans { assert s.connections[s.handles[ctx]] == ctx && s.handles[ctx] in s.connections; }
    }
  }

  lemma StoredOnce(s: State, f: Descriptor, g: Descriptor)
    requires ContextsAgree(s) && f in s.connections && g in s.connections && f != g
    ensures s.connections[f] != s.connections[g]
  {
    assert s.handles[s.connections[f]] == f && s.handles[s.connections[g]] == g;
  }

  /** In every run the open descriptors are the registered ones and the stored ones; the stored contexts are distinct,
      hold their own descriptors, and are the blocks in use; there are at most 100.  Only an exception that also ended
      the loop can have left one more block and descriptor. */
  lemma RunAgrees(s: State, actions: seq<Action>, s': State)
    requires Booted(s) && Run(s, actions, s')
    ensures s'.watched == s'.connections
    ensures s'.descriptors == s'.connections.Keys + s'.strays && s'.connections.Keys !! s'.strays
    ensures forall fd :: fd in s'.connections ==>
              s'.connections[fd] in s'.handles && s'.handles[s'.connections[fd]] == fd && fd > s'.server
    ensures forall f, g :: f in s'.connections && g in s'.connections && f != g ==>
              s'.connections[f] != s'.connections[g]
    ensures s'.pool.inUse == s'.connections.Values + s'.orphans && s'.connections.Values !! s'.orphans
    ensures |s'.connections| + |s'.orphans| == |s'.pool.inUse| <= 100
    ensures |s'.strays| <= |s'.orphans| <= 1 && (s'.halt == None ==> s'.orphans == {} && s'.strays == {})
    ensures Sound(s')
  {
    BootedInv(s);
    RunKeeps(s, actions, s');
    OnePerConnection(s');
    HeldAreStored(s');
    assert ContextsAgree(s');
    hide PoolOk;
    hide LastOk;
    forall f, g | f in s'.connections && g in s'.connections && f != g ensures s'.connections[f] != s'.connections[g] {
      StoredOnce(s', f, g);
    }
  }

  /** A connection is refused, which ends the loop, exactly when 100 are open. */
  lemma RefusedExactly(s: State, env: Env)
    requires Inv(s) && s.halt == None && EnvOk(s, env)
    ensures Accept(s, env).halt == Some(PoolExhausted) <==> |s.connections| == 100
  {
    OnePerConnection(s);
    ExhaustedExactly(s, env.made);
    AcceptOutcome(s, env);
    hide Inv;
    hide Accept;
    hide Result;
    hide Next;
    hide EnvOk;
  }

  lemma ExhaustedExactly(s: State, made: Option<Context>)
    requires Inv(s) && s.halt == None
    ensures Result(s.pool, made).Exhausted? <==> |s.pool.inUse| == MAX_CONNECTIONS
    ensures s.orphans == {}
  {
    hide TablesAgree;
    hide ContextsAgree;
    hide LastOk;
  }

  /** Dispatching the event ends the loop: an arrival with 100 connections open, or one for which an allocation fails,
      that of a block only when none is free; or a message whose first line has fewer than two words, or that lacks its
      body line. */
  ghost predicate Halts(s: State, e: Event, env: Env) {
    if e.ident == s.server then
      |s.connections| == 100 || env.failure != NoFailure || (|s.pool.idle| == 0 && env.made == None)
    else |env.text| > 0 && HttpRequests.Faults(env.text)
  }

  lemma BadAllocExactly(s: State, made: Option<Context>)
    requires Inv(s) && s.halt == None
    ensures Result(s.pool, made).BadAlloc? <==> |s.pool.idle| == 0 && made == None && |s.pool.inUse| < MAX_CONNECTIONS
  {
    hide TablesAgree;
    hide ContextsAgree;
    hide LastOk;
  }

  lemma ArrivalHalts(s: State, env: Env)
    requires Inv(s) && s.halt == None && EnvOk(s, env)
    ensures Accept(s, env).halt.Some? <==>
              |s.connections| == MAX_CONNECTIONS || env.failure != NoFailure || (|s.pool.idle| == 0 && env.made == None)
  {
    OnePerConnection(s);
    ExhaustedExactly(s, env.made);
    BadAllocExactly(s, env.made);
    AcceptOutcome(s, env);
    hide Inv;
    hide Accept;
    hide Result;
    hide Next;
    hide EnvOk;
  }

  lemma ReceiveHalts(s: State, ctx: Context, env: Env)
    requires Live(s, ctx) && s.halt == None && Hangup(s, ctx).halt == None
    ensures Receive(s, ctx, env).halt.Some? <==>
              |env.text| > 0 && HttpRequests.Parse(env.text) == HttpRequests.Undefined
  {
    hide Hangup;
    hide Closes;
    hide HttpRequests.Parse;
  }

  lemma MessageHalts(s: State, ctx: Context, env: Env)
    requires Inv(s) && s.halt == None && ctx in s.pool.inUse
    ensures Receive(s, ctx, env).halt.Some? <==> |env.text| > 0 && HttpRequests.Faults(env.text)
  {
    assert ctx !in s.orphans;
    HangupKeeps(s, ctx);
    hide Inv;
    hide Shrank;
    hide Hangup;
    hide Receive;
    ReceiveHalts(s, ctx, env);
    HttpRequests.FaultsExactly(env.text);
  }

  lemma HaltsExactly(s0: State, s: State, e: Event, env: Env)
    requires Inv(s) && s.halt == None && Current(s0, s, e) && (e.ident == s.server ==> EnvOk(s, env))
    ensures Dispatch(s, e, env).halt.Some? <==> Halts(s, e, env)
  {
    hide Accept;
    hide Receive;
    if e.ident == s.server {
      ArrivalHalts(s, env);
    } else {
      MessageHalts(s, e.udata.value, env);
    }
  }

  /** The loop goes on after a batch exactly when none of its events ends it. */
  lemma {:induction false} BatchGoesOn(s0: State, s: State, events: seq<Event>, envs: seq<Env>)
    requires |events| == |envs| && Inv(s) && s.halt == None
    requires AllCurrent(s0, s, events) && EnvsOk(s, events, envs)
    ensures Process(s, events, envs).halt == None <==>
              forall k: nat :: k < |events| ==> !Halts(Process(s, events[..k], envs[..k]), events[k], envs[k])
    decreases |events|
  {
    hide Inv;
    hide Dispatch;
    hide AllCurrent;
    hide EnvOk;
    hide Halts;
    if |events| > 0 {
      Later(s0, s, events, envs[0]);
      HaltsExactly(s0, s, events[0], envs[0]);
      var s' := Dispatch(s, events[0], envs[0]);
      assert Process(s, events[..0], envs[..0]) == s;
      forall k: nat | 0 < k < |events|
        ensures Process(s, events[..k], envs[..k]) == Process(s', events[1..][..k - 1], envs[1..][..k - 1])
      {
        assert events[..k][1..] == events[1..][..k - 1] && envs[..k][1..] == envs[1..][..k - 1];
      }
      if s'.halt.Some? {
        HaltedStays(s', events[1..], envs[1..]);
      } else {
        BatchGoesOn(s0, s', events[1..], envs[1..]);
        HaltsLater(s, s', events, envs);
      }
    }
  }

  lemma HaltsLater(s: State, s': State, events: seq<Event>, envs: seq<Env>)
    requires |events| == |envs| > 0
    requires forall k: nat :: 0 < k < |events| ==>
               Process(s, events[..k], envs[..k]) == Process(s', events[1..][..k - 1], envs[1..][..k - 1])
    requires !Halts(Process(s, events[..0], envs[..0]), events[0], envs[0])
    ensures (forall k: nat :: k < |events| ==> !Halts(Process(s, events[..k], envs[..k]), events[k], envs[k])) <==>
            (forall k: nat :: k < |events[1..]| ==>
               !Halts(Process(s', events[1..][..k], envs[1..][..k]), events[1..][k], envs[1..][k]))
  {
    hide Halts;
    hide Process;
    if forall k: nat :: k < |events| ==> !Halts(Process(s, events[..k], envs[..k]), events[k], envs[k]) {
      forall k: nat | k < |events[1..]|
        ensures !Halts(Process(s', events[1..][..k], envs[1..][..k]), events[1..][k], envs[1..][k])
      {
        assert !Halts(Process(s, events[..k + 1], envs[..k + 1]), events[k + 1], envs[k + 1]);
      }
    }
    if forall k: nat :: k < |events[1..]| ==>
         !Halts(Process(s', events[1..][..k], envs[1..][..k]), events[1..][k], envs[1..][k]) {
      forall k: nat | k < |events| ensures !Halts(Process(s, events[..k], envs[..k]), events[k], envs[k]) {
        if k > 0 {
          assert !Halts(Process(s', events[1..][..k - 1], envs[1..][..k - 1]), events[1..][k - 1], envs[1..][k - 1]);
        }
      }
    }
  }

  /** Batch safety in every run, for every batch that the queue may yield and every event of it. */
  lemma RunBatchSafety(s: State, actions: seq<Action>, s0: State, events: seq<Event>, envs: seq<Env>, k: nat)
    requires Booted(s) && Run(s, actions, s0) && s0.halt == None
    requires MayHappen(s0, Batch(events, envs)) && k < |events|
    ensures var s' := Process(s0, events[..k], envs[..k]);
            s'.halt == None && events[k].ident != s0.server ==> OnItsConnection(s0, s', events[k])
  {
    BootedInv(s);
    RunKeeps(s, actions, s0);
    FetchedIsCurrent(s0, events);
    BatchSafety(s0, s0, events, envs, k);
  }

  /** One action ends this connection: a dispatched message that closes it, or a Terminate that reaches it. */
  ghost predicate Ends(s: State, a: Action, fd: Descriptor) {
    match a
    case Batch(events, envs) => |events| == |envs| && s.halt == None && SomeCloses(s, events, envs, fd)
    case Termination => Intact(s) && s.accepted > 0 && fd <= s.lastHandle
  }

  lemma ActSurvival(s: State, a: Action, fd: Descriptor)
    requires Inv(s) && Sound(s) && MayHappen(s, a) && fd in s.ids
    ensures var s' := Act(s, a);
            && (StillOpen(s, s', fd) <==> !Ends(s, a, fd))
            && (!StillOpen(s, s', fd) ==> fd !in s'.ids || s'.ids[fd] != s.ids[fd]) && s.ids[fd] < s'.accepted
  {
    if a.Batch? {
      if s.halt.Some? {
        HaltedStays(s, a.events, a.envs);
      } else {
        FetchedIsCurrent(s, a.events);
        SurvivesExactly(s, s, a.events, a.envs, fd);
        CountsUp(s, s, a.events, a.envs);
      }
    } else if Intact(s) {
      CountdownExact(s, s.lastHandle);
      assert fd in s.connections;
    }
  }

  lemma {:induction false} CountsUp(s0: State, s: State, events: seq<Event>, envs: seq<Env>)
    requires |events| == |envs| && Inv(s) && s.halt == None
    requires AllCurrent(s0, s, events) && EnvsOk(s, events, envs)
    ensures s.accepted <= Process(s, events, envs).accepted
    decreases |events|
  {
    hide Inv;
    hide AllCurrent;
    hide EnvOk;
    if |events| > 0 {
      Later(s0, s, events, envs[0]);
      var s' := Dispatch(s, events[0], envs[0]);
      if s'.halt.Some? { HaltedStays(s', events[1..], envs[1..]); } else { CountsUp(s0, s', events[1..], envs[1..]); }
    }
  }

  /** An identity that is not in use is not given out again. */
  lemma ActGone(s: State, a: Action, fd: Descriptor, id: nat)
    requires Inv(s) && Sound(s) && MayHappen(s, a) && id < s.accepted && (fd in s.ids ==> s.ids[fd] != id)
    ensures var s' := Act(s, a); (fd in s'.ids ==> s'.ids[fd] != id) && id < s'.accepted
  {
    if a.Batch? {
      if s.halt.Some? {
        HaltedStays(s, a.events, a.envs);
      } else {
        FetchedIsCurrent(s, a.events);
        GoneStays(s, s, a.events, a.envs, fd, id);
        CountsUp(s, s, a.events, a.envs);
      }
    } else if Intact(s) && s.accepted > 0 {
      CountdownExact(s, s.lastHandle);
    }
  }

  lemma {:induction false} RunGone(s: State, actions: seq<Action>, s': State, fd: Descriptor, id: nat)
    requires Inv(s) && Sound(s) && Run(s, actions, s') && id < s.accepted && (fd in s.ids ==> s.ids[fd] != id)
    ensures fd in s'.ids ==> s'.ids[fd] != id
    decreases |actions|
  {
    hide Inv;
    hide Act;
    if |actions| > 0 {
      ActKeeps(s, actions[0]);
      ActGone(s, actions[0], fd, id);
      RunGone(Act(s, actions[0]), actions[1..], s', fd, id);
    }
  }

  lemma EndsLater(s: State, actions: seq<Action>, fd: Descriptor)
    requires |actions| > 0
    ensures (forall i: nat :: i < |actions| ==> !Ends(StateAfter(s, actions[..i]), actions[i], fd)) <==>
            !Ends(s, actions[0], fd) &&
            var s1 := Act(s, actions[0]);
            forall i: nat :: i < |actions[1..]| ==> !Ends(StateAfter(s1, actions[1..][..i]), actions[1..][i], fd)
  {
    hide Act;
    hide Ends;
    var s1 := Act(s, actions[0]);
    assert StateAfter(s, actions[..0]) == s;
    forall i: nat | 0 < i < |actions|
      ensures StateAfter(s, actions[..i]) == StateAfter(s1, actions[1..][..i - 1]) && actions[i] == actions[1..][i - 1]
    {
      assert actions[..i][1..] == actions[1..][..i - 1];
    }
    if forall i: nat :: i < |actions| ==> !Ends(StateAfter(s, actions[..i]), actions[i], fd) {
      assert !Ends(StateAfter(s, actions[..0]), actions[0], fd);
      forall i: nat | i < |actions[1..]| ensures !Ends(StateAfter(s1, actions[1..][..i]), actions[1..][i], fd) {
        assert !Ends(StateAfter(s, actions[..i + 1]), actions[i + 1], fd);
      }
    }
  }

  /** Over a whole run a connection is still open exactly when no batch carried a message that closed it and no
      Terminate reached it. */
  lemma {:induction false} RunSurvival(s: State, actions: seq<Action>, s': State, fd: Descriptor)
    requires Inv(s) && Sound(s) && Run(s, actions, s') && fd in s.ids
    ensures s' == StateAfter(s, actions)
    ensures StillOpen(s, s', fd) <==>
              forall i: nat :: i < |actions| ==> !Ends(StateAfter(s, actions[..i]), actions[i], fd)
    decreases |actions|
  {
    hide Inv;
    hide Act;
    hide Ends;
    RunIsAfter(s, actions, s');
    if |actions| > 0 {
      var s1 := Act(s, actions[0]);
      ActKeeps(s, actions[0]);
      ActSurvival(s, actions[0], fd);
      EndsLater(s, actions, fd);
      if StillOpen(s, s1, fd) {
        RunSurvival(s1, actions[1..], s', fd);
      } else {
        RunGone(s1, actions[1..], s', fd, s.ids[fd]);
      }
    }
  }

  /** A batch of one event of the listening socket. */
  function Arrival(server: Descriptor, fd: Descriptor, made: Option<Context>): Action {
    Batch([Event(server, ReadFilter, false, false, None)], [Env(fd, made, NoFailure, "", Returned)])
  }

  lemma ArrivalIs(s: State, fd: Descriptor, made: Option<Context>)
    requires s.halt == None && EnvOk(s, Env(fd, made, NoFailure, "", Returned))
    ensures MayHappen(s, Arrival(s.server, fd, made))
    ensures Act(s, Arrival(s.server, fd, made)) == Accept(s, Env(fd, made, NoFailure, "", Returned))
  {
    var a, env := Arrival(s.server, fd, made), Env(fd, made, NoFailure, "", Returned);
    hide Accept;
    hide EnvOk;
    var s' := Dispatch(s, a.events[0], env);
    assert EnvsOk(s', a.events[1..], a.envs[1..]);
    assert Process(s', a.events[1..], a.envs[1..]) == s';
  }

  /** An arrival, while there is room, becomes a connection. */
  lemma ArrivalGrows(s: State, fd: Descriptor, made: Option<Context>) returns (s': State)
    requires Inv(s) && s.halt == None && EnvOk(s, Env(fd, made, NoFailure, "", Returned))
    requires |s.connections| < MAX_CONNECTIONS && (|s.pool.idle| > 0 || made.Some?)
    ensures MayHappen(s, Arrival(s.server, fd, made)) && s' == Act(s, Arrival(s.server, fd, made))
    ensures Inv(s') && s'.halt == None && s'.server == s.server && Grew(s, s', fd)
    ensures s'.lastHandle == fd && s'.pool == Next(s.pool, Get(made))
  {
    var env := Env(fd, made, NoFailure, "", Returned);
    ArrivalIs(s, fd, made);
    AcceptKeeps(s, env);
    ArrivalHalts(s, env);
    hide Inv;
    hide EnvOk;
    hide Next;
    hide Result;
    hide Grew;
    s' := Accept(s, env);
  }

  lemma {:induction false} RunSnoc(s: State, actions: seq<Action>, m: State, a: Action)
    requires Run(s, actions, m) && MayHappen(m, a)
    ensures Run(s, actions + [a], Act(m, a))
    decreases |actions|
  {
    hide Act;
    hide MayHappen;
    if |actions| == 0 {
      assert actions + [a] == [a] && [a][1..] == [];
      assert Run(Act(m, a), [], Act(m, a));
    } else {
      assert (actions + [a])[1..] == actions[1..] + [a];
      RunSnoc(Act(s, actions[0]), actions[1..], m, a);
    }
  }

  lemma BootedRoom(s: State)
    requires Booted(s)
    ensures Inv(s) && s.halt == None && |s.connections| == 0 && |s.pool.idle| == PRE_ALLOCATED && s.descriptors == {}
  {
    BootedInv(s);
  }

  lemma GrewByOne(s: State, s': State, fd: Descriptor)
    requires Grew(s, s', fd)
    ensures |s'.connections| == |s.connections| + 1 && s'.connections.Keys == s.connections.Keys + {fd}
  {
    assert s'.connections.Keys == s.connections.Keys + {fd};
  }

  lemma PopIdle(p: Pool<Context>, made: Option<Context>)
    requires |p.idle| > 0
    ensures Next(p, Get(made)).idle == p.idle[..|p.idle| - 1]
  {
  }

  lemma NothingMade(s: State, fd: Descriptor)
    requires fd > s.server && fd !in s.descriptors
    ensures EnvOk(s, Env(fd, None, NoFailure, "", Returned))
  {
  }

  /** Two clients, the second with the smaller descriptor. */
  lemma TwoArrivals(s: State) returns (actions: seq<Action>, s': State)
    requires Booted(s)
    ensures Run(s, actions, s') && |actions| == 2 && Inv(s') && s'.halt == None && s'.accepted == 2
    ensures s'.lastHandle == s.server + 1 && s.server + 2 in s'.connections
  {
    var high, low := s.server + 2, s.server + 1;
    BootedRoom(s);
    assert s.accepted == 0 && Run(s, [], s);
    hide Booted;
    hide Inv;
    hide Act;
    hide MayHappen;
    hide Run;
    hide Next;
    hide EnvOk;
    hide Arrival;
    NothingMade(s, high);
    var s1 := ArrivalGrows(s, high, None);
    GrewByOne(s, s1, high);
    PopIdle(s.pool, None);
    OnlyConnected(s1);
    NothingMade(s1, low);
    var s2 := ArrivalGrows(s1, low, None);
    assert high in s2.connections;
    RunSnoc(s, [], s, Arrival(s.server, high, None));
    RunSnoc(s, [] + [Arrival(s.server, high, None)], s1, Arrival(s.server, low, None));
    actions, s' := [] + [Arrival(s.server, high, None)] + [Arrival(s.server, low, None)], s2;
  }

  /** Terminate then leaves the first one connected. */
  lemma TerminateMayLeaveOne(s: State) returns (actions: seq<Action>, s': State)
    requires Booted(s)
    ensures Run(s, actions, s') && s'.halt == None
    ensures |actions| == 3 && actions[2] == Termination && s'.connections != map[]
  {
    var two, m := TwoArrivals(s);
    assert Intact(m);
    TerminateExact(m);
    TerminationIs(m);
    hide Inv;
    hide Act;
    hide Run;
    hide Terminate;
    RunSnoc(s, two, m, Termination);
    actions, s' := two + [Termination], Terminate(m);
    assert s.server + 2 in s'.connections;
  }

  lemma TerminationIs(s: State)
    ensures Act(s, Termination) == Terminate(s) && MayHappen(s, Termination)
  {
  }

  /** While the loop runs the open descriptors are those of the connections. */
  lemma OnlyConnected(s: State)
    requires Inv(s) && s.halt == None
    ensures s.descriptors == s.connections.Keys
  {
    assert s.strays == {};
  }

  // ---------------------------------------------------------------------------------------------
  // A run that fills the server
  // ---------------------------------------------------------------------------------------------

  /** The first blocks that `new` yields, one for each arrival. */
  ghost predicate Supply(s0: State, blocks: seq<Context>) {
    |blocks| == MAX_CONNECTIONS && Distinct(blocks) && forall b :: b in blocks ==> b !in s0.pool.idle
  }

  /** Only blocks that were there or were supplied since. */
  ghost predicate Known(s0: State, blocks: seq<Context>, n: nat, p: Pool<Context>)
    requires n <= |blocks|
  {
    && (forall c :: c in p.inUse ==> c in s0.pool.idle || c in blocks[..n])
    && (forall c :: c in p.idle ==> c in s0.pool.idle)
  }

  /** n clients are connected, on the descriptors behind the server's. */
  ghost predicate Served(s0: State, n: nat, s: State) {
    && Inv(s) && s.halt == None && s.server == s0.server && |s.connections| == n == s.accepted
    && (forall fd :: fd in s.connections ==> s.server < fd <= s.server + n)
    && (n > 0 ==> s.lastHandle == s.server + n)
  }

  lemma KnownMore(s0: State, blocks: seq<Context>, n: nat, p: Pool<Context>)
    requires Supply(s0, blocks) && n < |blocks| && Known(s0, blocks, n, p)
    ensures Legal(p, Get(Some(blocks[n]))) && Known(s0, blocks, n + 1, Next(p, Get(Some(blocks[n]))))
  {
    var b := blocks[n];
    assert b !in blocks[..n] && b in blocks;
    assert blocks[..n + 1] == blocks[..n] + [b];
    if |p.idle| > 0 { assert p.idle[|p.idle| - 1] in p.idle; }
  }

  lemma ServedMore(s0: State, n: nat, s: State, s': State)
    requires Served(s0, n, s) && Inv(s') && s'.halt == None && s'.server == s.server
    requires Grew(s, s', s.server + n + 1) && s'.lastHandle == s.server + n + 1
    ensures Served(s0, n + 1, s')
  {
    hide Inv;
    GrewByOne(s, s', s.server + n + 1);
    assert forall fd :: fd in s'.connections ==> fd in s'.connections.Keys;
  }

  lemma NextMayArrive(s0: State, blocks: seq<Context>, n: nat, s: State)
    requires Supply(s0, blocks) && n < |blocks| && Served(s0, n, s) && Known(s0, blocks, n, s.pool)
    ensures EnvOk(s, Env(s.server + n + 1, Some(blocks[n]), NoFailure, "", Returned))
  {
    KnownMore(s0, blocks, n, s.pool);
    OnlyConnected(s);
    hide Inv;
    hide Supply;
    hide Known;
    hide Legal;
    hide Next;
  }

  lemma OneMore(s0: State, blocks: seq<Context>, n: nat, s: State, a: Action) returns (s': State)
    requires Supply(s0, blocks) && n < MAX_CONNECTIONS && Served(s0, n, s) && Known(s0, blocks, n, s.pool)
    requires a == Arrival(s.server, s.server + n + 1, Some(blocks[n]))
    ensures MayHappen(s, a) && s' == Act(s, a)
    ensures Served(s0, n + 1, s') && Known(s0, blocks, n + 1, s'.pool)
  {
    hide Arrival;
    hide Act;
    hide MayHappen;
    assert |blocks| == MAX_CONNECTIONS;
    NextMayArrive(s0, blocks, n, s);
    KnownMore(s0, blocks, n, s.pool);
    hide Supply;
    hide Known;
    hide Legal;
    hide Next;
    hide EnvOk;
    hide Inv;
    hide Grew;
    assert Inv(s) && s.halt == None && |s.connections| < MAX_CONNECTIONS;
    hide Served;
    s' := ArrivalGrows(s, s.server + n + 1, Some(blocks[n]));
    ServedMore(s0, n, s, s');
  }

  lemma NobodyYet(s0: State, blocks: seq<Context>)
    requires Booted(s0)
    ensures Served(s0, 0, s0) && Known(s0, blocks, 0, s0.pool)
  {
    BootedInv(s0);
    hide Inv;
  }

  lemma {:induction false} Arrivals(s0: State, blocks: seq<Context>, n: nat) returns (actions: seq<Action>, s: State)
    requires Booted(s0) && Supply(s0, blocks) && n <= MAX_CONNECTIONS == |blocks|
    ensures |actions| == n && Run(s0, actions, s) && Served(s0, n, s) && Known(s0, blocks, n, s.pool)
  {
    hide Booted;
    hide Supply;
    hide Known;
    hide Served;
    if n == 0 {
      NobodyYet(s0, blocks);
      actions, s := [], s0;
    } else {
      hide MayHappen;
      hide Act;
      hide Run;
      hide Arrival;
      var before, m := Arrivals(s0, blocks, n - 1);
      var a := Arrival(m.server, m.server + (n - 1) + 1, Some(blocks[n - 1]));
      s := OneMore(s0, blocks, n - 1, m, a);
      RunSnoc(s0, before, m, a);
      actions := before + [a];
    }
  }

  lemma RefusalKeeps(s: State, env: Env)
    requires Inv(s) && s.halt == None && EnvOk(s, env) && |s.connections| == MAX_CONNECTIONS
    ensures var s' := Accept(s, env);
            && Inv(s') && s'.halt == Some(PoolExhausted)
            && s'.connections == s.connections && s'.lastHandle == s.lastHandle && s'.accepted == s.accepted
  {
    hide Next;
    hide Result;
    hide EnvOk;
    AcceptKeeps(s, env);
    RefusedExactly(s, env);
    OnePerConnection(s);
    ExhaustedExactly(s, env.made);
    hide Inv;
  }

  lemma OneTooMany(s: State)
    requires Inv(s) && s.halt == None && |s.connections| == MAX_CONNECTIONS
    requires forall fd :: fd in s.connections ==> fd <= s.lastHandle
    ensures var a := Arrival(s.server, s.lastHandle + 1, None);
            var s' := Act(s, a);
            MayHappen(s, a) && Inv(s') && s'.halt == Some(PoolExhausted)
            && s'.connections == s.connections && s'.lastHandle == s.lastHandle && s'.accepted == s.accepted
  {
    hide Act;
    hide MayHappen;
    hide Arrival;
    hide Accept;
    hide EnvOk;
    OnlyConnected(s);
    Someone(s);
    hide Inv;
    NothingMade(s, s.lastHandle + 1);
    ArrivalIs(s, s.lastHandle + 1, None);
    RefusalKeeps(s, Env(s.lastHandle + 1, None, NoFailure, "", Returned));
  }

  lemma Someone(s: State)
    requires Inv(s) && |s.connections| > 0 && forall fd :: fd in s.connections ==> fd <= s.lastHandle
    ensures s.lastHandle > s.server
  {
    var fd := Member(s.connections.Keys);
  }

  /** A hundred clients are served, the next one ends the loop, and Terminate then disconnects all of them. */
  lemma TheHundredAndFirst(s0: State, blocks: seq<Context>) returns (actions: seq<Action>, m: State, s': State)
    requires Booted(s0) && Supply(s0, blocks)
    ensures |actions| == 101
    ensures Run(s0, actions, m) && m.halt == Some(PoolExhausted) && |m.connections| == 100
    ensures Run(s0, actions + [Termination], s') && s'.halt == Some(PoolExhausted) && s'.connections == map[]
  {
    var hundred, s := Arrivals(s0, blocks, MAX_CONNECTIONS);
    hide Supply;
    hide Booted;
    hide Known;
    OneTooMany(s);
    var a := Arrival(s.server, s.lastHandle + 1, None);
    m := Act(s, a);
    TerminateExact(m);
    TerminationIs(m);
    hide Inv;
    hide Act;
    hide Run;
    hide MayHappen;
    hide Terminate;
    hide Arrival;
    RunSnoc(s0, hundred, s, a);
    actions, s' := hundred + [a], Terminate(m);
    RunSnoc(s0, actions, m, Termination);
  }
}
