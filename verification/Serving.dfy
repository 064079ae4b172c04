// The life of `cloudattr serve` around the service: one reload goroutine, two
// front ends, and the shutdown that ends in Close (cmd/cloudattr/serve.go).
module Serving {
  import opened HotSwap
  import opened Freshness

  /** How long shutdown waits for the HTTP server, in seconds. */
  const HTTP_PATIENCE: nat := 5

  /** The goroutine that reloads on SIGHUP, and the one that runs the deferred Close. */
  const RELOADER: nat := 1
  const CLOSER: nat := 0

  datatype Front = Http | Grpc

  /** Where runServe stands: serving, waiting for the HTTP server since some time, waiting for the gRPC
      server, waiting for the reload goroutine, or past that, where Close runs. */
  datatype Phase = Up | Draining(since: nat) | Stopping | Joining | Down {
    predicate PastHttp() { Stopping? || Joining? || Down? }
    predicate PastGrpc() { Joining? || Down? }
  }

  /** The service with its world, and the HTTP connections and gRPC calls accepted and not ended. Each
      does its lookups under its own number, a batch request one after the other. `gaveUp` says the wait
      for HTTP ended by the timeout. */
  datatype Server = Server(s: State, phase: Phase, conns: map<nat, Front>, gaveUp: bool)

  datatype Event =
    | Accept(l: nat, front: Front)
    | Leave(l: nat)
    | Do(a: Action)         // a step of the service or of its world
    | Stop                  // the context is cancelled or a front end failed
    | HttpDrained
    | HttpTimedOut          // Shutdown gives up, and its error is ignored
    | GrpcDrained
    | Joined

  function Start(version: nat): Server {
    Server(Init(version), Up, map[], false)
  }

  /** Which goroutine may take a step of the service in which phase. */
  predicate Allowed(v: Server, a: Action) {
    match a
    case Tick => true
    case Replace => true
    case Fire(_) => true
    case LoadFails(_) => !v.phase.Down? && RELOADER !in v.s.threads
    case Load(t) => !v.phase.Down? && t == RELOADER
    case Lock(t) => t == RELOADER
    case Install(t) => t == RELOADER
    case Schedule(t) => t == RELOADER
    case Unlock(_) => true
    case Enter(t) => v.phase.Down? && t == CLOSER
    case Mark(t) => t == CLOSER
    case Fetch(t) => t == CLOSER
    case CloseHandle(t) => t == CLOSER
    case Begin(l) => l in v.conns
    case Reject(l) => l in v.conns
    case Fetched(l) => l in v.conns
    case Finish(l, _, _) => l in v.conns
  }

  ghost predicate No(conns: map<nat, Front>, front: Front) {
    forall l :: l in conns ==> conns[l] != front
  }

  ghost predicate Can(v: Server, e: Event) {
    match e
    case Accept(l, front) => l !in v.conns && (v.phase.Up? || (v.phase.Draining? && front == Grpc))
    case Leave(l) => l in v.conns && l !in v.s.active
    case Do(a) => Allowed(v, a) && Enabled(v.s, a)
    case Stop => v.phase.Up?
    case HttpDrained => v.phase.Draining? && No(v.conns, Http)
    case HttpTimedOut => v.phase.Draining? && v.phase.since + HTTP_PATIENCE <= v.s.now
    case GrpcDrained => v.phase.Stopping? && No(v.conns, Grpc)
    case Joined => v.phase.Joining? && RELOADER !in v.s.threads
  }

  ghost function Next(v: Server, e: Event): Server
    requires Can(v, e)
  {
    match e
    case Accept(l, front) => v.(conns := v.conns[l := front])
    case Leave(l) => v.(conns := v.conns - {l})
    case Do(a) => v.(s := Apply(v.s, a))
    case Stop => v.(phase := Draining(v.s.now))
    case HttpDrained => v.(phase := Stopping)
    case HttpTimedOut => v.(phase := Stopping, gaveUp := true)
    case GrpcDrained => v.(phase := Joining)
    case Joined => v.(phase := Down)
  }

  ghost predicate Moves(v: Server, e: Event, w: Server) {
    Can(v, e) && w == Next(v, e)
  }

  ghost predicate IsLife(life: seq<Server>, events: seq<Event>) {
    |life| == |events| + 1 && forall i :: 0 <= i < |events| ==> Moves(life[i], events[i], life[i + 1])
  }

  /** A life of the program from its start. */
  ghost predicate IsServe(life: seq<Server>, events: seq<Event>) {
    IsLife(life, events) && life[0] == Start(life[0].s.file)
  }

  // ----- what every event keeps -----

  /** Only the reload goroutine and, once everything else is down, the closing one are in the service. */
  ghost predicate Threads(v: Server) {
    && (forall t :: t in v.s.threads ==> t == RELOADER || t == CLOSER)
    && (RELOADER in v.s.threads ==> !v.phase.Down?)
    && (CLOSER in v.s.threads ==> v.phase.Down? && !Pending(v.s.threads[CLOSER]))
    && (v.s.closed || v.s.released ==> v.phase.Down?)
  }

  /** Lookups belong to connections; a front end that was waited for has none left. */
  ghost predicate Fronts(v: Server) {
    && v.s.active.Keys <= v.conns.Keys
    && (v.phase.PastHttp() && !v.gaveUp ==> No(v.conns, Http))
    && (v.phase.PastGrpc() ==> No(v.conns, Grpc))
  }

  ghost predicate ServeInv(v: Server, o: seq<Owner>) {
    HotSwap.Inv(v.s, o) && Fresh(v.s) && Threads(v) && Fronts(v)
  }

  lemma StartInv(version: nat)
    ensures ServeInv(Start(version), [Service])
  {
  }

  lemma KeepsThreads(v: Server, e: Event)
    requires Threads(v) && Can(v, e)
    ensures Threads(Next(v, e))
  {
    if e.Do? { StepThreads(v, e.a); }
  }

  lemma StepThreads(v: Server, a: Action)
    requires Threads(v) && Allowed(v, a) && Enabled(v.s, a)
    ensures Threads(v.(s := Apply(v.s, a)))
  {
    hide Closed, Threads;
    if a.Load? || a.Lock? || a.Install? || a.Schedule? {
      ReloaderStage(v, a);
    } else if a.Enter? || a.Mark? || a.Fetch? || a.CloseHandle? {
      CloserStage(v, a);
    } else if a.Unlock? {
      LeaveThreads(v, a.t);
    } else {
      SameThreads(v, Apply(v.s, a));
    }
  }

  lemma ReloaderStage(v: Server, a: Action)
    requires Threads(v) && Allowed(v, a) && Enabled(v.s, a) && (a.Load? || a.Lock? || a.Install? || a.Schedule?)
    ensures Threads(v.(s := Apply(v.s, a)))
  {
    hide Closed;
  }

  lemma CloserStage(v: Server, a: Action)
    requires Threads(v) && Allowed(v, a) && Enabled(v.s, a) && (a.Enter? || a.Mark? || a.Fetch? || a.CloseHandle?)
    ensures Threads(v.(s := Apply(v.s, a)))
  {
    hide Closed;
  }

  lemma LeaveThreads(v: Server, t: nat)
    requires Threads(v) && Enabled(v.s, Unlock(t))
    ensures Threads(v.(s := Apply(v.s, Unlock(t))))
  {
  }

  lemma SameThreads(v: Server, r: State)
    requires Threads(v) && r.threads == v.s.threads && r.closed == v.s.closed && r.released == v.s.released
    ensures Threads(v.(s := r))
  {
  }

  lemma KeepsFronts(v: Server, e: Event)
    requires Fronts(v) && Can(v, e)
    ensures Fronts(Next(v, e))
  {
    if e.Do? {
      ActiveStep(v.s, e.a);
      hide Apply, Enabled;
    }
  }

  /** Only Begin makes a lookup active. */
  lemma ActiveStep(s: State, a: Action)
    requires Enabled(s, a)
    ensures Apply(s, a).active.Keys <= if a.Begin? then s.active.Keys + {a.l} else s.active.Keys
  {
    hide Closed;
    match a {
      case Begin(l) =>
      case Reject(l) =>
      case Fetched(l) =>
      case Finish(l, found, failed) =>
      case _ => assert Apply(s, a).active == s.active;
    }
  }

  /** A reload opens the file only while no reload is under way: there is one goroutine for it. */
  lemma LoadsAlone(v: Server, t: nat)
    requires Threads(v) && Can(v, Do(Load(t)))
    ensures NonePending(v.s)
  {
  }

  lemma KeepsServe(v: Server, e: Event, o: seq<Owner>) returns (q: seq<Owner>)
    requires ServeInv(v, o) && Can(v, e)
    ensures ServeInv(Next(v, e), q) && Served(Next(v, e).s) >= Served(v.s)
  {
    hide Threads, Fronts, Fresh, HotSwap.Inv, NonePending, Apply, Enabled, Allowed;
    KeepsThreads(v, e);
    KeepsFronts(v, e);
    q := o;
    FreshBounds(v.s);
    if e.Do? {
      KeepsInv(v.s, e.a, o);
      q := Moved(v.s, e.a, o);
      SameLength(v.s, o);
      if e.a.Load? { LoadsAlone(v, e.a.t); }
      KeepsFresh(v.s, e.a);
      FreshBounds(Apply(v.s, e.a));
    }
  }

  lemma SameLength(s: State, o: seq<Owner>)
    requires HotSwap.Inv(s, o)
    ensures |s.closes| == |s.versions|
  {
  }

  lemma {:induction false} LifeInv(life: seq<Server>, events: seq<Event>, n: nat) returns (o: seq<Owner>)
    requires IsServe(life, events) && n < |life|
    ensures ServeInv(life[n], o)
    decreases n
  {
    hide ServeInv, Can, Next;
    if n == 0 {
      StartInv(life[0].s.file);
      o := [Service];
    } else {
      var p := LifeInv(life, events, n - 1);
      assert Moves(life[n - 1], events[n - 1], life[n - 1 + 1]);
      o := KeepsServe(life[n - 1], events[n - 1], p);
    }
  }

  // ----- reloads -----

  /** The served database never gets older, whatever the signals and the timing. */
  lemma {:induction false} ServeNeverOlder(life: seq<Server>, events: seq<Event>, i: nat, j: nat)
    requires IsServe(life, events) && i <= j < |life|
    ensures Served(life[i].s) <= Served(life[j].s)
    decreases j
  {
    hide ServeInv, Can, Next, Served;
    if i < j {
      ServeNeverOlder(life, events, i, j - 1);
      var p := LifeInv(life, events, j - 1);
      assert Moves(life[j - 1], events[j - 1], life[j - 1 + 1]);
      var o := KeepsServe(life[j - 1], events[j - 1], p);
    }
  }

  /** No reload overlaps or follows Close. */
  lemma NoReloadDuringClose(life: seq<Server>, events: seq<Event>, n: nat)
    requires IsServe(life, events) && n < |life| && (life[n].s.closed || CLOSER in life[n].s.threads)
    ensures RELOADER !in life[n].s.threads
    ensures n < |events| && events[n].Do? ==> !events[n].a.Load? && !events[n].a.Install?
  {
    var o := LifeInv(life, events, n);
    if n < |events| { assert Moves(life[n], events[n], life[n + 1]); }
    hide HotSwap.Inv, Fresh, Fronts;
  }

  // ----- lookups and Close -----

  /** Some continuation has a lookup load the current handle after it was closed. */
  ghost predicate MayReadClosed(v: Server) {
    exists life: seq<Server>, events: seq<Event>, n: nat, l: nat ::
      IsLife(life, events) && life[0] == v && n < |life| && ReadsClosed(life[n].s, l)
  }

  lemma OneMore(life: seq<Server>, events: seq<Event>, e: Event) returns (longer: seq<Server>, more: seq<Event>)
    requires IsLife(life, events) && Can(life[|events|], e)
    ensures IsLife(longer, more) && more == events + [e]
    ensures |longer| == |life| + 1 && longer[|life|] == Next(life[|events|], e)
    ensures forall i :: 0 <= i < |life| ==> longer[i] == life[i]
  {
    hide Can, Next;
    longer, more := life + [Next(life[|events|], e)], events + [e];
    forall i | 0 <= i < |more| ensures Moves(longer[i], more[i], longer[i + 1]) {
      if i < |events| {
        assert Moves(life[i], events[i], life[i + 1]);
        assert longer[i] == life[i] && longer[i + 1] == life[i + 1] && more[i] == events[i];
      }
    }
  }

  /** An idle connection may start a lookup. */
  lemma IdleMayRead(v: Server, l: nat)
    requires l in v.conns && l !in v.s.active && v.s.db < |v.s.closes| && v.s.closes[v.s.db] == 1
    ensures MayReadClosed(v)
  {
    var life, events := [v], [];
    life, events := OneMore(life, events, Do(Begin(l)));
    life, events := OneMore(life, events, Do(Fetched(l)));
    assert ReadsClosed(life[2].s, l);
    assert life[0] == v;
  }

  lemma ParsingMayRead(v: Server, l: nat)
    requires l in v.conns && l in v.s.active && v.s.active[l].Parsing?
    requires v.s.db < |v.s.closes| && v.s.closes[v.s.db] == 1
    ensures MayReadClosed(v)
  {
    var life, events := OneMore([v], [], Do(Fetched(l)));
    assert ReadsClosed(life[1].s, l);
    assert life[0] == v;
  }

  /** A lookup that is reading may finish, and its request look up the next address. */
  lemma ReadingMayRead(v: Server, l: nat)
    requires l in v.conns && l in v.s.active && v.s.active[l].Reading?
    requires v.s.db < |v.s.closes| && v.s.closes[v.s.db] == 1
    ensures MayReadClosed(v)
  {
    var life, events := OneMore([v], [], Do(Finish(l, false, false)));
    life, events := OneMore(life, events, Do(Begin(l)));
    life, events := OneMore(life, events, Do(Fetched(l)));
    assert ReadsClosed(life[3].s, l);
    assert life[0] == v;
  }

  /** Without connections, and with nobody accepting any, no lookup ever starts. */
  lemma {:induction false} StaysEmpty(life: seq<Server>, events: seq<Event>, n: nat)
    requires IsLife(life, events) && n < |life|
    requires life[0].phase.Down? && life[0].conns == map[] && life[0].s.active == map[]
    ensures life[n].phase.Down? && life[n].conns == map[] && life[n].s.active == map[]
    decreases n
  {
    hide Can, Next;
    if n > 0 {
      StaysEmpty(life, events, n - 1);
      assert Moves(life[n - 1], events[n - 1], life[n - 1 + 1]);
      EmptyStep(life[n - 1], events[n - 1]);
    }
  }

  lemma EmptyStep(v: Server, e: Event)
    requires v.phase.Down? && v.conns == map[] && v.s.active == map[] && Can(v, e)
    ensures Next(v, e).phase.Down? && Next(v, e).conns == map[] && Next(v, e).s.active == map[]
  {
    hide Closed;
  }

  /** The wait for HTTP began at least five seconds before this state gave it up. */
  ghost predicate Overslept(v: Server) {
    v.phase.Draining? && v.phase.since + 5 <= v.s.now
  }

  /** The HTTP server is given up only after it had five seconds to drain. */
  lemma {:induction false} GivenUpLate(life: seq<Server>, events: seq<Event>, n: nat) returns (i: nat)
    requires IsServe(life, events) && n < |life| && life[n].gaveUp
    ensures i < n && Overslept(life[i])
    decreases n
  {
    assert n > 0;
    assert Moves(life[n - 1], events[n - 1], life[n - 1 + 1]);
    hide Allowed, Apply, Enabled;
    if life[n - 1].gaveUp {
      i := GivenUpLate(life, events, n - 1);
    } else {
      i := n - 1;
    }
  }

  /** Once Close has closed the handle, a lookup may still load it if and only if a connection is left;
      and one is left only if the HTTP server did not shut down in time, an HTTP one then. */
  lemma ClosedReadExactlyWhen(life: seq<Server>, events: seq<Event>, n: nat)
    requires IsServe(life, events) && n < |life| && life[n].s.released
    ensures MayReadClosed(life[n]) <==> life[n].conns != map[]
    ensures life[n].conns != map[] ==> life[n].gaveUp && exists i :: 0 <= i < n && Overslept(life[i])
    ensures forall l :: l in life[n].conns ==> life[n].conns[l] == Http
  {
    var v := life[n];
    var o := LifeInv(life, events, n);
    hide HotSwap.Inv, Fresh, Threads, MayReadClosed, IsServe, Overslept;
    if v.conns != map[] {
      var l :| l in v.conns;
      assert v.conns[l] == Http;
      var i := GivenUpLate(life, events, n);
      if l !in v.s.active {
        IdleMayRead(v, l);
      } else if v.s.active[l].Parsing? {
        ParsingMayRead(v, l);
      } else {
        ReadingMayRead(v, l);
      }
    } else {
      assert v.s.active == map[];
      NothingReads(v);
    }
  }

  lemma NothingReads(v: Server)
    requires v.phase.Down? && v.conns == map[] && v.s.active == map[]
    ensures !MayReadClosed(v)
  {
    hide Moves;
    if MayReadClosed(v) {
      var life: seq<Server>, events: seq<Event>, n: nat, l: nat :|
        IsLife(life, events) && life[0] == v && n < |life| && ReadsClosed(life[n].s, l);
      StaysEmpty(life, events, n);
      assert false;
    }
  }

  /** Until then, a lookup in its grace period never holds a closed handle. */
  lemma SafeUntilClose(life: seq<Server>, events: seq<Event>, n: nat, l: nat)
    requires IsServe(life, events) && n < |life| && l in life[n].s.active && life[n].s.active[l].Reading?
    requires life[n].s.now < life[n].s.active[l].start + 30
    ensures var s, h := life[n].s, life[n].s.active[l].h;
            h < |s.closes| && (s.closes[h] > 0 <==> s.released && h == s.db)
  {
    var o := LifeInv(life, events, n);
    hide Fresh, Threads, Fronts;
    assert ReaderOk(life[n].s, o, life[n].s.active[l].h, life[n].s.active[l].start);
  }

  /** Shutdown up to Close, with one HTTP connection that outlasts the wait. */
  lemma SlowConnection(version: nat) returns (life: seq<Server>, events: seq<Event>)
    ensures IsServe(life, events) && |life| == |events| + 1
    ensures var v := life[|events|];
            && v.phase.Down? && v.gaveUp && v.conns == map[7 := Http] && v.s.threads == map[] && v.s.mu.None?
            && v.s.active == map[] && !v.s.closed && v.s.db == 0 && v.s.closes == [0]
  {
    life, events := [Start(version)], [];
    life, events := OneMore(life, events, Accept(7, Http));
    life, events := OneMore(life, events, Stop);
    life, events := Waited(life, events);
    life, events := OneMore(life, events, HttpTimedOut);
    life, events := OneMore(life, events, GrpcDrained);
    life, events := OneMore(life, events, Joined);
  }

  lemma Waited(life: seq<Server>, events: seq<Event>) returns (longer: seq<Server>, more: seq<Event>)
    requires IsLife(life, events)
    ensures IsLife(longer, more) && |longer| == |more| + 1 > |life| && longer[0] == life[0]
    ensures longer[|more|] == life[|events|].(s := life[|events|].s.(now := life[|events|].s.now + HTTP_PATIENCE))
  {
    longer, more := OneMore(life, events, Do(Tick));
    longer, more := OneMore(longer, more, Do(Tick));
    longer, more := OneMore(longer, more, Do(Tick));
    longer, more := OneMore(longer, more, Do(Tick));
    longer, more := OneMore(longer, more, Do(Tick));
  }

  /** The joins do not keep lookups out: a connection that outlasts the wait for HTTP reads the handle
      after Close closed it. */
  lemma LateLookupReadsClosed(version: nat)
    ensures exists life: seq<Server>, events: seq<Event>, n: nat, l: nat ::
              IsServe(life, events) && n < |life| && ReadsClosed(life[n].s, l)
  {
    var life, events := SlowConnection(version);
    var v := life[|events|];
    life, events := CloseRuns(life, events);
    var n := |events|;
    life, events := OneMore(life, events, Do(Begin(7)));
    life, events := OneMore(life, events, Do(Fetched(7)));
    assert ReadsClosed(life[n + 2].s, 7);
    assert IsServe(life, events);
  }

  /** The deferred Close, with nothing else going on. */
  lemma CloseRuns(life: seq<Server>, events: seq<Event>) returns (longer: seq<Server>, more: seq<Event>)
    requires IsLife(life, events)
    requires var v := life[|events|];
             v.phase.Down? && v.s.threads == map[] && v.s.mu.None? && !v.s.closed && v.s.db == 0 && v.s.closes == [0]
    ensures IsLife(longer, more) && |longer| > |life| && longer[0] == life[0]
    ensures var v, w := life[|events|], longer[|more|];
            w.conns == v.conns && w.s.active == v.s.active && w.s.now == v.s.now && w.s.db == 0 && w.s.closes == [1]
  {
    longer, more := OneMore(life, events, Do(Enter(CLOSER)));
    longer, more := OneMore(longer, more, Do(Mark(CLOSER)));
    longer, more := OneMore(longer, more, Do(Fetch(CLOSER)));
    longer, more := OneMore(longer, more, Do(CloseHandle(CLOSER)));
  }
}
