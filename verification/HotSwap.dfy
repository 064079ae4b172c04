// The hot-swap protocol of server.Service as interleaved atomic steps
// (server/service.go): lookups, reloads, Close, and the timers that close a
// replaced database after a grace period.
module HotSwap {
  import opened Net

  /** closeGrace, in seconds. */
  const GRACE: nat := 30

  /** Where a goroutine inside Reload or Close stands. */
  datatype Stage =
    | Loaded(h: nat)     // Reload: opened and validated h, waiting for mu
    | Holding(h: nat)    // Reload: holds mu
    | Swapped(prev: nat)  // Reload: installed its handle, must schedule the close of the old one
    | Entered            // Close: holds mu
    | Marked             // Close: has set closed
    | Closing(h: nat)    // Close: has loaded the current handle
    | Leaving            // holds mu, about to release it
  {
    predicate Locked() { !Loaded? }
    /** The handle that only this goroutine can reach, or has yet to hand to a timer. */
    function Owns(): Option<nat> {
      match this
      case Loaded(h) => Some(h)
      case Holding(h) => Some(h)
      case Swapped(prev) => Some(prev)
      case _ => None
    }
  }

  /** A lookup in flight: still parsing its argument, or reading handle `h` loaded at time `start`. */
  datatype Lookup = Parsing | Reading(h: nat, start: nat)

  /** The service's fields, then the world around it: the clock, the file on disk, how often each
      handle ever opened has been closed, and who is doing what. `released` says Close has closed
      the current handle. */
  datatype State = State(
    db: nat, closed: bool, mu: Option<nat>, lookups: nat, hits: nat, errors: nat,
    now: nat, file: nat, versions: seq<nat>, closes: seq<nat>, released: bool,
    threads: map<nat, Stage>, timers: map<nat, nat>, active: map<nat, Lookup>)

  datatype Action =
    | Tick
    | Replace                           // the build renames a new file into place
    | LoadFails(mapped: bool)           // Reload: open, validation or index error
    | Load(t: nat)
    | Lock(t: nat)
    | Install(t: nat)                   // Reload under mu: swap, or discard if closed
    | Schedule(t: nat)
    | Enter(t: nat)                     // Close: Lock
    | Mark(t: nat)
    | Fetch(t: nat)
    | CloseHandle(t: nat)
    | Unlock(t: nat)
    | Fire(h: nat)
    | Begin(l: nat)                     // Lookup: count it
    | Reject(l: nat)                    // invalid ip
    | Fetched(l: nat)                   // s.db.Load()
    | Finish(l: nat, found: bool, failed: bool)

  function Init(version: nat): State {
    State(0, false, None, 0, 0, 0, 0, version, [version], [0], false, map[], map[], map[])
  }

  predicate Enabled(s: State, a: Action) {
    match a
    case Tick => true
    case Replace => true
    case LoadFails(_) => true
    case Load(t) => t !in s.threads
    case Lock(t) => t in s.threads && s.threads[t].Loaded? && s.mu.None?
    case Install(t) => t in s.threads && s.threads[t].Holding?
    case Schedule(t) => t in s.threads && s.threads[t].Swapped?
    case Enter(t) => t !in s.threads && s.mu.None?
    case Mark(t) => t in s.threads && s.threads[t].Entered?
    case Fetch(t) => t in s.threads && s.threads[t].Marked?
    case CloseHandle(t) => t in s.threads && s.threads[t].Closing?
    case Unlock(t) => t in s.threads && s.threads[t].Leaving?
    case Fire(h) => h in s.timers && s.timers[h] <= s.now
    case Begin(l) => l !in s.active
    case Reject(l) => l in s.active && s.active[l].Parsing?
    case Fetched(l) => l in s.active && s.active[l].Parsing?
    case Finish(l, _, _) => l in s.active && s.active[l].Reading?
  }

  /** Handles are numbered as they are opened; closing one out of range would be a model error. */
  function Closed(closes: seq<nat>, h: nat): seq<nat> {
    if h < |closes| then closes[h := closes[h] + 1] else closes
  }

  function Apply(s: State, a: Action): State
    requires Enabled(s, a)
  {
    match a
    case Tick => s.(now := s.now + 1)
    case Replace => s.(file := s.file + 1)
    case LoadFails(mapped) => if mapped then s.(versions := s.versions + [s.file], closes := s.closes + [1]) else s
    case Load(t) => s.(versions := s.versions + [s.file], closes := s.closes + [0],
      threads := s.threads[t := Loaded(|s.closes|)])
    case Lock(t) => s.(mu := Some(t), threads := s.threads[t := Holding(s.threads[t].h)])
    case Install(t) =>
      var h := s.threads[t].h;
      if s.closed then s.(closes := Closed(s.closes, h), threads := s.threads[t := Leaving])
      else s.(db := h, threads := s.threads[t := Swapped(s.db)])
    case Schedule(t) => s.(timers := s.timers[s.threads[t].prev := s.now + GRACE], threads := s.threads[t := Leaving])
    case Enter(t) => s.(mu := Some(t), threads := s.threads[t := Entered])
    case Mark(t) => if s.closed then s.(threads := s.threads[t := Leaving])
      else s.(closed := true, threads := s.threads[t := Marked])
    case Fetch(t) => s.(threads := s.threads[t := Closing(s.db)])
    case CloseHandle(t) => s.(closes := Closed(s.closes, s.threads[t].h), released := true,
      threads := s.threads[t := Leaving])
    case Unlock(t) => s.(mu := None, threads := s.threads - {t})
    case Fire(h) => s.(closes := Closed(s.closes, h), timers := s.timers - {h})
    case Begin(l) => s.(lookups := s.lookups + 1, active := s.active[l := Parsing])
    case Reject(l) => s.(errors := s.errors + 1, active := s.active - {l})
    case Fetched(l) => s.(active := s.active[l := Reading(s.db, s.now)])
    case Finish(l, found, failed) =>
      var done := s.(active := s.active - {l});
      if failed then done.(errors := done.errors + 1) else if found then done.(hits := done.hits + 1) else done
  }

  // ----- invariant -----

  /** Who is answerable for closing a handle: the service while it is current, a goroutine that has
      it in hand, a pending timer, or nobody any more. */
  datatype Owner = Service | Goroutine(t: nat) | Timer | Nobody

  /** Handles without an owner have been closed once, the others never; the service's is current. */
  ghost predicate Tallied(s: State, o: seq<Owner>) {
    && |o| == |s.closes| == |s.versions| && s.db < |o|
    && o[s.db] == (if s.released then Nobody else Service)
    && (forall h: nat :: h < |o| ==> s.closes[h] == if o[h] == Nobody then 1 else 0)
    && forall h: nat :: h < |o| && o[h] == Service ==> h == s.db
  }

  /** The goroutines in `o` are those that have a handle in hand. */
  ghost predicate InHand(threads: map<nat, Stage>, o: seq<Owner>) {
    && (forall h: nat :: h < |o| && o[h].Goroutine? ==> o[h].t in threads && threads[o[h].t].Owns() == Some(h))
    && forall t :: t in threads && threads[t].Owns().Some?
        ==> threads[t].Owns().value < |o| && o[threads[t].Owns().value] == Goroutine(t)
  }

  /** The timers in `o` are the pending ones. */
  ghost predicate OnTimer(timers: map<nat, nat>, o: seq<Owner>) {
    && (forall h: nat :: h < |o| && o[h] == Timer ==> h in timers)
    && forall h :: h in timers ==> h < |o| && o[h] == Timer
  }

  /** `o` names one owner for every handle ever opened. */
  ghost predicate OwnedBy(s: State, o: seq<Owner>) {
    Tallied(s, o) && InHand(s.threads, o) && OnTimer(s.timers, o)
  }

  /** The mutex and the closed flag. */
  ghost predicate Guarded(s: State) {
    && (forall t :: t in s.threads ==> (s.threads[t].Locked() <==> s.mu == Some(t)))
    && (s.mu.Some? ==> s.mu.value in s.threads)
    && (s.released ==> s.closed)
    && (forall t :: t in s.threads && (s.threads[t].Marked? || s.threads[t].Closing?) ==> s.closed && !s.released)
    && (forall t :: t in s.threads && s.threads[t].Closing? ==> s.threads[t].h == s.db)
    && (s.closed && !s.released ==> s.mu.Some? && (s.threads[s.mu.value].Marked? || s.threads[s.mu.value].Closing?))
  }

  /** What entitles a lookup to a handle it loaded at time `start`: the handle is current, or about
      to get its timer, or its timer is late enough; otherwise the lookup is overdue, or Close has
      closed the current handle. */
  ghost predicate ReaderOk(s: State, o: seq<Owner>, h: nat, start: nat) {
    && start <= s.now && h < |o|
    && match o[h]
       case Service => true
       case Goroutine(t) => t in s.threads && s.threads[t] == Swapped(h)
       case Timer => h in s.timers && start + GRACE <= s.timers[h]
       case Nobody => start + GRACE <= s.now || (s.released && h == s.db)
  }

  ghost predicate Readers(s: State, o: seq<Owner>) {
    forall l :: l in s.active && s.active[l].Reading? ==> ReaderOk(s, o, s.active[l].h, s.active[l].start)
  }

  ghost predicate Counters(s: State) {
    s.hits + s.errors + |s.active| <= s.lookups
  }

  ghost predicate Inv(s: State, o: seq<Owner>) {
    OwnedBy(s, o) && Guarded(s) && Readers(s, o) && Counters(s)
  }

  lemma InitInv(version: nat)
    ensures Inv(Init(version), [Service])
  {
  }

  /** How a step moves ownership. */
  function Moved(s: State, a: Action, o: seq<Owner>): seq<Owner>
    requires Enabled(s, a)
  {
    match a
    case LoadFails(mapped) => if mapped then o + [Nobody] else o
    case Load(t) => o + [Goroutine(t)]
    case Install(t) =>
      var h := s.threads[t].h;
      if s.closed then Reassign(o, h, Nobody) else Reassign(Reassign(o, s.db, Goroutine(t)), h, Service)
    case Schedule(t) => Reassign(o, s.threads[t].prev, Timer)
    case CloseHandle(t) => Reassign(o, s.threads[t].h, Nobody)
    case Fire(h) => Reassign(o, h, Nobody)
    case _ => o
  }

  function Reassign(o: seq<Owner>, h: nat, w: Owner): (r: seq<Owner>)
    ensures |r| == |o|
  {
    if h < |o| then o[h := w] else o
  }

  // ----- every step keeps the invariant -----

  /** A new handle, closed already or in the hand of goroutine `t`. */
  lemma HandOpened(threads: map<nat, Stage>, o: seq<Owner>, t: nat)
    requires InHand(threads, o) && t !in threads
    ensures InHand(threads[t := Loaded(|o|)], o + [Goroutine(t)])
  {
  }

  lemma HandDiscarded(threads: map<nat, Stage>, o: seq<Owner>)
    requires InHand(threads, o)
    ensures InHand(threads, o + [Nobody])
  {
  }

  lemma TimerOpened(timers: map<nat, nat>, o: seq<Owner>, w: Owner)
    requires OnTimer(timers, o) && w != Timer
    ensures OnTimer(timers, o + [w])
  {
  }

  lemma OwnersLoad(s: State, t: nat, o: seq<Owner>)
    requires OwnedBy(s, o) && Guarded(s) && Enabled(s, Load(t))
    ensures OwnedBy(Apply(s, Load(t)), Moved(s, Load(t), o))
  {
    HandOpened(s.threads, o, t);
    TimerOpened(s.timers, o, Goroutine(t));
    hide InHand, OnTimer, Guarded;
  }

  lemma OwnersLoadFails(s: State, mapped: bool, o: seq<Owner>)
    requires OwnedBy(s, o) && Guarded(s) && Enabled(s, LoadFails(mapped))
    ensures OwnedBy(Apply(s, LoadFails(mapped)), Moved(s, LoadFails(mapped), o))
  {
    HandDiscarded(s.threads, o);
    TimerOpened(s.timers, o, Nobody);
    hide InHand, OnTimer, Guarded;
  }

  /** Goroutine `t` lets go of handle `h`. */
  lemma HandFreed(threads: map<nat, Stage>, o: seq<Owner>, t: nat, h: nat, w: Owner)
    requires InHand(threads, o) && h < |o| && o[h] == Goroutine(t) && (w == Nobody || w == Timer)
    ensures InHand(threads[t := Leaving], o[h := w])
  {
    var q := o[h := w];
    forall g: nat | g < |q| && q[g].Goroutine?
      ensures q[g].t in threads[t := Leaving] && threads[t := Leaving][q[g].t].Owns() == Some(g)
    {
      assert o[g] == q[g];
      assert q[g].t != t;
    }
  }

  lemma TimerMoved(timers: map<nat, nat>, r: map<nat, nat>, o: seq<Owner>, h: nat, w: Owner)
    requires OnTimer(timers, o) && h < |o| && o[h] != Timer
    requires if w == Timer then r.Keys == timers.Keys + {h} else r == timers
    ensures OnTimer(r, o[h := w])
  {
  }

  /** Goroutine `t` gives up handle `h`, closing it or passing it to a timer. */
  lemma Relinquish(s: State, r: State, t: nat, h: nat, w: Owner, o: seq<Owner>)
    requires OwnedBy(s, o) && h < |o| && o[h] == Goroutine(t) && (w == Nobody || w == Timer)
    requires r.db == s.db && r.released == s.released && r.versions == s.versions
    requires r.threads == s.threads[t := Leaving]
    requires r.closes == if w == Nobody then s.closes[h := s.closes[h] + 1] else s.closes
    requires if w == Nobody then r.timers == s.timers else r.timers.Keys == s.timers.Keys + {h}
    ensures OwnedBy(r, o[h := w])
  {
    HandFreed(s.threads, o, t, h, w);
    TimerMoved(s.timers, r.timers, o, h, w);
    hide InHand, OnTimer;
  }

  lemma HeldBy(s: State, t: nat, o: seq<Owner>)
    requires OwnedBy(s, o) && t in s.threads && s.threads[t].Owns().Some?
    ensures s.threads[t].Owns().value < |o| && o[s.threads[t].Owns().value] == Goroutine(t)
  {
    hide Tallied, OnTimer;
  }

  lemma OwnersDiscard(s: State, t: nat, o: seq<Owner>)
    requires OwnedBy(s, o) && Guarded(s) && Enabled(s, Install(t)) && s.closed
    ensures OwnedBy(Apply(s, Install(t)), Moved(s, Install(t), o))
  {
    HeldBy(s, t, o);
    hide InHand, OnTimer, Guarded;
    Relinquish(s, Apply(s, Install(t)), t, s.threads[t].h, Nobody, o);
  }

  /** Goroutine `t` gets the current handle in exchange for its own. */
  lemma HandSwapped(threads: map<nat, Stage>, o: seq<Owner>, t: nat, db: nat, h: nat)
    requires InHand(threads, o) && t in threads && threads[t] == Holding(h) && db < |o| && !o[db].Goroutine?
    ensures h < |o| && h != db && InHand(threads[t := Swapped(db)], o[db := Goroutine(t)][h := Service])
  {
    var q, r := o[db := Goroutine(t)][h := Service], threads[t := Swapped(db)];
    forall g: nat | g < |q| && q[g].Goroutine? ensures q[g].t in r && r[q[g].t].Owns() == Some(g) {
      if g != db { assert o[g] == q[g] && q[g].t != t; }
    }
    forall u | u in r && r[u].Owns().Some? ensures r[u].Owns().value < |q| && q[r[u].Owns().value] == Goroutine(u) {
      assert u != t ==> r[u] == threads[u];
    }
  }

  lemma OwnersSwap(s: State, t: nat, o: seq<Owner>)
    requires OwnedBy(s, o) && Guarded(s) && Enabled(s, Install(t)) && !s.closed
    ensures OwnedBy(Apply(s, Install(t)), Moved(s, Install(t), o))
  {
    CurrentServes(s, o);
    HeldBy(s, t, o);
    hide InHand, OnTimer, Guarded, Tallied;
    var h := s.threads[t].h;
    HandSwapped(s.threads, o, t, s.db, h);
    TimerMoved(s.timers, s.timers, o, s.db, Goroutine(t));
    TimerMoved(s.timers, s.timers, o[s.db := Goroutine(t)], h, Service);
    TallySwapped(s, Apply(s, Install(t)), t, h, o);
  }

  lemma CurrentServes(s: State, o: seq<Owner>)
    requires OwnedBy(s, o) && Guarded(s)
    ensures s.db < |o| && o[s.db] == if s.released then Nobody else Service
    ensures s.released ==> s.closed
  {
    hide InHand, OnTimer;
  }

  lemma TallySwapped(s: State, r: State, t: nat, h: nat, o: seq<Owner>)
    requires Tallied(s, o) && !s.released && h < |o| && h != s.db && o[h] == Goroutine(t)
    requires r.db == h && !r.released && r.closes == s.closes && r.versions == s.versions
    ensures Tallied(r, o[s.db := Goroutine(t)][h := Service])
  {
  }

  lemma OwnersSchedule(s: State, t: nat, o: seq<Owner>)
    requires OwnedBy(s, o) && Guarded(s) && Enabled(s, Schedule(t))
    ensures OwnedBy(Apply(s, Schedule(t)), Moved(s, Schedule(t), o))
  {
    HeldBy(s, t, o);
    hide InHand, OnTimer, Guarded;
    Relinquish(s, Apply(s, Schedule(t)), t, s.threads[t].prev, Timer, o);
  }

  /** A handle that no goroutine has changes to another owner that is none. */
  lemma HandKept(threads: map<nat, Stage>, o: seq<Owner>, h: nat, w: Owner)
    requires InHand(threads, o) && h < |o| && !o[h].Goroutine? && !w.Goroutine?
    ensures InHand(threads, o[h := w])
  {
  }

  lemma HandStage(threads: map<nat, Stage>, o: seq<Owner>, t: nat, p: Stage)
    requires InHand(threads, o) && p.Owns() == if t in threads then threads[t].Owns() else None
    ensures InHand(threads[t := p], o)
  {
  }

  lemma HandLeft(threads: map<nat, Stage>, o: seq<Owner>, t: nat)
    requires InHand(threads, o) && (t in threads ==> threads[t].Owns().None?)
    ensures InHand(threads - {t}, o)
  {
  }

  /** Close closes the current handle. */
  lemma OwnersCloseHandle(s: State, t: nat, o: seq<Owner>)
    requires OwnedBy(s, o) && Guarded(s) && Enabled(s, CloseHandle(t))
    ensures OwnedBy(Apply(s, CloseHandle(t)), Moved(s, CloseHandle(t), o))
  {
    assert s.threads[t].h == s.db && !s.released;
    CurrentServes(s, o);
    HandKept(s.threads, o, s.db, Nobody);
    HandStage(s.threads, o[s.db := Nobody], t, Leaving);
    TimerMoved(s.timers, s.timers, o, s.db, Nobody);
    hide InHand, OnTimer, Guarded;
  }

  lemma OwnersUnlock(s: State, t: nat, o: seq<Owner>)
    requires OwnedBy(s, o) && Guarded(s) && Enabled(s, Unlock(t))
    ensures OwnedBy(Apply(s, Unlock(t)), Moved(s, Unlock(t), o))
  {
    HandLeft(s.threads, o, t);
    hide InHand, OnTimer, Guarded;
  }

  lemma TimerFired(timers: map<nat, nat>, o: seq<Owner>, h: nat)
    requires OnTimer(timers, o) && h in timers
    ensures h < |o| && o[h] == Timer && OnTimer(timers - {h}, o[h := Nobody])
  {
  }

  lemma OwnersFire(s: State, h: nat, o: seq<Owner>)
    requires OwnedBy(s, o) && Guarded(s) && Enabled(s, Fire(h))
    ensures OwnedBy(Apply(s, Fire(h)), Moved(s, Fire(h), o))
  {
    TimerFired(s.timers, o, h);
    HandKept(s.threads, o, h, Nobody);
    hide InHand, OnTimer, Guarded;
  }

  lemma KeepsOwners(s: State, a: Action, o: seq<Owner>)
    requires OwnedBy(s, o) && Guarded(s) && Enabled(s, a)
    ensures OwnedBy(Apply(s, a), Moved(s, a, o))
  {
    hide OwnedBy, Guarded, Closed, Reassign;
    match a {
      case LoadFails(mapped) => OwnersLoadFails(s, mapped, o);
      case Load(t) => OwnersLoad(s, t, o);
      case Lock(t) => OwnersNeutral(s, Apply(s, a), t, o);
      case Install(t) => if s.closed { OwnersDiscard(s, t, o); } else { OwnersSwap(s, t, o); }
      case Schedule(t) => OwnersSchedule(s, t, o);
      case CloseHandle(t) => OwnersCloseHandle(s, t, o);
      case Unlock(t) => OwnersUnlock(s, t, o);
      case Fire(h) => OwnersFire(s, h, o);
      case Enter(t) => OwnersNeutral(s, Apply(s, a), t, o);
      case Mark(t) => OwnersNeutral(s, Apply(s, a), t, o);
      case Fetch(t) => OwnersNeutral(s, Apply(s, a), t, o);
      case _ => OwnersSame(s, Apply(s, a), o);
    }
  }

  lemma OwnersSame(s: State, r: State, o: seq<Owner>)
    requires OwnedBy(s, o)
    requires r.db == s.db && r.released == s.released && r.versions == s.versions && r.closes == s.closes
    requires r.threads == s.threads && r.timers == s.timers
    ensures OwnedBy(r, o)
  {
  }

  /** Goroutine `t` moves to a stage in which it owns what it did before. */
  lemma OwnersNeutral(s: State, r: State, t: nat, o: seq<Owner>)
    requires OwnedBy(s, o)
    requires r.db == s.db && r.released == s.released && r.versions == s.versions && r.closes == s.closes
    requires t in r.threads && r.threads == s.threads[t := r.threads[t]] && r.timers == s.timers
    requires r.threads[t].Owns() == if t in s.threads then s.threads[t].Owns() else None
    ensures OwnedBy(r, o)
  {
    HandStage(s.threads, o, t, r.threads[t]);
    hide InHand, OnTimer;
  }

  lemma KeepsGuard(s: State, a: Action, o: seq<Owner>)
    requires Guarded(s) && Enabled(s, a)
    ensures Guarded(Apply(s, a))
  {
    var r := Apply(s, a);
    match a {
      case Lock(t) => GuardStage(s, r, t);
      case Install(t) => GuardStage(s, r, t);
      case Schedule(t) => GuardStage(s, r, t);
      case Load(t) => GuardStage(s, r, t);
      case Enter(t) => GuardStage(s, r, t);
      case Mark(t) => GuardStage(s, r, t);
      case Fetch(t) => GuardStage(s, r, t);
      case CloseHandle(t) => GuardStage(s, r, t);
      case Unlock(t) => GuardLeave(s, t);
      case _ => GuardSame(s, r);
    }
  }

  lemma GuardSame(s: State, r: State)
    requires Guarded(s) && r.threads == s.threads && r.mu == s.mu && r.released == s.released && r.closed == s.closed
             && r.db == s.db
    ensures Guarded(r)
  {
  }

  /** One goroutine changes stage; if the flags or the current handle change, it holds the mutex. */
  lemma GuardStage(s: State, r: State, t: nat)
    requires Guarded(s) && t in r.threads && r.threads == s.threads[t := r.threads[t]]
    requires r.threads[t].Locked() <==> r.mu == Some(t)
    requires r.mu == s.mu || (s.mu.None? && r.mu == Some(t))
    requires (r.released == s.released && r.closed == s.closed && r.db == s.db) || r.mu == Some(t)
    requires r.released ==> r.closed
    requires r.threads[t].Marked? || r.threads[t].Closing? ==> r.closed && !r.released
    requires r.threads[t].Closing? ==> r.threads[t].h == r.db
    requires r.closed && !r.released
             ==> (s.closed && !s.released && s.mu != Some(t)) || r.threads[t].Marked? || r.threads[t].Closing?
    ensures Guarded(r)
  {
  }

  lemma GuardLeave(s: State, t: nat)
    requires Guarded(s) && Enabled(s, Unlock(t))
    ensures Guarded(Apply(s, Unlock(t)))
  {
  }

  lemma KeepsReaders(s: State, a: Action, o: seq<Owner>)
    requires Inv(s, o) && Enabled(s, a)
    ensures Readers(Apply(s, a), Moved(s, a, o))
  {
    var r, q := Apply(s, a), Moved(s, a, o);
    forall l | l in r.active && r.active[l].Reading?
      ensures ReaderOk(r, q, r.active[l].h, r.active[l].start)
    {
      if a.Fetched? && l == a.l {
        assert o[s.db] == if s.released then Nobody else Service;
      } else {
        assert l in s.active && s.active[l] == r.active[l];
        KeepsReader(s, a, o, s.active[l].h, s.active[l].start);
      }
    }
  }

  lemma KeepsReader(s: State, a: Action, o: seq<Owner>, h: nat, start: nat)
    requires OwnedBy(s, o) && Guarded(s) && Enabled(s, a) && ReaderOk(s, o, h, start)
    ensures ReaderOk(Apply(s, a), Moved(s, a, o), h, start)
  {
    match a {
      case Install(t) => ReaderInstall(s, t, o, h, start);
      case Schedule(t) => ReaderSchedule(s, t, o, h, start);
      case CloseHandle(t) => ReaderRelease(s, t, o, h, start);
      case Fire(g) => ReaderFire(s, g, o, h, start);
      case _ =>
    }
  }

  lemma ReaderInstall(s: State, t: nat, o: seq<Owner>, h: nat, start: nat)
    requires OwnedBy(s, o) && Guarded(s) && Enabled(s, Install(t)) && ReaderOk(s, o, h, start)
    ensures ReaderOk(Apply(s, Install(t)), Moved(s, Install(t), o), h, start)
  {
    assert s.threads[t].Owns() == Some(s.threads[t].h);
  }

  lemma ReaderSchedule(s: State, t: nat, o: seq<Owner>, h: nat, start: nat)
    requires OwnedBy(s, o) && Enabled(s, Schedule(t)) && ReaderOk(s, o, h, start)
    ensures ReaderOk(Apply(s, Schedule(t)), Moved(s, Schedule(t), o), h, start)
  {
    assert s.threads[t].Owns() == Some(s.threads[t].prev);
  }

  lemma ReaderRelease(s: State, t: nat, o: seq<Owner>, h: nat, start: nat)
    requires OwnedBy(s, o) && Guarded(s) && Enabled(s, CloseHandle(t)) && ReaderOk(s, o, h, start)
    ensures ReaderOk(Apply(s, CloseHandle(t)), Moved(s, CloseHandle(t), o), h, start)
  {
  }

  lemma ReaderFire(s: State, g: nat, o: seq<Owner>, h: nat, start: nat)
    requires OwnedBy(s, o) && Enabled(s, Fire(g)) && ReaderOk(s, o, h, start)
    ensures ReaderOk(Apply(s, Fire(g)), Moved(s, Fire(g), o), h, start)
  {
  }

  lemma ActiveSize(m: map<nat, Lookup>, l: nat, v: Lookup)
    ensures |m[l := v]| == |m| + if l in m then 0 else 1
    ensures |m - {l}| == |m| - if l in m then 1 else 0
  {
    assert m[l := v].Keys == m.Keys + {l};
    assert (m - {l}).Keys == m.Keys - {l};
  }

  lemma KeepsCounters(s: State, a: Action)
    requires Counters(s) && Enabled(s, a)
    ensures Counters(Apply(s, a))
  {
    match a {
      case Begin(l) => ActiveSize(s.active, l, Parsing);
      case Reject(l) => ActiveSize(s.active, l, Parsing);
      case Fetched(l) => ActiveSize(s.active, l, Reading(s.db, s.now));
      case Finish(l, found, failed) => ActiveSize(s.active, l, Parsing);
      case _ => CountersSame(s, Apply(s, a));
    }
  }

  lemma CountersSame(s: State, r: State)
    requires Counters(s) && r.active == s.active && r.lookups == s.lookups && r.hits == s.hits && r.errors == s.errors
    ensures Counters(r)
  {
  }

  lemma KeepsInv(s: State, a: Action, o: seq<Owner>)
    requires Inv(s, o) && Enabled(s, a)
    ensures Inv(Apply(s, a), Moved(s, a, o))
  {
    hide OwnedBy, Guarded, Readers, Counters, Apply, Moved;
    KeepsOwners(s, a, o);
    KeepsGuard(s, a, o);
    KeepsReaders(s, a, o);
    KeepsCounters(s, a);
  }

  // ----- runs -----

  ghost predicate StepOf(s: State, a: Action, r: State) {
    Enabled(s, a) && r == Apply(s, a)
  }

  /** One enabled step at a time, in any interleaving. */
  ghost predicate IsPath(run: seq<State>, acts: seq<Action>) {
    |run| == |acts| + 1 && forall i :: 0 <= i < |acts| ==> StepOf(run[i], acts[i], run[i + 1])
  }

  /** A path that starts from a fresh service. */
  ghost predicate IsRun(run: seq<State>, acts: seq<Action>) {
    IsPath(run, acts) && run[0] == Init(run[0].file)
  }

  lemma {:induction false} PathInv(run: seq<State>, acts: seq<Action>, first: seq<Owner>, n: nat)
    returns (o: seq<Owner>)
    requires IsPath(run, acts) && Inv(run[0], first) && n < |run|
    ensures Inv(run[n], o)
    decreases n
  {
    hide Inv, Apply, Enabled;
    if n == 0 {
      o := first;
    } else {
      var p := PathInv(run, acts, first, n - 1);
      assert StepOf(run[n - 1], acts[n - 1], run[n - 1 + 1]);
      KeepsInv(run[n - 1], acts[n - 1], p);
      o := Moved(run[n - 1], acts[n - 1], p);
    }
  }

  lemma RunInv(run: seq<State>, acts: seq<Action>, n: nat) returns (o: seq<Owner>)
    requires IsRun(run, acts) && n < |run|
    ensures Inv(run[n], o)
  {
    InitInv(run[0].file);
    o := PathInv(run, acts, [Service], n);
  }

  /** Safety on every interleaving: a lookup that holds a closed handle has been in flight for the
      whole grace period, or Close has closed the current handle. Within the grace period the handle
      is closed if and only if it is the one that Close closed. */
  lemma NoReadAfterClose(run: seq<State>, acts: seq<Action>, n: nat, l: nat)
    requires IsRun(run, acts) && n < |run| && l in run[n].active && run[n].active[l].Reading?
    ensures var s, h, start := run[n], run[n].active[l].h, run[n].active[l].start;
            && h < |s.closes|
            && (s.closes[h] > 0 ==> s.now >= start + GRACE || (s.released && h == s.db))
            && (s.now < start + GRACE ==> (s.closes[h] > 0 <==> s.released && h == s.db))
  {
    var o := RunInv(run, acts, n);
    assert ReaderOk(run[n], o, run[n].active[l].h, run[n].active[l].start);
  }

  /** A lookup that loads the handle once Close has closed it always gets the closed handle. */
  lemma FetchAfterCloseReadsClosed(run: seq<State>, acts: seq<Action>, n: nat, l: nat)
    requires IsRun(run, acts) && n < |acts| && acts[n] == Fetched(l) && run[n].released
    ensures l in run[n + 1].active && run[n + 1].active[l] == Reading(run[n + 1].db, run[n + 1].now)
    ensures run[n + 1].db < |run[n + 1].closes| && run[n + 1].closes[run[n + 1].db] == 1
  {
    assert StepOf(run[n], acts[n], run[n + 1]);
    var o := RunInv(run, acts, n);
  }

  /** Every handle ever opened is closed at most once; when no goroutine and no timer is left, every
      handle but the current one has been closed once, and after Close that one too. */
  lemma ClosedOnce(run: seq<State>, acts: seq<Action>, n: nat, h: nat)
    requires IsRun(run, acts) && n < |run| && h < |run[n].closes|
    ensures run[n].closes[h] <= 1
    ensures run[n].threads == map[] && run[n].timers == map[] ==>
              run[n].closes[h] == if h == run[n].db && !run[n].closed then 0 else 1
  {
    var o := RunInv(run, acts, n);
  }

  /** Hits and errors never exceed lookups at any instant. */
  lemma CountersConsistent(run: seq<State>, acts: seq<Action>, n: nat)
    requires IsRun(run, acts) && n < |run|
    ensures run[n].hits + run[n].errors <= run[n].lookups
  {
    var o := RunInv(run, acts, n);
  }

  /** How many of the steps have a property. */
  function Count(acts: seq<Action>, kind: Action -> bool): nat {
    if acts == [] then 0 else Count(acts[..|acts| - 1], kind) + if kind(acts[|acts| - 1]) then 1 else 0
  }

  predicate IsBegin(a: Action) { a.Begin? }
  predicate IsError(a: Action) { a.Reject? || (a.Finish? && a.failed) }
  predicate IsHit(a: Action) { a.Finish? && a.found && !a.failed }
  predicate IsMiss(a: Action) { a.Finish? && !a.found && !a.failed }

  /** What the counters mean: lookups begun; those that were refused or failed; those that found
      something. Every lookup is a hit, an error, a miss, or still in flight. */
  ghost predicate Accounted(s: State, acts: seq<Action>) {
    && s.lookups == Count(acts, IsBegin) && s.errors == Count(acts, IsError) && s.hits == Count(acts, IsHit)
    && s.lookups == s.hits + s.errors + Count(acts, IsMiss) + |s.active|
  }

  lemma CountSnoc(acts: seq<Action>, a: Action, kind: Action -> bool)
    ensures Count(acts + [a], kind) == Count(acts, kind) + if kind(a) then 1 else 0
  {
    assert (acts + [a])[..|acts|] == acts;
  }

  /** What a step does to the counters and to the lookups in flight. */
  ghost predicate Shift(s: State, a: Action, r: State) {
    && r.lookups == s.lookups + (if IsBegin(a) then 1 else 0)
    && r.errors == s.errors + (if IsError(a) then 1 else 0)
    && r.hits == s.hits + (if IsHit(a) then 1 else 0)
    && |r.active| == |s.active| + (if IsBegin(a) then 1 else 0)
                     - (if IsError(a) || IsHit(a) || IsMiss(a) then 1 else 0)
  }

  lemma BeginShifts(s: State, l: nat)
    requires Enabled(s, Begin(l))
    ensures Shift(s, Begin(l), Apply(s, Begin(l)))
  {
    ActiveSize(s.active, l, Parsing);
  }

  lemma RejectShifts(s: State, l: nat)
    requires Enabled(s, Reject(l))
    ensures Shift(s, Reject(l), Apply(s, Reject(l)))
  {
    ActiveSize(s.active, l, Parsing);
  }

  lemma FetchShifts(s: State, l: nat)
    requires Enabled(s, Fetched(l))
    ensures Shift(s, Fetched(l), Apply(s, Fetched(l)))
  {
    ActiveSize(s.active, l, Reading(s.db, s.now));
  }

  lemma FinishShifts(s: State, l: nat, found: bool, failed: bool)
    requires Enabled(s, Finish(l, found, failed))
    ensures Shift(s, Finish(l, found, failed), Apply(s, Finish(l, found, failed)))
  {
    ActiveSize(s.active, l, Parsing);
  }

  lemma OthersSame(s: State, a: Action)
    requires Enabled(s, a) && !a.Begin? && !a.Reject? && !a.Fetched? && !a.Finish?
    ensures var r := Apply(s, a);
            r.active == s.active && r.lookups == s.lookups && r.errors == s.errors && r.hits == s.hits
  {
    hide Closed;
  }

  lemma OthersShift(s: State, a: Action)
    requires Enabled(s, a) && !a.Begin? && !a.Reject? && !a.Fetched? && !a.Finish?
    ensures Shift(s, a, Apply(s, a))
  {
    hide Apply, Enabled;
    OthersSame(s, a);
  }

  lemma StepShifts(s: State, a: Action)
    requires Enabled(s, a)
    ensures Shift(s, a, Apply(s, a))
  {
    hide Shift, Apply, Enabled;
    match a {
      case Begin(l) => BeginShifts(s, l);
      case Reject(l) => RejectShifts(s, l);
      case Fetched(l) => FetchShifts(s, l);
      case Finish(l, found, failed) => FinishShifts(s, l, found, failed);
      case _ => OthersShift(s, a);
    }
  }

  lemma AccountStep(s: State, acts: seq<Action>, a: Action)
    requires Accounted(s, acts) && Enabled(s, a)
    ensures Accounted(Apply(s, a), acts + [a])
  {
    hide Count, Apply, Enabled;
    StepShifts(s, a);
    CountSnoc(acts, a, IsBegin);
    CountSnoc(acts, a, IsError);
    CountSnoc(acts, a, IsHit);
    CountSnoc(acts, a, IsMiss);
  }

  /** The counters are exact in every state of every run. */
  lemma {:induction false} CountersExact(run: seq<State>, acts: seq<Action>, n: nat)
    requires IsRun(run, acts) && n < |run|
    ensures Accounted(run[n], acts[..n])
    decreases n
  {
    hide Accounted, Enabled, Apply;
    if n == 0 {
      NothingCounted(run[0].file);
      assert acts[..0] == [];
    } else {
      CountersExact(run, acts, n - 1);
      assert StepOf(run[n - 1], acts[n - 1], run[n - 1 + 1]);
      AccountStep(run[n - 1], acts[..n - 1], acts[n - 1]);
      assert acts[..n] == acts[..n - 1] + [acts[n - 1]];
    }
  }

  lemma NothingCounted(version: nat)
    ensures Accounted(Init(version), [])
  {
  }

  /** A handle that waits for its timer. */
  ghost predicate Waits(s: State, h: nat, due: nat) {
    h in s.timers && s.timers[h] == due
  }

  lemma WaitStep(s: State, a: Action, o: seq<Owner>, h: nat, due: nat)
    requires Inv(s, o) && Enabled(s, a) && Waits(s, h, due) && s.now < due
    ensures Waits(Apply(s, a), h, due)
  {
    hide Guarded, Readers, Counters, Closed;
    match a {
      case Fire(g) =>
      case Schedule(t) => assert s.threads[t].Owns() == Some(s.threads[t].prev);
      case _ =>
    }
  }

  /** The grace period is thirty seconds: a replaced handle stays open for that long after the swap
      handed it to its timer, and may be closed from then on. */
  lemma {:induction false} GraceHeld(run: seq<State>, acts: seq<Action>, n: nat, m: nat, t: nat)
    requires IsRun(run, acts) && n < m < |run| && acts[n] == Schedule(t)
    requires run[m - 1].now < run[n].now + 30
    ensures Enabled(run[n], acts[n])
    ensures var h := run[n].threads[t].prev;
            && Waits(run[m], h, run[n].now + 30) && h < |run[m].closes| && run[m].closes[h] == 0
            && (Enabled(run[m], Fire(h)) <==> run[m].now >= run[n].now + 30)
    decreases m
  {
    hide Inv, Apply, Enabled;
    assert StepOf(run[n], acts[n], run[n + 1]);
    var o := RunInv(run, acts, m - 1);
    assert StepOf(run[m - 1], acts[m - 1], run[m - 1 + 1]);
    var h := HandedOver(run[n], t);
    if m > n + 1 {
      ClockForward(run, acts, m - 2);
      GraceHeld(run, acts, n, m - 1, t);
      WaitStep(run[m - 1], acts[m - 1], o, h, run[n].now + 30);
    }
    var q := RunInv(run, acts, m);
    WaitingOpen(run[m], q, h, run[n].now + 30);
  }

  lemma HandedOver(s: State, t: nat) returns (h: nat)
    requires Enabled(s, Schedule(t))
    ensures t in s.threads && s.threads[t].Swapped? && h == s.threads[t].prev
    ensures Waits(Apply(s, Schedule(t)), h, s.now + 30)
  {
    h := s.threads[t].prev;
  }

  lemma ClockForward(run: seq<State>, acts: seq<Action>, i: nat)
    requires IsRun(run, acts) && i < |acts|
    ensures run[i].now <= run[i + 1].now
  {
    assert StepOf(run[i], acts[i], run[i + 1]);
  }

  lemma WaitingOpen(s: State, o: seq<Owner>, h: nat, due: nat)
    requires Inv(s, o) && Waits(s, h, due)
    ensures h < |s.closes| && s.closes[h] == 0
    ensures Enabled(s, Fire(h)) <==> s.now >= due
  {
  }

  /** Under the operating assumptions, every lookup finishes within thirty seconds and none
      overlaps or follows Close, no lookup ever holds a closed handle. */
  lemma TimelyLookupsSafe(run: seq<State>, acts: seq<Action>)
    requires IsRun(run, acts)
    requires forall i, l :: 0 <= i < |run| && l in run[i].active && run[i].active[l].Reading? ==>
               run[i].now < run[i].active[l].start + 30 && !run[i].released
    ensures forall i, l :: 0 <= i < |run| && l in run[i].active && run[i].active[l].Reading? ==>
              run[i].active[l].h < |run[i].closes| && run[i].closes[run[i].active[l].h] == 0
  {
    forall i, l | 0 <= i < |run| && l in run[i].active && run[i].active[l].Reading?
      ensures run[i].active[l].h < |run[i].closes| && run[i].closes[run[i].active[l].h] == 0
    {
      NoReadAfterClose(run, acts, i, l);
    }
  }

  // ----- building paths -----

  /** A path continued by an enabled step. */
  lemma Go(run: seq<State>, acts: seq<Action>, a: Action) returns (longer: seq<State>, more: seq<Action>)
    requires IsPath(run, acts) && Enabled(run[|acts|], a)
    ensures IsPath(longer, more) && more == acts + [a]
    ensures |longer| == |run| + 1 && longer[|run|] == Apply(run[|acts|], a)
    ensures forall i :: 0 <= i < |run| ==> longer[i] == run[i]
  {
    hide Enabled, Apply;
    longer, more := run + [Apply(run[|acts|], a)], acts + [a];
    forall i | 0 <= i < |more| ensures StepOf(longer[i], more[i], longer[i + 1]) {
      if i < |acts| {
        assert StepOf(run[i], acts[i], run[i + 1]);
        assert longer[i] == run[i] && longer[i + 1] == run[i + 1] && more[i] == acts[i];
      }
    }
  }

  /** Lookup `l` holds a closed handle although it loaded it just now. */
  ghost predicate ReadsClosed(s: State, l: nat) {
    l in s.active && s.active[l].Reading? && s.active[l].start == s.now
    && s.active[l].h < |s.closes| && s.closes[s.active[l].h] == 1
  }

  /** After Close the pointer still holds the closed handle: a lookup that starts then reads it. */
  lemma LookupAfterCloseReadsClosed(version: nat)
    ensures exists run: seq<State>, acts: seq<Action>, n: nat, l: nat ::
              IsRun(run, acts) && n < |run| && ReadsClosed(run[n], l)
  {
    var run, acts := [Init(version)], [];
    run, acts := Go(run, acts, Enter(0));
    run, acts := Go(run, acts, Mark(0));
    run, acts := Go(run, acts, Fetch(0));
    run, acts := Go(run, acts, CloseHandle(0));
    run, acts := Go(run, acts, Unlock(0));
    run, acts := Go(run, acts, Begin(0));
    run, acts := Go(run, acts, Fetched(0));
    assert run[7].active[0] == Reading(0, 0) && run[7].closes == [1] && run[7].now == 0;
    assert IsRun(run, acts) && ReadsClosed(run[7], 0);
  }
}
