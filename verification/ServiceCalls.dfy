// The methods of server.Service run without interruption (server/service.go),
// tied to the steps of the hot-swap protocol.
module ServiceCalls {
  import opened Net
  import opened HotSwap

  /** The steps lead from one state to the other. */
  ghost predicate Leads(s: State, acts: seq<Action>, r: State) {
    exists run :: IsPath(run, acts) && run[0] == s && run[|acts|] == r
  }

  /** A state that keeps the protocol's invariant. */
  ghost predicate Sound(s: State) {
    exists o :: HotSwap.Inv(s, o)
  }

  lemma LeadsSound(s: State, acts: seq<Action>, r: State)
    requires Sound(s) && Leads(s, acts, r)
    ensures Sound(r)
  {
    hide HotSwap.Inv, StepOf;
    var o :| HotSwap.Inv(s, o);
    var run :| IsPath(run, acts) && run[0] == s && run[|acts|] == r;
    var q := PathInv(run, acts, o, |acts|);
  }

  /** What a sound state says about the current handle. */
  lemma SoundFacts(s: State)
    requires Sound(s)
    ensures |s.closes| == |s.versions| && s.db < |s.closes|
    ensures s.mu.None? ==> s.closes[s.db] == if s.closed then 1 else 0
    ensures s.released ==> s.closed
  {
    var o :| HotSwap.Inv(s, o);
  }

  function ReloadActs(t: nat): seq<Action> {
    [Load(t), Lock(t), Install(t), Schedule(t), Unlock(t)]
  }

  function DiscardActs(t: nat): seq<Action> {
    [Load(t), Lock(t), Install(t), Unlock(t)]
  }

  function LookupActs(l: nat, found: bool, failed: bool): seq<Action> {
    [Begin(l), Fetched(l), Finish(l, found, failed)]
  }

  function CloseActs(t: nat): seq<Action> {
    [Enter(t), Mark(t), Fetch(t), CloseHandle(t), Unlock(t)]
  }

  /** A reload's swap: the new handle serves, the old one will be closed when its timer fires. */
  function AfterSwap(s: State): State {
    s.(db := |s.closes|, versions := s.versions + [s.file], closes := s.closes + [0],
       timers := s.timers[s.db := s.now + GRACE])
  }

  function AfterDiscard(s: State): State {
    s.(versions := s.versions + [s.file], closes := s.closes + [1])
  }

  function AfterRefusal(s: State, mapped: bool): State {
    if mapped then AfterDiscard(s) else s
  }

  function AfterReject(s: State): State {
    s.(lookups := s.lookups + 1, errors := s.errors + 1)
  }

  function AfterLookup(s: State, found: bool, failed: bool): State {
    s.(lookups := s.lookups + 1, errors := s.errors + if failed then 1 else 0,
       hits := s.hits + if found && !failed then 1 else 0)
  }

  function AfterClose(s: State): State {
    s.(closed := true, released := true, closes := Closed(s.closes, s.db))
  }

  lemma LeadsJoin(s: State, a: seq<Action>, m: State, b: seq<Action>, r: State)
    requires Leads(s, a, m) && Leads(m, b, r)
    ensures Leads(s, a + b, r)
  {
    hide StepOf;
    var left :| IsPath(left, a) && left[0] == s && left[|a|] == m;
    var right :| IsPath(right, b) && right[0] == m && right[|b|] == r;
    var run, acts := left + right[1..], a + b;
    forall i | 0 <= i < |acts| ensures StepOf(run[i], acts[i], run[i + 1]) {
      if i < |a| {
        assert StepOf(left[i], a[i], left[i + 1]);
      } else {
        assert StepOf(right[i - |a|], b[i - |a|], right[i - |a| + 1]);
        assert run[i] == right[i - |a|] && run[i + 1] == right[i - |a| + 1];
      }
    }
    assert IsPath(run, acts) && run[0] == s;
    assert run[|acts|] == right[|b|];
  }

  /** Reload up to and including the lock. */
  lemma OpenLeads(s: State, t: nat)
    requires t !in s.threads && s.mu.None?
    ensures Leads(s, [Load(t), Lock(t)], s.(mu := Some(t), versions := s.versions + [s.file], closes := s.closes + [0],
                                            threads := s.threads[t := Holding(|s.closes|)]))
  {
    var run, acts := [s], [];
    run, acts := Go(run, acts, Load(t));
    run, acts := Go(run, acts, Lock(t));
    assert acts == [Load(t), Lock(t)];
  }

  lemma SwapLeads(m: State, t: nat)
    requires t in m.threads && m.threads[t].Holding? && !m.closed
    ensures Leads(m, [Install(t), Schedule(t), Unlock(t)],
                  m.(mu := None, db := m.threads[t].h, threads := m.threads - {t},
                    timers := m.timers[m.db := m.now + GRACE]))
  {
    var run, acts := [m], [];
    run, acts := Go(run, acts, Install(t));
    run, acts := Go(run, acts, Schedule(t));
    run, acts := Go(run, acts, Unlock(t));
    assert run[3].threads == m.threads - {t};
    assert acts == [Install(t), Schedule(t), Unlock(t)];
  }

  lemma ReloadLeads(s: State, t: nat)
    requires Sound(s) && t !in s.threads && s.mu.None? && !s.closed
    ensures Leads(s, ReloadActs(t), AfterSwap(s)) && Sound(AfterSwap(s))
  {
    hide Leads, Sound;
    var m := s.(mu := Some(t), versions := s.versions + [s.file], closes := s.closes + [0],
                threads := s.threads[t := Holding(|s.closes|)]);
    OpenLeads(s, t);
    SwapLeads(m, t);
    assert m.threads - {t} == s.threads;
    LeadsJoin(s, [Load(t), Lock(t)], m, [Install(t), Schedule(t), Unlock(t)], AfterSwap(s));
    assert [Load(t), Lock(t)] + [Install(t), Schedule(t), Unlock(t)] == ReloadActs(t);
    LeadsSound(s, ReloadActs(t), AfterSwap(s));
  }

  lemma CloseOwnLeads(m: State, t: nat)
    requires t in m.threads && m.threads[t].Holding? && m.closed && m.threads[t].h == |m.closes| - 1
             && m.closes[|m.closes| - 1] == 0
    ensures Leads(m, [Install(t), Unlock(t)],
                  m.(mu := None, threads := m.threads - {t}, closes := m.closes[..|m.closes| - 1] + [1]))
  {
    var run, acts := [m], [];
    run, acts := Go(run, acts, Install(t));
    run, acts := Go(run, acts, Unlock(t));
    assert run[2].threads == m.threads - {t};
    assert run[2].closes == m.closes[..|m.closes| - 1] + [1];
    assert acts == [Install(t), Unlock(t)];
  }

  lemma DiscardLeads(s: State, t: nat)
    requires Sound(s) && t !in s.threads && s.mu.None? && s.closed
    ensures Leads(s, DiscardActs(t), AfterDiscard(s)) && Sound(AfterDiscard(s))
  {
    hide Leads, Sound;
    var m := s.(mu := Some(t), versions := s.versions + [s.file], closes := s.closes + [0],
                threads := s.threads[t := Holding(|s.closes|)]);
    OpenLeads(s, t);
    CloseOwnLeads(m, t);
    assert m.threads - {t} == s.threads && m.closes[..|m.closes| - 1] == s.closes;
    LeadsJoin(s, [Load(t), Lock(t)], m, [Install(t), Unlock(t)], AfterDiscard(s));
    assert [Load(t), Lock(t)] + [Install(t), Unlock(t)] == DiscardActs(t);
    LeadsSound(s, DiscardActs(t), AfterDiscard(s));
  }

  lemma BeginClose(s: State, t: nat)
    requires t !in s.threads && s.mu.None? && !s.closed
    ensures Leads(s, [Enter(t), Mark(t), Fetch(t)],
                  s.(closed := true, mu := Some(t), threads := s.threads[t := Closing(s.db)]))
  {
    var run, acts := [s], [];
    run, acts := Go(run, acts, Enter(t));
    run, acts := Go(run, acts, Mark(t));
    run, acts := Go(run, acts, Fetch(t));
    assert acts == [Enter(t), Mark(t), Fetch(t)];
  }

  lemma EndClose(m: State, t: nat)
    requires t in m.threads && m.threads[t] == Closing(m.db)
    ensures Leads(m, [CloseHandle(t), Unlock(t)],
                  m.(mu := None, threads := m.threads - {t}, released := true, closes := Closed(m.closes, m.db)))
  {
    var run, acts := [m], [];
    run, acts := Go(run, acts, CloseHandle(t));
    run, acts := Go(run, acts, Unlock(t));
    assert run[2].threads == m.threads - {t};
    assert acts == [CloseHandle(t), Unlock(t)];
  }

  lemma CloseLeads(s: State, t: nat)
    requires Sound(s) && t !in s.threads && s.mu.None? && !s.closed
    ensures Leads(s, CloseActs(t), AfterClose(s)) && Sound(AfterClose(s))
  {
    hide Leads, Sound, Closed;
    var m := s.(closed := true, mu := Some(t), threads := s.threads[t := Closing(s.db)]);
    BeginClose(s, t);
    EndClose(m, t);
    assert m.threads - {t} == s.threads;
    LeadsJoin(s, [Enter(t), Mark(t), Fetch(t)], m, [CloseHandle(t), Unlock(t)], AfterClose(s));
    assert [Enter(t), Mark(t), Fetch(t)] + [CloseHandle(t), Unlock(t)] == CloseActs(t);
    LeadsSound(s, CloseActs(t), AfterClose(s));
  }

  /** A second Close finds the flag set. */
  lemma CloseAgainLeads(s: State, t: nat)
    requires t !in s.threads && s.mu.None? && s.closed
    ensures Leads(s, [Enter(t), Mark(t), Unlock(t)], s)
  {
    var run, acts := [s], [];
    run, acts := Go(run, acts, Enter(t));
    run, acts := Go(run, acts, Mark(t));
    run, acts := Go(run, acts, Unlock(t));
    assert run[3].threads == s.threads;
    assert acts == [Enter(t), Mark(t), Unlock(t)];
  }

  /** A refused file: a handle that load had opened is closed before anyone sees it. */
  lemma RefusalLeads(s: State, mapped: bool)
    requires Sound(s)
    ensures Leads(s, [LoadFails(mapped)], AfterRefusal(s, mapped)) && Sound(AfterRefusal(s, mapped))
  {
    hide Sound;
    var run, acts := Go([s], [], LoadFails(mapped));
    assert acts == [LoadFails(mapped)];
    LeadsSound(s, acts, AfterRefusal(s, mapped));
  }

  /** A lookup of an invalid address. */
  lemma RejectLeads(s: State, l: nat)
    requires Sound(s) && l !in s.active
    ensures Leads(s, [Begin(l), Reject(l)], AfterReject(s)) && Sound(AfterReject(s))
  {
    hide Sound;
    var run, acts := [s], [];
    run, acts := Go(run, acts, Begin(l));
    run, acts := Go(run, acts, Reject(l));
    assert run[2].active == s.active;
    assert acts == [Begin(l), Reject(l)];
    LeadsSound(s, acts, AfterReject(s));
  }

  lemma BeginLookup(s: State, l: nat)
    requires l !in s.active
    ensures Leads(s, [Begin(l), Fetched(l)],
            s.(lookups := s.lookups + 1, active := s.active[l := Reading(s.db, s.now)]))
  {
    var run, acts := [s], [];
    run, acts := Go(run, acts, Begin(l));
    run, acts := Go(run, acts, Fetched(l));
    assert acts == [Begin(l), Fetched(l)];
  }

  lemma EndLookup(m: State, l: nat, found: bool, failed: bool)
    requires l in m.active && m.active[l].Reading?
    ensures Leads(m, [Finish(l, found, failed)],
                  m.(active := m.active - {l}, errors := m.errors + if failed then 1 else 0,
                     hits := m.hits + if found && !failed then 1 else 0))
  {
    var run, acts := Go([m], [], Finish(l, found, failed));
    assert acts == [Finish(l, found, failed)];
  }

  lemma LookupLeads(s: State, l: nat, found: bool, failed: bool)
    requires Sound(s) && l !in s.active
    ensures Leads(s, LookupActs(l, found, failed), AfterLookup(s, found, failed))
    ensures Sound(AfterLookup(s, found, failed))
  {
    hide Leads, Sound;
    var m := s.(lookups := s.lookups + 1, active := s.active[l := Reading(s.db, s.now)]);
    BeginLookup(s, l);
    EndLookup(m, l, found, failed);
    assert m.active - {l} == s.active;
    LeadsJoin(s, [Begin(l), Fetched(l)], m, [Finish(l, found, failed)], AfterLookup(s, found, failed));
    assert [Begin(l), Fetched(l)] + [Finish(l, found, failed)] == LookupActs(l, found, failed);
    LeadsSound(s, LookupActs(l, found, failed), AfterLookup(s, found, failed));
  }

  /** server.Service, with the world its methods act on. Each method here runs uninterrupted, taking
      and releasing mu within; its contract names the protocol steps it takes. */
  class Service {
    var db: nat
    var closed: bool
    var mu: Option<nat>
    var lookups: nat
    var hits: nat
    var errors: nat

    var now: nat
    var file: nat
    var versions: seq<nat>
    var closes: seq<nat>
    ghost var released: bool
    var timers: map<nat, nat>
    ghost var threads: map<nat, Stage>
    ghost var active: map<nat, Lookup>

    ghost function View(): State
      reads this
    {
      State(db, closed, mu, lookups, hits, errors, now, file, versions, closes, released, threads, timers, active)
    }

    ghost predicate Valid()
      reads this
    {
      Sound(View())
    }

    /** Reload by goroutine `t`. `loads` says whether load succeeds; if not, `mapped` says whether it
        had opened the file first. */
    method Reload(t: nat, loads: bool, mapped: bool) returns (ok: bool)
      requires Valid() && t !in threads && mu.None?
      modifies this
      ensures Valid() && ok == loads
      ensures !loads ==> View() == AfterRefusal(old(View()), mapped) && Leads(old(View()), [LoadFails(mapped)], View())
      ensures loads && old(closed) ==> View() == AfterDiscard(old(View())) && Leads(old(View()), DiscardActs(t), View())
      ensures loads && !old(closed) ==> View() == AfterSwap(old(View())) && Leads(old(View()), ReloadActs(t), View())
    {
      hide Leads, Sound, ReloadActs, DiscardActs;
      ghost var s := View();
      if !loads {
        if mapped {
          versions, closes := versions + [file], closes + [1];
        }
        RefusalLeads(s, mapped);
        return false;
      }
      var h := |closes|;
      versions, closes := versions + [file], closes + [0];
      if closed {
        closes := closes[h := closes[h] + 1];
        assert closes == s.closes + [1];
        DiscardLeads(s, t);
        return true;
      }
      var prev := db;
      db := h;
      timers := timers[prev := now + GRACE];
      ReloadLeads(s, t);
      ok := true;
    }

    /** Close by goroutine `t`. */
    method Close(t: nat)
      requires Valid() && t !in threads && mu.None?
      modifies this
      ensures Valid() && db < |closes| && closes[db] == 1
      ensures old(closed) ==> View() == old(View()) && Leads(old(View()), [Enter(t), Mark(t), Unlock(t)], View())
      ensures !old(closed) ==> View() == AfterClose(old(View())) && Leads(old(View()), CloseActs(t), View())
    {
      SoundFacts(View());
      hide Leads, Sound, CloseActs;
      ghost var s := View();
      if closed {
        CloseAgainLeads(s, t);
        return;
      }
      closed := true;
      closes := closes[db := closes[db] + 1];
      released := true;
      CloseLeads(s, t);
    }

    /** Lookup `l`, from counting it to its answer; `parses`, `failed` and `found` are what the address
        parser and the database say. */
    method Lookup(l: nat, parses: bool, failed: bool, found: bool) returns (h: Option<nat>)
      requires Valid() && l !in active
      modifies this
      ensures Valid() && h == if parses then Some(db) else None
      ensures !parses ==> View() == AfterReject(old(View())) && Leads(old(View()), [Begin(l), Reject(l)], View())
      ensures parses ==> View() == AfterLookup(old(View()), found, failed)
                         && Leads(old(View()), LookupActs(l, found, failed), View())
      ensures parses && !closed && mu.None? ==> db < |closes| && closes[db] == 0
    {
      SoundFacts(View());
      hide Leads, Sound, LookupActs;
      ghost var s := View();
      if !parses {
        Refuse(l);
        return None;
      }
      h := Some(db);
      Answer(l, failed, found);
    }

    /** The counters of a lookup of an invalid address. */
    method Refuse(l: nat)
      requires Valid() && l !in active
      modifies `lookups, `errors
      ensures Valid() && View() == AfterReject(old(View())) && Leads(old(View()), [Begin(l), Reject(l)], View())
    {
      hide Leads, Sound;
      RejectLeads(View(), l);
      lookups := lookups + 1;
      errors := errors + 1;
    }

    /** The counters of a lookup that reached the database. */
    method Answer(l: nat, failed: bool, found: bool)
      requires Valid() && l !in active
      modifies `lookups, `errors, `hits
      ensures Valid() && View() == AfterLookup(old(View()), found, failed)
      ensures Leads(old(View()), LookupActs(l, found, failed), View())
    {
      hide Leads, Sound, LookupActs;
      LookupLeads(View(), l, found, failed);
      lookups := lookups + 1;
      if failed {
        errors := errors + 1;
        return;
      }
      if found {
        hits := hits + 1;
      }
    }
  }
}
