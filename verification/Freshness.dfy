// Which database a hot-swapped service serves: when it can get older.
module Freshness {
  import opened HotSwap

  /** The version of the file that the current handle was opened from. */
  function Served(s: State): int {
    if s.db < |s.versions| then s.versions[s.db] else 0
  }

  // ----- sequential reloads -----

  predicate Pending(p: Stage) {
    p.Loaded? || p.Holding?
  }

  /** A reload opens the file only when no other reload still has a handle to install, as the single
      SIGHUP goroutine ensures. */
  ghost predicate Sequential(run: seq<State>, acts: seq<Action>) {
    |run| == |acts| + 1 && forall i :: 0 <= i < |acts| && acts[i].Load? ==> NonePending(run[i])
  }

  ghost predicate NonePending(s: State) {
    forall t :: t in s.threads ==> !Pending(s.threads[t])
  }

  ghost predicate Fresh(s: State) {
    && s.db < |s.versions|
    && (forall h: nat :: h < |s.versions| ==> s.versions[h] <= s.file)
    && (forall t :: t in s.threads && Pending(s.threads[t]) ==>
          s.threads[t].h < |s.versions| && s.versions[s.db] <= s.versions[s.threads[t].h])
    && forall t, u :: t in s.threads && u in s.threads && Pending(s.threads[t]) && Pending(s.threads[u]) ==> t == u
  }

  lemma FreshSame(s: State, r: State)
    requires Fresh(s) && r.db == s.db && r.versions == s.versions && s.file <= r.file
    requires forall t :: t in r.threads && Pending(r.threads[t])
              ==> t in s.threads && Pending(s.threads[t]) && s.threads[t].h == r.threads[t].h
    ensures Fresh(r) && r.db < |s.versions|
  {
  }

  lemma FreshOpen(s: State, r: State, t: nat)
    requires Fresh(s) && r.db == s.db && r.versions == s.versions + [s.file] && r.file == s.file
    requires r.threads == s.threads || (NonePending(s) && r.threads == s.threads[t := Loaded(|s.versions|)])
    ensures Fresh(r) && r.db < |s.versions|
  {
  }

  lemma FreshInstall(s: State, t: nat)
    requires Fresh(s) && Enabled(s, Install(t))
    ensures Fresh(Apply(s, Install(t))) && Apply(s, Install(t)).versions[Apply(s, Install(t)).db] >= s.versions[s.db]
  {
    assert Pending(s.threads[t]);
  }

  lemma FreshBounds(s: State)
    requires Fresh(s)
    ensures s.db < |s.versions|
  {
  }

  lemma KeepsFresh(s: State, a: Action)
    requires Fresh(s) && |s.closes| == |s.versions| && Enabled(s, a) && (a.Load? ==> NonePending(s))
    ensures Fresh(Apply(s, a)) && Apply(s, a).versions[Apply(s, a).db] >= s.versions[s.db]
  {
    hide Closed, NonePending, Fresh, Served;
    FreshBounds(s);
    var r := Apply(s, a);
    match a {
      case LoadFails(mapped) => if mapped { FreshOpen(s, r, 0); }
      case Load(t) => FreshOpen(s, r, t);
      case Install(t) => FreshInstall(s, t);
      case _ => FreshSame(s, r);
    }
  }

  /** With sequential reloads the served database never gets older, and is never newer than the file. */
  lemma {:induction false} NeverOlder(run: seq<State>, acts: seq<Action>, i: nat, j: nat)
    requires IsRun(run, acts) && Sequential(run, acts) && i <= j < |run|
    ensures Fresh(run[i]) && Fresh(run[j]) && Served(run[i]) <= Served(run[j]) <= run[j].file
    decreases j
  {
    hide Apply, Enabled;
    if j > 0 {
      NeverOlder(run, acts, if i < j then i else j - 1, j - 1);
      assert StepOf(run[j - 1], acts[j - 1], run[j - 1 + 1]);
      var o := RunInv(run, acts, j - 1);
      KeepsFresh(run[j - 1], acts[j - 1]);
    }
  }

  // ----- reloads that overlap -----

  /** Step `p` is a reload opening the file as handle `h`. */
  ghost predicate LoadsAt(run: seq<State>, acts: seq<Action>, p: nat, h: nat) {
    p < |acts| < |run| && acts[p].Load? && |run[p].versions| == h
  }

  ghost predicate ReplacesAt(acts: seq<Action>, r: nat) {
    r < |acts| && acts[r].Replace?
  }

  /** Step `k` is a reload of an open service swapping handle `h` in. */
  ghost predicate InstallsAt(run: seq<State>, acts: seq<Action>, k: nat, h: nat) {
    && k < |acts| < |run| && acts[k].Install? && !run[k].closed
    && acts[k].t in run[k].threads && run[k].threads[acts[k].t] == Holding(h)
  }

  /** Handle `h` was opened before a replacement of the file, and `g` after it. */
  ghost predicate OpenedAcross(run: seq<State>, acts: seq<Action>, h: nat, g: nat) {
    exists p: nat, r: nat, q: nat ::
      p < r < q && LoadsAt(run, acts, p, h) && ReplacesAt(acts, r) && LoadsAt(run, acts, q, g)
  }

  /** Handle `h` is swapped in after handle `g`. */
  ghost predicate SwappedAfter(run: seq<State>, acts: seq<Action>, g: nat, h: nat) {
    exists a: nat, b: nat :: a < b && InstallsAt(run, acts, a, g) && InstallsAt(run, acts, b, h)
  }

  /** A handle opened before a replacement of the file is swapped in after one opened after it. */
  ghost predicate Overtaken(run: seq<State>, acts: seq<Action>) {
    exists g: nat, h: nat :: OpenedAcross(run, acts, h, g) && SwappedAfter(run, acts, g, h)
  }

  ghost predicate GetsOlder(run: seq<State>) {
    exists i, j :: 0 <= i < j < |run| && Served(run[i]) > Served(run[j])
  }

  /** One step: files only get newer, and versions of handles never change. */
  lemma StepGrows(s: State, a: Action)
    requires Enabled(s, a)
    ensures s.versions <= Apply(s, a).versions && s.file <= Apply(s, a).file
    ensures a.Replace? <==> s.file < Apply(s, a).file
  {
  }

  lemma {:induction false} Grows(run: seq<State>, acts: seq<Action>, i: nat, j: nat)
    requires IsPath(run, acts) && i <= j < |run|
    ensures run[i].versions <= run[j].versions && run[i].file <= run[j].file
    decreases j
  {
    hide Apply, Enabled;
    if i < j {
      Grows(run, acts, i, j - 1);
      assert StepOf(run[j - 1], acts[j - 1], run[j - 1 + 1]);
      StepGrows(run[j - 1], acts[j - 1]);
    }
  }

  /** The file changes between two states exactly when it is replaced between them. */
  lemma {:induction false} Replacement(run: seq<State>, acts: seq<Action>, i: nat, j: nat)
    requires IsPath(run, acts) && i <= j < |run|
    ensures run[i].file < run[j].file <==> exists r: nat :: i <= r < j && ReplacesAt(acts, r)
    decreases j
  {
    hide Apply, Enabled;
    if i < j {
      Replacement(run, acts, i, j - 1);
      Grows(run, acts, i, j - 1);
      assert StepOf(run[j - 1], acts[j - 1], run[j - 1 + 1]);
      StepGrows(run[j - 1], acts[j - 1]);
      assert ReplacesAt(acts, j - 1) <==> acts[j - 1].Replace?;
    }
  }

  /** The version of an opened handle is that of the file when it was opened. */
  lemma LoadedVersion(run: seq<State>, acts: seq<Action>, p: nat, h: nat, n: nat)
    requires IsRun(run, acts) && LoadsAt(run, acts, p, h) && n < |run| && h < |run[n].versions|
    ensures p < n && run[n].versions[h] == run[p].file
  {
    if n <= p {
      Grows(run, acts, n, p);
      assert false;
    }
    assert StepOf(run[p], acts[p], run[p + 1]);
    Grows(run, acts, p + 1, n);
  }

  /** Every handle waiting to be installed was opened by a reload. */
  ghost predicate AllLoaded(run: seq<State>, acts: seq<Action>, n: nat)
    requires n < |run|
  {
    forall t :: t in run[n].threads && Pending(run[n].threads[t]) ==> LoadedBefore(run, acts, n, run[n].threads[t].h)
  }

  ghost predicate LoadedBefore(run: seq<State>, acts: seq<Action>, n: nat, h: nat) {
    exists p: nat :: p < n && LoadsAt(run, acts, p, h)
  }

  /** A step makes no new handle pending but the one it opens. */
  lemma StepPending(s: State, a: Action, t: nat)
    requires Enabled(s, a) && t in Apply(s, a).threads && Pending(Apply(s, a).threads[t])
    ensures (t in s.threads && Pending(s.threads[t]) && s.threads[t].h == Apply(s, a).threads[t].h)
         || (a == Load(t) && Apply(s, a).threads[t].h == |s.closes|)
  {
    hide Closed;
    match a {
      case Load(u) =>
      case Unlock(u) =>
      case _ =>
    }
  }

  lemma {:induction false} PendingLoaded(run: seq<State>, acts: seq<Action>, n: nat)
    requires IsRun(run, acts) && n < |run|
    ensures AllLoaded(run, acts, n)
    decreases n
  {
    hide Apply, Enabled;
    if n > 0 {
      var m := n - 1;
      PendingLoaded(run, acts, m);
      assert StepOf(run[m], acts[m], run[m + 1]);
      var o := RunInv(run, acts, m);
      forall t | t in run[n].threads && Pending(run[n].threads[t])
        ensures LoadedBefore(run, acts, n, run[n].threads[t].h)
      {
        StepPending(run[m], acts[m], t);
        if acts[m] == Load(t) && run[n].threads[t].h == |run[m].closes| {
          assert LoadsAt(run, acts, m, run[n].threads[t].h);
        } else {
          var p: nat :| p < m && LoadsAt(run, acts, p, run[m].threads[t].h);
        }
      }
    }
  }

  lemma InstallSwaps(run: seq<State>, acts: seq<Action>, k: nat, h: nat)
    requires IsRun(run, acts) && InstallsAt(run, acts, k, h)
    ensures run[k + 1].db == h < |run[k + 1].versions| && LoadedBefore(run, acts, k, h)
  {
    assert StepOf(run[k], acts[k], run[k + 1]);
    PendingLoaded(run, acts, k);
    var o := RunInv(run, acts, k + 1);
    hide Enabled;
  }

  /** Only a reload's swap changes what is served. */
  lemma ServedStep(run: seq<State>, acts: seq<Action>, k: nat)
    requires IsRun(run, acts) && k < |acts|
    ensures InstallsAt(run, acts, k, run[k + 1].db)
            || (run[k + 1].db == run[k].db && Served(run[k + 1]) == Served(run[k]))
  {
    assert StepOf(run[k], acts[k], run[k + 1]);
    var o := RunInv(run, acts, k);
    StepGrows(run[k], acts[k]);
  }

  lemma {:induction false} InstalledBefore(run: seq<State>, acts: seq<Action>, n: nat)
    requires IsRun(run, acts) && n < |run|
    ensures run[n].db == 0 || exists a: nat :: a < n && InstallsAt(run, acts, a, run[n].db)
    decreases n
  {
    hide InstallsAt, Served, StepOf;
    if n > 0 {
      InstalledBefore(run, acts, n - 1);
      ServedStep(run, acts, n - 1);
    }
  }

  lemma FirstServed(run: seq<State>, acts: seq<Action>, k: nat)
    requires IsRun(run, acts) && k < |run| && run[k].db == 0
    ensures Served(run[k]) == run[0].file
  {
    Grows(run, acts, 0, k);
  }

  /** A step after which an older version is served is the late swap of an overtaken handle. */
  lemma OlderStep(run: seq<State>, acts: seq<Action>, k: nat)
    requires IsRun(run, acts) && k < |acts| && Served(run[k]) > Served(run[k + 1])
    ensures Overtaken(run, acts)
  {
    hide StepOf, LoadsAt, InstallsAt, Overtaken;
    var h, g := run[k + 1].db, run[k].db;
    ServedStep(run, acts, k);
    InstallSwaps(run, acts, k, h);
    var p: nat :| p < k && LoadsAt(run, acts, p, h);
    LoadedVersion(run, acts, p, h, k + 1);
    InstalledBefore(run, acts, k);
    if g == 0 {
      FirstServed(run, acts, k);
      Grows(run, acts, 0, p);
      assert false;
    }
    var a: nat :| a < k && InstallsAt(run, acts, a, g);
    InstallSwaps(run, acts, a, g);
    var q: nat :| q < a && LoadsAt(run, acts, q, g);
    Grows(run, acts, a + 1, k);
    LoadedVersion(run, acts, q, g, k);
    LateSwap(run, acts, p, q, a, k, g, h);
  }

  lemma LateSwap(run: seq<State>, acts: seq<Action>, p: nat, q: nat, a: nat, b: nat, g: nat, h: nat)
    requires IsRun(run, acts) && LoadsAt(run, acts, p, h) && LoadsAt(run, acts, q, g) && run[p].file < run[q].file
    requires a < b && InstallsAt(run, acts, a, g) && InstallsAt(run, acts, b, h)
    ensures Overtaken(run, acts)
  {
    hide StepOf, InstallsAt;
    if q <= p { Grows(run, acts, q, p); }
    Replacement(run, acts, p, q);
    var r: nat :| p <= r < q && ReplacesAt(acts, r);
    assert r != p;
    assert OpenedAcross(run, acts, h, g) && SwappedAfter(run, acts, g, h);
  }

  lemma {:induction false} SomeStepOlder(run: seq<State>, i: nat, j: nat) returns (k: nat)
    requires i < j < |run| && Served(run[i]) > Served(run[j])
    ensures i <= k < j && Served(run[k]) > Served(run[k + 1])
    decreases j
  {
    hide Served;
    if Served(run[j - 1]) > Served(run[j]) {
      k := j - 1;
    } else {
      k := SomeStepOlder(run, i, j - 1);
    }
  }

  /** In any interleaving the served database gets older if and only if a handle opened before a
      replacement of the file is swapped in after one opened after it. */
  lemma OlderExactlyWhen(run: seq<State>, acts: seq<Action>)
    requires IsRun(run, acts)
    ensures GetsOlder(run) <==> Overtaken(run, acts)
  {
    hide StepOf, OpenedAcross, SwappedAfter, Served, IsRun;
    if GetsOlder(run) {
      var i, j :| 0 <= i < j < |run| && Served(run[i]) > Served(run[j]);
      var k := SomeStepOlder(run, i, j);
      RunLength(run, acts);
      OlderStep(run, acts, k);
    }
    if Overtaken(run, acts) {
      var g: nat, h: nat :| OpenedAcross(run, acts, h, g) && SwappedAfter(run, acts, g, h);
      OvertakenIsOlder(run, acts, g, h);
    }
  }

  lemma RunLength(run: seq<State>, acts: seq<Action>)
    requires IsRun(run, acts)
    ensures |run| == |acts| + 1
  {
  }

  lemma OvertakenIsOlder(run: seq<State>, acts: seq<Action>, g: nat, h: nat)
    requires IsRun(run, acts) && OpenedAcross(run, acts, h, g) && SwappedAfter(run, acts, g, h)
    ensures GetsOlder(run)
  {
    hide StepOf, LoadsAt, InstallsAt, Served;
    var p: nat, r: nat, q: nat :| p < r < q && LoadsAt(run, acts, p, h) && ReplacesAt(acts, r)
      && LoadsAt(run, acts, q, g);
    var a: nat, b: nat :| a < b && InstallsAt(run, acts, a, g) && InstallsAt(run, acts, b, h);
    LoadThenOlder(run, acts, p, r, q, a, b, g, h);
  }

  lemma LoadThenOlder(run: seq<State>, acts: seq<Action>, p: nat, r: nat, q: nat, a: nat, b: nat, g: nat, h: nat)
    requires IsRun(run, acts) && p < r < q && ReplacesAt(acts, r) && a < b
    requires LoadsAt(run, acts, p, h) && LoadsAt(run, acts, q, g)
    requires InstallsAt(run, acts, a, g) && InstallsAt(run, acts, b, h)
    ensures GetsOlder(run)
  {
    assert b < |acts| && q < |run|;
    InstallSwaps(run, acts, a, g);
    InstallSwaps(run, acts, b, h);
    hide StepOf, InstallsAt;
    LoadedVersion(run, acts, q, g, a + 1);
    LoadedVersion(run, acts, p, h, b + 1);
    Replacement(run, acts, p, q);
    assert Served(run[a + 1]) > Served(run[b + 1]);
  }

  // ----- a run that gets older -----

  /** Reload 1 opens the file, the file is replaced, and reload 2 opens and installs the new one. */
  lemma SecondInstalls(version: nat) returns (run: seq<State>, acts: seq<Action>)
    ensures IsRun(run, acts) && |run| == 6
    ensures run[5].versions == [version, version, version + 1] && run[5].db == 2 && !run[5].closed
    ensures run[5].threads == map[1 := Loaded(1), 2 := Swapped(0)]
  {
    run, acts := [Init(version)], [];
    run, acts := Go(run, acts, Load(1));
    run, acts := Go(run, acts, Replace);
    run, acts := Go(run, acts, Load(2));
    run, acts := Go(run, acts, Lock(2));
    run, acts := Go(run, acts, Install(2));
  }

  /** Two overlapping reloads can leave the older file served: the first to open installs last. */
  lemma OverlappingReloadsServeOlder(version: nat)
    ensures exists run: seq<State>, acts: seq<Action>, i: nat, j: nat ::
              IsRun(run, acts) && i < j < |run| && Served(run[i]) == version + 1 && Served(run[j]) == version
  {
    var run, acts := SecondInstalls(version);
    run, acts := Go(run, acts, Schedule(2));
    run, acts := Go(run, acts, Unlock(2));
    run, acts := Go(run, acts, Lock(1));
    run, acts := Go(run, acts, Install(1));
    assert Served(run[5]) == version + 1 && Served(run[9]) == version;
    assert IsRun(run, acts);
  }
}
