// Collecting feeds into one entry stream, failing fast or isolating failures
// (attribution/pipeline.go).
module Collecting {
  import opened Net
  import opened Streams
  import opened Building

  /** A deterministic feed: an open error, or the pairs its parser yields. */
  datatype Feed = Feed(ref: string, openError: Option<string>, parsed: seq<Item>)

  datatype Plugin = Plugin(name: string, feeds: seq<Feed>)

  datatype FeedFailure = FeedFailure(provider: string, ref: string, err: string)

  /** One feed of one plugin, in the order the nested loops meet them. */
  datatype Work = Work(provider: string, feed: Feed)

  function FeedsOf(p: Plugin): seq<Work> {
    seq(|p.feeds|, i requires 0 <= i < |p.feeds| => Work(p.name, p.feeds[i]))
  }

  function Works(plugins: seq<Plugin>): seq<Work> {
    if plugins == [] then [] else Works(plugins[..|plugins| - 1]) + FeedsOf(plugins[|plugins| - 1])
  }

  function Wrapped(w: Work, i: Item): Item {
    match i
    case Ok(_) => i
    case Err(m) => Err(w.provider + ": parse " + w.feed.ref + ": " + m)
  }

  /** What collectFeed yields. */
  function FeedItems(w: Work): seq<Item> {
    match w.feed.openError
    case Some(m) => [Err(w.provider + ": open " + w.feed.ref + ": " + m)]
    case None => seq(|w.feed.parsed|, i requires 0 <= i < |w.feed.parsed| => Wrapped(w, w.feed.parsed[i]))
  }

  function Collected(ws: seq<Work>): seq<Item> {
    if ws == [] then [] else Collected(ws[..|ws| - 1]) + FeedItems(ws[|ws| - 1])
  }

  /** The error that makes bufferFeed discard a feed: from opening it, or the first from its parser. */
  function FirstError(items: seq<Item>): Option<string> {
    if items == [] then None else if items[0].Err? then Some(items[0].msg) else FirstError(items[1..])
  }

  function FeedError(f: Feed): Option<string> {
    if f.openError.Some? then f.openError else FirstError(f.parsed)
  }

  function Resilient(ws: seq<Work>): seq<Item> {
    if ws == [] then []
    else
      var w := ws[|ws| - 1];
      Resilient(ws[..|ws| - 1]) + if FeedError(w.feed).None? then w.feed.parsed else []
  }

  /** The report of a failing feed. */
  function FailureOf(w: Work): seq<FeedFailure> {
    var err := FeedError(w.feed);
    if err.Some? then [FeedFailure(w.provider, w.feed.ref, err.value)] else []
  }

  function Failures(ws: seq<Work>): seq<FeedFailure> {
    if ws == [] then []
    else
      Failures(ws[..|ws| - 1]) + FailureOf(ws[|ws| - 1])
  }

  function CleanOnly(ws: seq<Work>): seq<Work> {
    if ws == [] then []
    else
      var w := ws[|ws| - 1];
      CleanOnly(ws[..|ws| - 1]) + if FeedError(w.feed).None? then [w] else []
  }

  lemma {:induction false} NoFirstError(items: seq<Item>)
    ensures FirstError(items).None? <==> forall i :: 0 <= i < |items| ==> items[i].Ok?
  {
    if items != [] {
      NoFirstError(items[1..]);
      assert items == [items[0]] + items[1..];
    }
  }

  lemma CleanFeed(w: Work)
    requires FeedError(w.feed).None?
    ensures FeedItems(w) == w.feed.parsed && forall i :: 0 <= i < |w.feed.parsed| ==> w.feed.parsed[i].Ok?
  {
    NoFirstError(w.feed.parsed);
  }

  /** Resilient collection refines fail-fast collection: it yields no error, and exactly what Collect
      yields over the feeds that open and parse cleanly, in the same order. Every other feed is
      reported once. */
  lemma {:induction false} ResilientRefines(ws: seq<Work>)
    ensures Resilient(ws) == Collected(CleanOnly(ws))
    ensures forall i :: 0 <= i < |Resilient(ws)| ==> Resilient(ws)[i].Ok?
    ensures |Failures(ws)| + |CleanOnly(ws)| == |ws|
  {
    if ws != [] {
      var pre, w := ws[..|ws| - 1], ws[|ws| - 1];
      ResilientRefines(pre);
      if FeedError(w.feed).None? {
        CleanFeed(w);
      } else {
        assert Resilient(pre) + [] == Resilient(pre) && CleanOnly(pre) + [] == CleanOnly(pre);
      }
    }
  }

  /** If every feed is clean the two collections are the same stream. */
  lemma {:induction false} SameWhenClean(ws: seq<Work>)
    requires forall i :: 0 <= i < |ws| ==> FeedError(ws[i].feed).None?
    ensures Resilient(ws) == Collected(ws) && Failures(ws) == []
  {
    if ws != [] {
      SameWhenClean(ws[..|ws| - 1]);
      CleanFeed(ws[|ws| - 1]);
    }
  }

  // ----- what the streams hold, feed by feed -----

  /** Why a feed fails: it does not open, or its parser yields an error after only entries. */
  ghost predicate FailsWith(f: Feed, m: string) {
    if f.openError.Some? then m == f.openError.value
    else exists j :: 0 <= j < |f.parsed| && f.parsed[j] == Err(m) && forall k :: 0 <= k < j ==> f.parsed[k].Ok?
  }

  ghost predicate Healthy(f: Feed) {
    f.openError.None? && forall j :: 0 <= j < |f.parsed| ==> f.parsed[j].Ok?
  }

  lemma {:induction false} FirstErrorAt(items: seq<Item>, m: string)
    ensures FirstError(items) == Some(m) <==>
              exists j :: 0 <= j < |items| && items[j] == Err(m) && forall k :: 0 <= k < j ==> items[k].Ok?
  {
    if items != [] && items[0].Ok? {
      FirstErrorAt(items[1..], m);
      if FirstError(items) == Some(m) {
        var j :| 0 <= j < |items[1..]| && items[1..][j] == Err(m) && forall k :: 0 <= k < j ==> items[1..][k].Ok?;
        assert items[j + 1] == Err(m) && forall k :: 0 < k < j + 1 ==> items[k] == items[1..][k - 1];
      }
      if j :| 0 <= j < |items| && items[j] == Err(m) && forall k :: 0 <= k < j ==> items[k].Ok? {
        assert j > 0 && items[1..][j - 1] == Err(m);
        assert forall k :: 0 <= k < j - 1 ==> items[1..][k] == items[k + 1];
      }
    }
  }

  /** The error found in a feed is its reason to fail; a healthy feed has none. */
  lemma ErrorOfFeed(f: Feed)
    ensures FeedError(f).None? <==> Healthy(f)
    ensures forall m :: FeedError(f) == Some(m) <==> FailsWith(f, m)
  {
    NoFirstError(f.parsed);
    forall m ensures FeedError(f) == Some(m) <==> FailsWith(f, m) {
      FirstErrorAt(f.parsed, m);
    }
  }

  /** The message names the plugin and the feed and ends with the cause. */
  ghost predicate Reports(msg: string, w: Work, cause: string) {
    exists verb: string :: msg == w.provider + ": " + verb + " " + w.feed.ref + ": " + cause
  }

  /** What one feed contributes: a single error if it does not open, and otherwise an item for each
      parsed pair, entries unchanged and errors as errors. */
  lemma FeedContributes(w: Work)
    ensures var items, f := FeedItems(w), w.feed;
            if f.openError.Some? then
              |items| == 1 && items[0].Err? && Reports(items[0].msg, w, f.openError.value)
            else
              && |items| == |f.parsed|
              && (forall j :: 0 <= j < |items| && f.parsed[j].Ok? ==> items[j] == f.parsed[j])
              && forall j :: 0 <= j < |items| && f.parsed[j].Err? ==>
                   items[j].Err? && Reports(items[j].msg, w, f.parsed[j].msg)
  {
    if w.feed.openError.Some? {
      var m := w.feed.openError.value;
      assert w.provider + ": open " + w.feed.ref + ": " + m == w.provider + ": " + "open" + " " + w.feed.ref + ": " + m;
    }
    forall j | 0 <= j < |w.feed.parsed| && w.feed.parsed[j].Err?
      ensures Reports(Wrapped(w, w.feed.parsed[j]).msg, w, w.feed.parsed[j].msg)
    {
      var m := w.feed.parsed[j].msg;
      assert w.provider + ": parse " + w.feed.ref + ": " + m
        == w.provider + ": " + "parse" + " " + w.feed.ref + ": " + m;
    }
  }

  ghost predicate SomeErr(items: seq<Item>) {
    exists i :: 0 <= i < |items| && items[i].Err?
  }

  lemma SomeErrConcat(a: seq<Item>, b: seq<Item>)
    ensures SomeErr(a + b) <==> SomeErr(a) || SomeErr(b)
  {
    var c := a + b;
    assert forall i :: 0 <= i < |a| ==> c[i] == a[i];
    assert forall i :: 0 <= i < |b| ==> c[|a| + i] == b[i];
  }

  lemma UnhealthyErrs(w: Work)
    ensures SomeErr(FeedItems(w)) <==> !Healthy(w.feed)
  {
    hide Reports;
    FeedContributes(w);
    if !Healthy(w.feed) {
      if w.feed.openError.Some? {
        assert FeedItems(w)[0].Err?;
      } else {
        var j :| 0 <= j < |w.feed.parsed| && w.feed.parsed[j].Err?;
        assert FeedItems(w)[j].Err?;
      }
    }
  }

  lemma {:induction false} CollectedErrs(ws: seq<Work>)
    ensures SomeErr(Collected(ws)) <==> exists i :: 0 <= i < |ws| && !Healthy(ws[i].feed)
  {
    hide Healthy, FeedItems, SomeErr;
    if ws == [] {
      NoErr();
    } else {
      var n := |ws| - 1;
      CollectedErrs(ws[..n]);
      SomeErrConcat(Collected(ws[..n]), FeedItems(ws[n]));
      UnhealthyErrs(ws[n]);
      assert forall i :: 0 <= i < n ==> ws[..n][i] == ws[i];
    }
  }

  lemma NoErr()
    ensures !SomeErr([])
  {
  }

  /** Fail-fast collection yields an error exactly when some feed does not open or does not parse, and
      Build then fails: no database leaves out a feed in silence. */
  lemma FailingFeedAborts(ws: seq<Work>, reject: Prefix -> bool)
    ensures SomeErr(Collected(ws)) <==> exists i :: 0 <= i < |ws| && !Healthy(ws[i].feed)
    ensures SomeErr(Collected(ws)) ==> BuildFold(Collected(ws), reject).Failed?
  {
    hide Healthy, Collected, BuildFold, InsertedAt, SomeInserted;
    CollectedErrs(ws);
    BuildOutcome(Collected(ws), reject);
    if SomeErr(Collected(ws)) {
      var i :| 0 <= i < |Collected(ws)| && Collected(ws)[i].Err?;
      assert Aborts(Collected(ws)[i]);
    }
  }

  lemma {:induction false} CollectedConcat(a: seq<Work>, b: seq<Work>)
    ensures Collected(a + b) == Collected(a) + Collected(b)
    decreases |b|
  {
    hide FeedItems;
    if b == [] {
      assert a + b == a;
    } else {
      assert (a + b)[..|a + b| - 1] == a + b[..|b| - 1];
      CollectedConcat(a, b[..|b| - 1]);
    }
  }

  /** The first failing feed decides: what comes before it is delivered in full and without error. */
  lemma CollectedUpToFailure(ws: seq<Work>, n: nat)
    requires n < |ws| && forall i :: 0 <= i < n ==> Healthy(ws[i].feed)
    ensures Collected(ws[..n]) + FeedItems(ws[n]) <= Collected(ws)
    ensures !SomeErr(Collected(ws[..n]))
  {
    hide FeedItems, Healthy, SomeErr, Collected, Failures, Resilient;
    CollectedErrs(ws[..n]);
    WorksPrefix(ws, n);
    CollectedConcat(ws[..n + 1], ws[n + 1..]);
    assert ws == ws[..n + 1] + ws[n + 1..];
  }

  // ----- the order of feeds -----

  /** How many feeds the first `i` plugins have. */
  function FeedsBefore(plugins: seq<Plugin>, i: nat): nat
    requires i <= |plugins|
  {
    if i == 0 then 0 else FeedsBefore(plugins, i - 1) + |plugins[i - 1].feeds|
  }

  lemma {:induction false} WorksCount(plugins: seq<Plugin>, n: nat)
    requires n <= |plugins|
    ensures |Works(plugins[..n])| == FeedsBefore(plugins, n)
    decreases n
  {
    if n > 0 {
      assert plugins[..n][..n - 1] == plugins[..n - 1];
      WorksCount(plugins, n - 1);
    }
  }

  /** Feeds are met plugin by plugin in the order given, and for each in the order it lists them. */
  lemma {:induction false} WorksInOrder(plugins: seq<Plugin>, n: nat, i: nat, j: nat)
    requires i < n <= |plugins| && j < |plugins[i].feeds|
    ensures |Works(plugins[..n])| == FeedsBefore(plugins, n)
    ensures var at := FeedsBefore(plugins, i) + j;
            at < |Works(plugins[..n])| && Works(plugins[..n])[at] == Work(plugins[i].name, plugins[i].feeds[j])
    decreases n
  {
    WorksCount(plugins, n);
    WorksCount(plugins, n - 1);
    assert plugins[..n][..n - 1] == plugins[..n - 1];
    if i < n - 1 { WorksInOrder(plugins, n - 1, i, j); }
  }

  // ----- who is reported -----

  /** The positions of the failing feeds, ascending. */
  function FailingAt(ws: seq<Work>): seq<nat> {
    if ws == [] then []
    else FailingAt(ws[..|ws| - 1]) + if FeedError(ws[|ws| - 1].feed).Some? then [|ws| - 1] else []
  }

  /** `fs` reports the failing feeds, at the positions `at`, each by its plugin, its ref and the
      reason it failed. */
  ghost predicate ReportOf(ws: seq<Work>, at: seq<nat>, fs: seq<FeedFailure>) {
    && |fs| == |at|
    && (forall a, b :: 0 <= a < b < |at| ==> at[a] < at[b])
    && (forall a :: 0 <= a < |at| ==> at[a] < |ws| && Blames(fs[a], ws[at[a]]))
    && forall i: nat :: i < |ws| ==> (i in at <==> !Healthy(ws[i].feed))
  }

  ghost predicate Blames(f: FeedFailure, w: Work) {
    f.provider == w.provider && f.ref == w.feed.ref && FailsWith(w.feed, f.err)
  }

  lemma ReportSnoc(ws: seq<Work>, at: seq<nat>, fs: seq<FeedFailure>, more: seq<FeedFailure>)
    requires ws != [] && ReportOf(ws[..|ws| - 1], at, fs)
    requires var w := ws[|ws| - 1]; if Healthy(w.feed) then more == [] else |more| == 1 && Blames(more[0], w)
    ensures ReportOf(ws, at + if more == [] then [] else [|ws| - 1], fs + more)
  {
    hide Healthy, Blames;
    var n := |ws| - 1;
    assert forall i: nat :: i < n ==> ws[..n][i] == ws[i];
  }

  /** Resilient collection reports each failing feed once, in order, and no healthy one. */
  lemma {:induction false} ReportsFailing(ws: seq<Work>)
    ensures ReportOf(ws, FailingAt(ws), Failures(ws))
  {
    hide FailsWith, Healthy, FeedError, ReportOf;
    if ws == [] {
      NothingFails();
    } else {
      var n := |ws| - 1;
      ReportsFailing(ws[..n]);
      ErrorOfFeed(ws[n].feed);
      ReportSnoc(ws, FailingAt(ws[..n]), Failures(ws[..n]), FailureOf(ws[n]));
    }
  }

  lemma NothingFails()
    ensures ReportOf([], [], [])
  {
  }

  // ----- the loops -----

  /** collectFeed. */
  method CollectFeed(w: Work, c: Consumer<Item>) returns (more: bool)
    requires !c.Done()
    modifies c
    ensures c.got == Deliver(old(c.got), FeedItems(w), c.limit)
    ensures more == !c.Done()
  {
    if w.feed.openError.Some? {
      more := c.Yield(Err(w.provider + ": open " + w.feed.ref + ": " + w.feed.openError.value));
      DeliverPart(old(c.got), FeedItems(w), 1, c.limit);
      return;
    }
    hide Deliver, Wrapped;
    ghost var items := FeedItems(w);
    var i := 0;
    while i < |w.feed.parsed|
      invariant i <= |items| == |w.feed.parsed| && !c.Done()
      invariant c.got == old(c.got) + items[..i]
    {
      assert items[..i + 1] == items[..i] + [items[i]];
      more := c.Yield(Wrapped(w, w.feed.parsed[i]));
      i := i + 1;
      if !more {
        DeliverPart(old(c.got), items, i, c.limit);
        return;
      }
    }
    DeliverPart(old(c.got), items, i, c.limit);
    more := true;
  }

  /** bufferFeed: all of a feed or nothing. */
  method BufferFeed(f: Feed) returns (buf: seq<Item>, err: Option<string>)
    ensures err == FeedError(f)
    ensures err.None? ==> buf == f.parsed
    ensures err.Some? ==> buf == []
  {
    if f.openError.Some? {
      return [], f.openError;
    }
    buf := [];
    for i := 0 to |f.parsed|
      invariant buf == f.parsed[..i]
      invariant FirstError(f.parsed) == FirstError(f.parsed[i..])
    {
      assert f.parsed[i..][1..] == f.parsed[i + 1..];
      if f.parsed[i].Err? {
        return [], Some(f.parsed[i].msg);
      }
      assert f.parsed[..i + 1] == f.parsed[..i] + [f.parsed[i]];
      buf := buf + [f.parsed[i]];
    }
    assert f.parsed[..|f.parsed|] == f.parsed && f.parsed[|f.parsed|..] == [];
    err := None;
  }

  lemma WorksPrefix(ws: seq<Work>, n: nat)
    requires n < |ws|
    ensures ws[..n + 1][..n] == ws[..n]
    ensures Collected(ws[..n + 1]) == Collected(ws[..n]) + FeedItems(ws[n])
    ensures Resilient(ws[..n + 1]) == Resilient(ws[..n]) + if FeedError(ws[n].feed).None? then ws[n].feed.parsed else []
    ensures Failures(ws[..n + 1]) == Failures(ws[..n]) + FailureOf(ws[n])
  {
    assert ws[..n + 1][..n] == ws[..n];
  }

  /** A consumer that stopped within the first feeds has all it will get from all of them. */
  lemma {:induction false} CollectedStops(ws: seq<Work>, n: nat, got: seq<Item>, limit: nat)
    requires n <= |ws|
    ensures |Deliver(got, Collected(ws[..n]), limit)| >= limit ==>
              Deliver(got, Collected(ws), limit) == Deliver(got, Collected(ws[..n]), limit)
    ensures |Deliver(got, Resilient(ws[..n]), limit)| >= limit ==>
              Deliver(got, Resilient(ws), limit) == Deliver(got, Resilient(ws[..n]), limit)
    decreases |ws| - n
  {
    hide Deliver, FeedItems, FeedError;
    if n == |ws| {
      assert ws[..n] == ws;
    } else {
      WorksPrefix(ws, n);
      CollectedStops(ws, n + 1, got, limit);
      DeliverConcat(got, Collected(ws[..n]), FeedItems(ws[n]), limit);
      DeliverConcat(got, Resilient(ws[..n]), if FeedError(ws[n].feed).None? then ws[n].feed.parsed else [], limit);
      if |Deliver(got, Collected(ws[..n]), limit)| >= limit {
        DeliverDone(Deliver(got, Collected(ws[..n]), limit), FeedItems(ws[n]), limit);
      }
      if |Deliver(got, Resilient(ws[..n]), limit)| >= limit {
        var healthy := if FeedError(ws[n].feed).None? then ws[n].feed.parsed else [];
        DeliverDone(Deliver(got, Resilient(ws[..n]), limit), healthy, limit);
      }
    }
  }

  /** The two nested loops of Collect and CollectResilient meet the feeds in this order. */
  method Enumerate(plugins: seq<Plugin>) returns (ws: seq<Work>)
    ensures ws == Works(plugins)
  {
    ws := [];
    for i := 0 to |plugins|
      invariant ws == Works(plugins[..i])
    {
      assert plugins[..i + 1][..i] == plugins[..i];
      var before := ws;
      for j := 0 to |plugins[i].feeds|
        invariant ws == before + FeedsOf(plugins[i])[..j]
      {
        assert FeedsOf(plugins[i])[..j + 1] == FeedsOf(plugins[i])[..j] + [Work(plugins[i].name, plugins[i].feeds[j])];
        ws := ws + [Work(plugins[i].name, plugins[i].feeds[j])];
      }
      assert FeedsOf(plugins[i])[..|plugins[i].feeds|] == FeedsOf(plugins[i]);
    }
    assert plugins[..|plugins|] == plugins;
  }

  /** Collect. */
  method Collect(plugins: seq<Plugin>, c: Consumer<Item>)
    requires !c.Done()
    modifies c
    ensures c.got == Deliver(old(c.got), Collected(Works(plugins)), c.limit)
  {
    hide Deliver, FeedItems, Works;
    var ws := Enumerate(plugins);
    DeliverNone(c.got, c.limit);
    var i := 0;
    while i < |ws|
      invariant i <= |ws| && !c.Done()
      invariant c.got == Deliver(old(c.got), Collected(ws[..i]), c.limit)
    {
      WorksPrefix(ws, i);
      DeliverConcat(old(c.got), Collected(ws[..i]), FeedItems(ws[i]), c.limit);
      var more := CollectFeed(ws[i], c);
      i := i + 1;
      if !more {
        CollectedStops(ws, i, old(c.got), c.limit);
        return;
      }
    }
    assert ws[..i] == ws;
  }

  /** The onFail callback of CollectResilient, with what it was called with. */
  class FailLog {
    var seen: seq<FeedFailure>

    method OnFail(f: FeedFailure)
      modifies this
      ensures seen == old(seen) + [f]
    {
      seen := seen + [f];
    }
  }

  /** The consumer has all it wants after the first `n` feeds and not before. */
  ghost predicate FilledBy(ws: seq<Work>, n: nat, got: seq<Item>, limit: nat) {
    && n <= |ws| && |Deliver(got, Resilient(ws[..n]), limit)| >= limit
    && forall m :: 0 <= m < n ==> |Deliver(got, Resilient(ws[..m]), limit)| < limit
  }

  /** What one more feed adds to the consumer and to the failures. */
  lemma NextFeed(ws: seq<Work>, i: nat, got: seq<Item>, limit: nat)
    requires i < |ws|
    ensures var before, after, err := Resilient(ws[..i]), Resilient(ws[..i + 1]), FeedError(ws[i].feed);
            && (err.Some? ==> Deliver(got, after, limit) == Deliver(got, before, limit))
            && (err.None?
                ==> Deliver(got, after, limit) == Deliver(Deliver(got, before, limit), ws[i].feed.parsed, limit))
            && Failures(ws[..i + 1]) == Failures(ws[..i]) + FailureOf(ws[i])
  {
    hide Deliver, FeedError, Resilient, Failures;
    WorksPrefix(ws, i);
    if FeedError(ws[i].feed).Some? {
      assert Resilient(ws[..i]) + [] == Resilient(ws[..i]);
    } else {
      DeliverConcat(got, Resilient(ws[..i]), ws[i].feed.parsed, limit);
    }
  }

  lemma NoFeeds(got: seq<Item>, limit: nat)
    ensures Deliver(got, Resilient([]), limit) == got && Failures([]) == []
  {
  }

  /** CollectResilient: the consumer gets the healthy feeds, and each failing feed before the one at
      which it stopped is reported once, in order; a full drain reports them all. */
  method CollectResilient(plugins: seq<Plugin>, onFail: FailLog?, c: Consumer<Item>) returns (ghost met: nat)
    requires !c.Done()
    modifies c, onFail
    ensures c.got == Deliver(old(c.got), Resilient(Works(plugins)), c.limit)
    ensures if c.Done() then FilledBy(Works(plugins), met, old(c.got), c.limit) else met == |Works(plugins)|
    ensures onFail != null ==> onFail.seen == old(onFail.seen) + Failures(Works(plugins)[..met])
  {
    hide Deliver, FeedError, Works, Resilient, Failures;
    NoFeeds(c.got, c.limit);
    var ws := Enumerate(plugins);
    var i := 0;
    while i < |ws|
      invariant i <= |ws| && !c.Done()
      invariant c.got == Deliver(old(c.got), Resilient(ws[..i]), c.limit)
      invariant forall m :: 0 <= m <= i ==> |Deliver(old(c.got), Resilient(ws[..m]), c.limit)| < c.limit
      invariant onFail != null ==> onFail.seen == old(onFail.seen) + Failures(ws[..i])
    {
      NextFeed(ws, i, old(c.got), c.limit);
      var buf, err := BufferFeed(ws[i].feed);
      if err.Some? {
        if onFail != null {
          onFail.OnFail(FeedFailure(ws[i].provider, ws[i].feed.ref, err.value));
        }
        i := i + 1;
        continue;
      }
      var more := YieldAll(buf, c);
      i := i + 1;
      if !more {
        CollectedStops(ws, i, old(c.got), c.limit);
        met := i;
        return;
      }
    }
    assert ws[..i] == ws;
    met := |ws|;
  }

  method YieldAll(items: seq<Item>, c: Consumer<Item>) returns (more: bool)
    requires !c.Done()
    modifies c
    ensures c.got == Deliver(old(c.got), items, c.limit)
    ensures more == !c.Done()
  {
    hide Deliver;
    var i := 0;
    while i < |items|
      invariant i <= |items| && !c.Done()
      invariant c.got == old(c.got) + items[..i]
    {
      assert items[..i + 1] == items[..i] + [items[i]];
      more := c.Yield(items[i]);
      i := i + 1;
      if !more {
        DeliverPart(old(c.got), items, i, c.limit);
        return;
      }
    }
    DeliverPart(old(c.got), items, i, c.limit);
    more := true;
  }

  /** The pairs of all streams, one stream after the other. */
  function Chained(streams: seq<seq<Item>>): seq<Item> {
    if streams == [] then [] else streams[0] + Chained(streams[1..])
  }

  /** A combined build reads its cloud stream first and its reputation stream after it. */
  lemma ChainedPair(first: seq<Item>, second: seq<Item>)
    ensures Chained([first, second]) == first + second
  {
    assert [first, second][1..] == [second] && [second][1..] == [];
    assert Chained([second]) == second + [] == second;
  }

  /** ConcatEntries: each stream begins only after all of the one before it. */
  method ConcatEntries(streams: seq<seq<Item>>, c: Consumer<Item>)
    requires !c.Done()
    modifies c
    ensures c.got == Deliver(old(c.got), Chained(streams), c.limit)
  {
    hide Deliver;
    DeliverNone(c.got, c.limit);
    assert streams[0..] == streams;
    for i := 0 to |streams|
      invariant !c.Done() && Deliver(c.got, Chained(streams[i..]), c.limit)
                == Deliver(old(c.got), Chained(streams), c.limit)
    {
      assert streams[i..][1..] == streams[i + 1..];
      DeliverConcat(c.got, streams[i], Chained(streams[i + 1..]), c.limit);
      var more := YieldAll(streams[i], c);
      if !more {
        DeliverDone(c.got, Chained(streams[i + 1..]), c.limit);
        return;
      }
    }
    DeliverNone(c.got, c.limit);
  }
}
