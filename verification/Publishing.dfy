// BuildFile: building a database beside the published one and renaming it into
// place, with the skip and drop guards (attribution/sync.go).
module Publishing {
  import opened Net
  import opened Records
  import opened Streams
  import opened Tries
  import opened Building
  import opened Reading
  import opened Verifying
  import opened Disks

  /** Arguments of BuildFile. `encode` stands for the MMDB serialization, `open` for maxminddb.Open. */
  datatype Job = Job(items: seq<Item>, reject: Prefix -> bool, path: string, prev: Option<Report>,
                     maxDrop: real, maxSkip: real, encode: Trie<Stored> -> Bytes, open: Bytes -> Option<Reader>)

  /** Which system calls fail. `chunk` is how much each write takes, `room` how much fits on the disk. */
  datatype Faults = Faults(create: bool, chunk: nat, room: nat, fsync: bool, close: bool, open: bool,
                           rename: bool, remove: bool, syncDir: bool)

  /** Guards in exact arithmetic. */
  predicate SkipOk(inserted: nat, skipped: nat, maxSkip: real) {
    maxSkip > 0.0 && inserted + skipped > 0 ==> skipped as real / (inserted + skipped) as real <= maxSkip
  }

  predicate DropOk(prev: Option<Report>, networks: nat, maxDrop: real) {
    prev.Some? && maxDrop > 0.0 && prev.value.networks > 0 ==>
      networks as real >= prev.value.networks as real * (1.0 - maxDrop)
  }

  /** The skip guard bounds the share of entries skipped; with the guard off anything passes. */
  lemma SkipGuard(inserted: nat, skipped: nat, maxSkip: real)
    ensures SkipOk(inserted, skipped, maxSkip)
       <==> maxSkip <= 0.0 || skipped as real <= maxSkip * (inserted + skipped) as real
  {
    var total := (inserted + skipped) as real;
    if inserted + skipped > 0 { Ratio(skipped as real, total, maxSkip); }
  }

  lemma Ratio(a: real, b: real, m: real)
    requires b > 0.0
    ensures a / b <= m <==> a <= m * b
  {
    var q := a / b;
    assert q * b == a;
    if q <= m { assert q * b <= m * b; } else { assert q * b > m * b; }
  }

  /** The drop guard bounds the share of networks lost; a database that did not shrink always passes. */
  lemma DropGuard(prev: Option<Report>, networks: nat, maxDrop: real)
    ensures DropOk(prev, networks, maxDrop)
       <==> prev.None? || maxDrop <= 0.0
            || (prev.value.networks - networks) as real <= maxDrop * prev.value.networks as real
    ensures prev.Some? && networks >= prev.value.networks ==> DropOk(prev, networks, maxDrop)
  {
    if prev.Some? {
      var n, m := prev.value.networks as real, networks as real;
      assert n * (1.0 - maxDrop) == n - maxDrop * n;
      assert (prev.value.networks - networks) as real == n - m;
      if maxDrop > 0.0 { assert maxDrop * n >= 0.0; }
    }
  }

  /** `c` is the complete encoding of the job's build, passed both guards, reads back, and its whole
      walk decodes with a provider in every record. */
  ghost predicate Publishable(job: Job, c: Bytes) {
    var b := Finish(BuildFold(job.items, job.reject));
    && b.Built? && c == job.encode(b.tree) && SkipOk(b.inserted, b.skipped, job.maxSkip)
    && job.open(c).Some? && WalkPublishable(job, job.open(c).value)
  }

  ghost predicate WalkPublishable(job: Job, r: Reader) {
    Leaves(r.tree, V6_BITS, 0) != [] && SoundWalk(r) && DropOk(job.prev, |Leaves(r.tree, V6_BITS, 0)|, job.maxDrop)
  }

  /** A crash in state `d` leaves under the job's path what a crash before the run could have left,
      or a complete publishable database. */
  ghost predicate CrashSafe(before: Disk, d: Disk, job: Job) {
    forall seen :: MayShow(d, job.path, seen) ==>
      MayShow(before, job.path, seen) || (seen.Some? && Publishable(job, seen.value))
  }

  ghost predicate AllSafe(before: Disk, states: seq<Disk>, job: Job) {
    forall k :: 0 <= k < |states| ==> CrashSafe(before, states[k], job)
  }

  /** Until the rename: nothing but the temp file with inode `i` differs from `before`. */
  ghost predicate Staged(before: Disk, d: Disk, path: string, i: nat) {
    && before.Valid() && d.Valid() && i !in before.files
    && (forall j :: j in before.files ==> j in d.files && d.files[j] == before.files[j])
    && |d.dirs| >= |before.dirs| && d.dirs[..|before.dirs|] == before.dirs
    && forall v :: |before.dirs| <= v < |d.dirs| ==> SamePath(before.Dir(), d.dirs[v], path)
  }

  ghost predicate SamePath(a: map<string, nat>, b: map<string, nat>, path: string) {
    (path in a <==> path in b) && (path in a ==> a[path] == b[path])
  }

  lemma StagedShows(before: Disk, d: Disk, path: string, i: nat, seen: Option<Bytes>)
    requires Staged(before, d, path, i) && MayShow(d, path, seen)
    ensures MayShow(before, path, seen)
  {
    var v :| 0 <= v < |d.dirs| && Shows(d, d.dirs[v], path, seen);
    var u := if v < |before.dirs| then v else |before.dirs| - 1;
    assert v < |before.dirs| ==> d.dirs[v] == d.dirs[..|before.dirs|][v];
    assert SamePath(before.dirs[u], d.dirs[v], path);
    assert Shows(before, before.dirs[u], path, seen);
  }

  lemma StagedSafe(before: Disk, d: Disk, job: Job, i: nat)
    requires Staged(before, d, job.path, i)
    ensures CrashSafe(before, d, job)
    ensures forall seen :: MayShow(d, job.path, seen) ==> MayShow(before, job.path, seen)
    ensures d.Visible(job.path) == before.Visible(job.path)
  {
    forall seen | MayShow(d, job.path, seen) ensures MayShow(before, job.path, seen) {
      StagedShows(before, d, job.path, i, seen);
    }
    assert SamePath(before.Dir(), d.Dir(), job.path) by {
      if |d.dirs| == |before.dirs| { assert d.dirs[..|before.dirs|] == d.dirs; }
    }
  }

  lemma SafeAppend(before: Disk, states: seq<Disk>, d: Disk, job: Job)
    requires AllSafe(before, states, job) && CrashSafe(before, d, job)
    ensures AllSafe(before, states + [d], job)
  {
  }

  /** What the run has done to the disk so far is safe, and the temp file is its inode `i`. */
  ghost predicate Staging(before: Disk, h0: seq<Disk>, fs: FileSystem, job: Job, tmp: string, i: nat)
    reads fs
  {
    && Staged(before, fs.disk, job.path, i)
    && h0 <= fs.history && AllSafe(before, fs.history[|h0|..], job)
    && OnlyTemp(fs.disk, tmp, i)
    && OthersKept(before, fs.disk, job.path, tmp)
  }

  ghost predicate OnlyTemp(d: Disk, tmp: string, i: nat) {
    && i in d.files && d.dirs != [] && tmp in d.Dir() && d.Dir()[tmp] == i
    && forall name :: name in d.Dir() && name != tmp ==> d.Dir()[name] != i
  }

  /** No name but the target and the temp file changes. */
  ghost predicate OthersKept(before: Disk, d: Disk, path: string, tmp: string) {
    before.dirs != [] && d.dirs != [] && forall name :: name != path && name != tmp
                                          ==> d.Visible(name) == before.Visible(name)
  }

  lemma HistoryGrows(h0: seq<Disk>, h: seq<Disk>, d: Disk)
    requires h0 <= h
    ensures h0 <= h + [d] && (h + [d])[|h0|..] == h[|h0|..] + [d]
  {
  }

  // ----- steps -----

  /** os.CreateTemp picks a name that is not taken. */
  method CreateTemp(fs: FileSystem, job: Job, tmp: string) returns (i: nat)
    requires fs.Valid() && tmp !in fs.disk.Dir() && tmp != job.path
    modifies fs
    ensures fs.Valid() && Staging(old(fs.disk), old(fs.history), fs, job, tmp, i)
    ensures fs.disk.files[i] == File([], false)
  {
    ghost var before, h0 := fs.disk, fs.history;
    i := fs.disk.next;
    var d := fs.disk.Create(tmp);
    assert d.Valid();
    fs.Apply(d);
    StagedSafe(before, d, job, i);
    HistoryGrows(h0, h0, d);
    SafeAppend(before, [], d, job);
    assert fs.history[|h0|..] == [] + [d];
  }

  /** Any step that touches only the temp file's data keeps the run staged. */
  method Touch(fs: FileSystem, d: Disk, job: Job, tmp: string, i: nat, ghost before: Disk, ghost h0: seq<Disk>)
    requires fs.Valid() && Staging(before, h0, fs, job, tmp, i)
    requires d.dirs == fs.disk.dirs && d.next == fs.disk.next && d.files.Keys == fs.disk.files.Keys
    requires forall j :: j in d.files && j != i ==> d.files[j] == fs.disk.files[j]
    modifies fs
    ensures fs.Valid() && Staging(before, h0, fs, job, tmp, i) && fs.disk == d
  {
    hide CrashSafe, MayShow, Publishable;
    ghost var h := fs.history;
    fs.Apply(d);
    StagedSafe(before, d, job, i);
    HistoryGrows(h0, h, d);
    SafeAppend(before, h[|h0|..], d, job);
  }

  /** tree.WriteTo: chunk by chunk, until the disk is full. */
  method WriteAll(fs: FileSystem, job: Job, tmp: string, i: nat, bytes: Bytes, faults: Faults, ghost before: Disk,
                  ghost h0: seq<Disk>)
    returns (ok: bool)
    requires fs.Valid() && Staging(before, h0, fs, job, tmp, i) && fs.disk.files[i] == File([], false)
    modifies fs
    ensures fs.Valid() && Staging(before, h0, fs, job, tmp, i)
    ensures ok ==> fs.disk.files[i] == File(bytes, false)
    ensures ok <==> |bytes| <= faults.room
  {
    hide CrashSafe, Publishable, Staged, AllSafe;
    var n := 0;
    while n < |bytes|
      invariant n <= |bytes| && fs.Valid() && Staging(before, h0, fs, job, tmp, i)
      invariant fs.disk.files[i] == File(bytes[..n], false)
      invariant n <= faults.room
    {
      var m := if n + faults.chunk + 1 < |bytes| then n + faults.chunk + 1 else |bytes|;
      if m > faults.room {
        return false;
      }
      assert bytes[..m] == bytes[..n] + bytes[n..m];
      Touch(fs, fs.disk.Write(i, bytes[n..m]), job, tmp, i, before, h0);
      n := m;
    }
    assert bytes[..n] == bytes;
    ok := true;
  }

  /** The deferred cleanup of a run that did not commit. */
  method Cleanup(fs: FileSystem, job: Job, tmp: string, i: nat, faults: Faults, ghost before: Disk, ghost h0: seq<Disk>)
    requires fs.Valid() && Staging(before, h0, fs, job, tmp, i) && tmp != job.path
    modifies fs
    ensures fs.Valid() && Refused(before, h0, fs, job, tmp)
    ensures !faults.remove ==> tmp !in fs.disk.Dir()
  {
    hide CrashSafe, Publishable, MayShow;
    ghost var h, d0 := fs.history, fs.disk;
    StagedSafe(before, d0, job, i);
    if !faults.remove {
      var d := fs.disk.Remove(tmp);
      fs.Apply(d);
      StagedSafe(before, d, job, i);
      HistoryGrows(h0, h, d);
      SafeAppend(before, h[|h0|..], d, job);
    }
  }

  /** A run that returned an error: the target is what it was, now and after a crash at any point,
      and no other name but the temp file changed. */
  ghost predicate Refused(before: Disk, h0: seq<Disk>, fs: FileSystem, job: Job, tmp: string)
    reads fs
  {
    && fs.disk.dirs != [] && before.dirs != []
    && fs.disk.Visible(job.path) == before.Visible(job.path)
    && (forall seen :: MayShow(fs.disk, job.path, seen) ==> MayShow(before, job.path, seen))
    && h0 <= fs.history && AllSafe(before, fs.history[|h0|..], job)
    && OthersKept(before, fs.disk, job.path, tmp)
  }

  /** `rep` is what Verify reports on a database. */
  ghost predicate ReportOf(r: Reader, rep: Report) {
    var walk := Leaves(r.tree, V6_BITS, 0);
    SpotsValid(walk) && Aggregates(Walked(r, walk), rep) && rep.networks == |walk|
  }

  /** A crash can only leave what is visible now. */
  ghost predicate Durable(d: Disk, path: string) {
    d.dirs != [] && forall seen :: MayShow(d, path, seen) ==> seen == d.Visible(path)
  }

  /** A run that succeeded: the target is the new database, publishable, the temp name is gone and
      no other name changed. */
  ghost predicate Published(before: Disk, h0: seq<Disk>, fs: FileSystem, job: Job, tmp: string, rep: Report)
    reads fs
  {
    && fs.disk.dirs != [] && before.dirs != []
    && fs.disk.Visible(job.path).Some? && Publishable(job, fs.disk.Visible(job.path).value)
    && job.open(fs.disk.Visible(job.path).value).Some? && ReportOf(job.open(fs.disk.Visible(job.path).value).value, rep)
    && DropOk(job.prev, rep.networks, job.maxDrop) && rep.networks > 0
    && h0 <= fs.history && AllSafe(before, fs.history[|h0|..], job)
    && tmp !in fs.disk.Dir() && OthersKept(before, fs.disk, job.path, tmp)
  }

  /** The rename, then a best-effort fsync of the directory. */
  method Commit(fs: FileSystem, job: Job, tmp: string, i: nat, bytes: Bytes, rep: Report, faults: Faults,
                ghost before: Disk, ghost h0: seq<Disk>)
    requires fs.Valid() && Staging(before, h0, fs, job, tmp, i) && tmp != job.path
    requires fs.disk.files[i] == File(bytes, true) && Publishable(job, bytes) && job.open(bytes).Some?
    requires DropOk(job.prev, rep.networks, job.maxDrop) && rep.networks > 0 && ReportOf(job.open(bytes).value, rep)
    modifies fs
    ensures fs.Valid() && Published(before, h0, fs, job, tmp, rep)
    ensures !faults.syncDir ==> Durable(fs.disk, job.path)
  {
    hide Publishable, DropOk, ReportOf, AllSafe, MayShow;
    ghost var h, d0 := fs.history, fs.disk;
    var d := fs.disk.Rename(tmp, job.path);
    RenameSafe(before, d0, job, tmp, i, bytes);
    fs.Apply(d);
    HistoryGrows(h0, h, d);
    SafeAppend(before, h[|h0|..], d, job);
    if !faults.syncDir {
      ghost var h1 := fs.history;
      var e := fs.disk.FsyncDir();
      fs.Apply(e);
      HistoryGrows(h0, h1, e);
      SafeAppend(before, h1[|h0|..], e, job);
    }
  }

  lemma RenameSafe(before: Disk, d: Disk, job: Job, tmp: string, i: nat, bytes: Bytes)
    requires Staged(before, d, job.path, i) && OthersKept(before, d, job.path, tmp) && OnlyTemp(d, tmp, i)
             && tmp != job.path
    requires d.files[i] == File(bytes, true) && Publishable(job, bytes)
    ensures var e := d.Rename(tmp, job.path); var f := e.FsyncDir();
            && e.Valid() && f.Valid() && CrashSafe(before, e, job) && CrashSafe(before, f, job)
            && e.Visible(job.path) == Some(bytes) && tmp !in e.Dir() && OthersKept(before, e, job.path, tmp)
            && f.Visible(job.path) == Some(bytes) && tmp !in f.Dir() && OthersKept(before, f, job.path, tmp)
              && Durable(f, job.path)
  {
    hide Publishable;
    var e := d.Rename(tmp, job.path);
    forall seen | MayShow(e, job.path, seen) ensures MayShow(before, job.path, seen) || seen == Some(bytes) {
      var v :| 0 <= v < |e.dirs| && Shows(e, e.dirs[v], job.path, seen);
      if v < |d.dirs| {
        assert Shows(d, d.dirs[v], job.path, seen);
      }
    }
  }

  // ----- BuildFile -----

  /** When a run publishes: no system call it depends on fails, the disk has room, and the build
      makes a publishable database. */
  ghost predicate Succeeds(job: Job, faults: Faults) {
    var b := Finish(BuildFold(job.items, job.reject));
    && !faults.create && !faults.fsync && !faults.close && !faults.open && !faults.rename
    && b.Built? && |job.encode(b.tree)| <= faults.room && Publishable(job, job.encode(b.tree))
  }

  lemma SucceedsWhen(job: Job, faults: Faults, b: Result)
    requires b == Finish(BuildFold(job.items, job.reject))
    ensures Succeeds(job, faults) <==>
              && !faults.create && !faults.fsync && !faults.close && !faults.open && !faults.rename
              && b.Built? && |job.encode(b.tree)| <= faults.room && SkipOk(b.inserted, b.skipped, job.maxSkip)
              && job.open(job.encode(b.tree)).Some? && WalkPublishable(job, job.open(job.encode(b.tree)).value)
  {
  }

  /** When a run publishes, down to its stream and the database it wrote: nothing fails on the way; no
      item of the stream aborts and some item is inserted; of all items no more than the allowed share
      is skipped; the file fits and opens; it has networks, each decodes and names a provider; and no
      more than the allowed share of the previous networks is lost. */
  lemma SucceedsExactlyWhen(job: Job, faults: Faults)
    ensures var b, all := BuildFold(job.items, job.reject), |job.items|;
            Succeeds(job, faults) <==>
              && !faults.create && !faults.fsync && !faults.close && !faults.open && !faults.rename
              && Clean(job.items) && SomeInserted(job.items, job.reject)
              && (job.maxSkip <= 0.0
                  || (all - |InsertedAt(job.items, job.reject)|) as real <= job.maxSkip * all as real)
              && b.Built? && |job.encode(b.tree)| <= faults.room && job.open(job.encode(b.tree)).Some?
              && var r := job.open(job.encode(b.tree)).value;
                 var walk := Leaves(r.tree, V6_BITS, 0);
                 && walk != []
                 && (forall s :: s in walk ==> s.offset in r.data && r.data[s.offset].provider != "")
                 && (job.prev.None? || job.maxDrop <= 0.0
                     || (job.prev.value.networks - |walk|) as real <= job.maxDrop * job.prev.value.networks as real)
  {
    hide BuildFold, Leaves, InsertedAt, SomeInserted, Clean, Succeeds, SkipOk, DropOk;
    var b := BuildFold(job.items, job.reject);
    SucceedsWhen(job, faults, Finish(b));
    BuildExactlyWhen(job.items, job.reject);
    BuildOutcome(job.items, job.reject);
    if b.Built? {
      SkipGuard(b.inserted, b.skipped, job.maxSkip);
      if job.open(job.encode(b.tree)).Some? {
        var r := job.open(job.encode(b.tree)).value;
        DropGuard(job.prev, |Leaves(r.tree, V6_BITS, 0)|, job.maxDrop);
      }
    }
  }

  datatype Outcome = Refusal | Done(count: nat, skipped: nat, report: Report)

  /** BuildFile. Whatever fails and wherever a crash strikes, the target is the previous database or
      a complete publishable one; an error leaves it untouched. */
  method BuildFile(fs: FileSystem, job: Job, tmp: string, faults: Faults) returns (out: Outcome)
    requires fs.Valid() && tmp !in fs.disk.Dir() && tmp != job.path
    requires forall c :: job.open(c).Some? ==> job.open(c).value.Valid()
    modifies fs
    ensures fs.Valid()
    ensures out.Refusal? ==> Refused(old(fs.disk), old(fs.history), fs, job, tmp)
    ensures out.Refusal? && !faults.remove ==> tmp !in fs.disk.Dir()
    ensures out.Done? ==> Published(old(fs.disk), old(fs.history), fs, job, tmp, out.report)
    ensures out.Done? && !faults.syncDir ==> Durable(fs.disk, job.path)
    ensures out.Done? <==> Succeeds(job, faults)
    ensures out.Done? ==>
              var b := Finish(BuildFold(job.items, job.reject));
              out.count == b.inserted && out.skipped == b.skipped
    ensures out.Done? && job.maxSkip > 0.0 ==>
              out.skipped as real <= job.maxSkip * (out.count + out.skipped) as real
    ensures out.Done? && job.prev.Some? && job.maxDrop > 0.0 ==>
              (job.prev.value.networks - out.report.networks) as real <= job.maxDrop * job.prev.value.networks as real
  {
    hide Staging, Refused, Published, Publishable, MayShow, BuildFold, Leaves, WalkPublishable, SkipOk, DropOk,
      ReportOf, Durable, Succeeds, Finish;
    ghost var before, h0 := fs.disk, fs.history;
    SucceedsWhen(job, faults, Finish(BuildFold(job.items, job.reject)));
    if faults.create {
      NothingDone(before, h0, fs, job, tmp);
      return Refusal;
    }
    var i := CreateTemp(fs, job, tmp);
    var b, staged := Stage(fs, job, tmp, i, faults, before, h0);
    if !staged || !SkipOk(b.inserted, b.skipped, job.maxSkip) {
      Cleanup(fs, job, tmp, i, faults, before, h0);
      return Refusal;
    }
    var written := ReadTemp(fs, job, tmp, i, before, h0);
    var db := job.open(written);
    if faults.open || db.None? {
      Cleanup(fs, job, tmp, i, faults, before, h0);
      return Refusal;
    }
    var sound, rep := CheckWalk(job, db.value);
    if !sound {
      Cleanup(fs, job, tmp, i, faults, before, h0);
      return Refusal;
    }
    if faults.rename {
      Cleanup(fs, job, tmp, i, faults, before, h0);
      return Refusal;
    }
    assert Publishable(job, written) by { PublishableIntro(job, b, written); }
    SkipGuard(b.inserted, b.skipped, job.maxSkip);
    DropGuard(job.prev, rep.networks, job.maxDrop);
    Commit(fs, job, tmp, i, written, rep, faults, before, h0);
    out := Done(b.inserted, b.skipped, rep);
  }

  lemma NothingDone(before: Disk, h0: seq<Disk>, fs: FileSystem, job: Job, tmp: string)
    requires fs.disk == before && fs.history == h0 && before.Valid()
    ensures Refused(before, h0, fs, job, tmp)
  {
  }

  lemma PublishableIntro(job: Job, b: Result, c: Bytes)
    requires b == Finish(BuildFold(job.items, job.reject)) && b.Built? && c == job.encode(b.tree)
    requires SkipOk(b.inserted, b.skipped, job.maxSkip)
    requires job.open(c).Some? && WalkPublishable(job, job.open(c).value)
    ensures Publishable(job, c)
  {
  }

  /** Build into the temp file, fsync and close it. */
  method Stage(fs: FileSystem, job: Job, tmp: string, i: nat, faults: Faults, ghost before: Disk, ghost h0: seq<Disk>)
    returns (b: Result, ok: bool)
    requires fs.Valid() && Staging(before, h0, fs, job, tmp, i) && fs.disk.files[i] == File([], false)
    modifies fs
    ensures fs.Valid() && Staging(before, h0, fs, job, tmp, i)
    ensures b == Finish(BuildFold(job.items, job.reject))
    ensures ok ==> b.Built? && fs.disk.files[i] == File(job.encode(b.tree), true)
    ensures ok <==> b.Built? && |job.encode(b.tree)| <= faults.room && !faults.fsync && !faults.close
  {
    hide Staged, AllSafe, CrashSafe, Publishable, BuildFold, OthersKept;
    b := Build(job.items, job.reject);
    if b.Failed? {
      return b, false;
    }
    ok := WriteAll(fs, job, tmp, i, job.encode(b.tree), faults, before, h0);
    if !ok || faults.fsync {
      return b, false;
    }
    Touch(fs, fs.disk.Fsync(i), job, tmp, i, before, h0);
    ok := !faults.close;
  }

  method ReadTemp(fs: FileSystem, job: Job, tmp: string, i: nat, ghost before: Disk, ghost h0: seq<Disk>)
    returns (c: Bytes)
    requires Staging(before, h0, fs, job, tmp, i)
    ensures i in fs.disk.files && c == fs.disk.files[i].data
  {
    c := fs.disk.files[fs.disk.Dir()[tmp]].data;
  }

  /** Verify the reopened file and compare its network count with the previous report. */
  method CheckWalk(job: Job, r: Reader) returns (ok: bool, rep: Report)
    requires r.Valid()
    ensures ok <==> WalkPublishable(job, r)
    ensures ok ==> DropOk(job.prev, rep.networks, job.maxDrop) && rep.networks > 0 && ReportOf(r, rep)
  {
    hide Leaves, SoundWalk, Aggregates, Walked;
    var db := new DB(r);
    ok, rep := Verify(db);
    if !ok {
      return;
    }
    ok := DropOk(job.prev, rep.networks, job.maxDrop);
  }

  // ----- the drop guard over a series of runs -----

  /** One run of a series in which the previous report is always that of the published database. */
  ghost predicate RunStep(cur: Report, next: Report, published: bool, maxDrop: real) {
    if published then DropOk(Some(cur), next.networks, maxDrop) && next.networks > 0 && exists r :: ReportOf(r, next)
    else next == cur
  }

  /** A successful BuildFile is a published step from the report it was given. */
  lemma PublishedStep(before: Disk, h0: seq<Disk>, fs: FileSystem, job: Job, tmp: string, rep: Report)
    requires Published(before, h0, fs, job, tmp, rep) && job.prev.Some?
    ensures RunStep(job.prev.value, rep, true, job.maxDrop)
  {
    hide ReportOf, AllSafe, MayShow, Publishable, OthersKept;
    assert ReportOf(job.open(fs.disk.Visible(job.path).value).value, rep);
  }

  function Power(b: real, k: nat): real {
    if k == 0 then 1.0 else b * Power(b, k - 1)
  }

  function Successes(published: seq<bool>): nat {
    if published == [] then 0 else Successes(published[..|published| - 1]) + if published[|published| - 1] then 1 else 0
  }

  /** `n` is at least (1-d)^k times `first`. */
  ghost predicate KeptShare(n: nat, first: nat, d: real, k: nat) {
    n as real >= Power(1.0 - d, k) * first as real
  }

  /** After any series of runs, k of them successful, the published database has at least (1-d)^k
      times the networks it started with, has some, and its counts add up. */
  lemma {:induction false} DropGuardSeries(reports: seq<Report>, published: seq<bool>, d: real)
    requires 0.0 < d <= 1.0 && |reports| == |published| + 1
    requires reports[0].networks > 0 && exists r :: ReportOf(r, reports[0])
    requires forall i :: 0 <= i < |published| ==> RunStep(reports[i], reports[i + 1], published[i], d)
    ensures var last := reports[|published|];
            && KeptShare(last.networks, reports[0].networks, d, Successes(published))
            && last.networks > 0 && last.ipv4 + last.ipv6 == last.networks && Sum(last.byProvider) == last.networks
    decreases |published|
  {
    hide ReportOf, DropOk, KeptShare;
    var n := |published|;
    if n == 0 {
      Start(reports[0].networks, d);
      AddsUp(reports[0]);
    } else {
      var pre, cur, last := published[..n - 1], reports[n - 1], reports[n];
      forall i | 0 <= i < n - 1 ensures RunStep(reports[..n][i], reports[..n][i + 1], pre[i], d) {
        assert RunStep(reports[i], reports[i + 1], published[i], d);
      }
      DropGuardSeries(reports[..n], pre, d);
      assert RunStep(reports[n - 1], reports[n - 1 + 1], published[n - 1], d);
      if published[n - 1] {
        Shrink(cur, last, Successes(pre), reports[0].networks, d);
        AddsUp(last);
      }
    }
  }

  lemma Start(n: nat, d: real)
    ensures KeptShare(n, n, d, 0)
  {
  }

  lemma Shrink(cur: Report, last: Report, k: nat, first: nat, d: real)
    requires 0.0 < d <= 1.0 && cur.networks > 0 && KeptShare(cur.networks, first, d, k)
             && DropOk(Some(cur), last.networks, d)
    ensures KeptShare(last.networks, first, d, k + 1)
  {
    var a, f, p, r := cur.networks as real, 1.0 - d, Power(1.0 - d, k), first as real;
    assert a * f >= (p * r) * f;
    assert (p * r) * f == (f * p) * r;
  }

  lemma AddsUp(rep: Report)
    requires exists r :: ReportOf(r, rep)
    ensures rep.ipv4 + rep.ipv6 == rep.networks && Sum(rep.byProvider) == rep.networks
  {
  }
}
