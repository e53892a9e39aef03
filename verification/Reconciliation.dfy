/**
 What a download leaves on the host: every handled candidate as the container has it, and
 nothing else touched, except that directories on the way were made.
 */
module Reconciliation {
  import opened Sequences
  import opened Text
  import opened Sorting
  import opened Paths
  import opened Bytes
  import opened CommandLogs
  import opened HostFiles
  import opened Downloads
  import Matching
  import OutputFilters

  /** The host path of a candidate in the working directory. */
  function Local(workDir: string, c: Path): Path {
    if workDir <= c then c[|workDir|..] else ""
  }

  /** A candidate properly inside the working directory, with a relative name there. */
  ghost predicate Placed(workDir: string, c: Path) {
    && workDir != "" && workDir[|workDir| - 1] == '/'
    && workDir <= c && |workDir| < |c|
    && Named(Local(workDir, c)) && !IsAbsolute(Local(workDir, c))
  }

  /** The host has what the container has; for a directory it is enough that something is there. */
  ghost predicate Agrees(fs: Files, h: Path, entry: ContainerEntry) {
    if entry.ContainerFile? then h in fs && fs[h] == HostFile(entry.content) else Exists(fs, h)
  }

  ghost predicate NewDirectory(before: Files, now: Files, p: Path) {
    p !in before && p in now && now[p] == HostDirectory
  }

  ghost predicate Same(before: Files, now: Files, p: Path) {
    (p in before <==> p in now) && (p in before ==> before[p] == now[p])
  }

  // ---------- what the run may rely on ----------

  /** If the host path was uploaded, it has not been touched on the host since, and the container's
      entry is what writes with an honest clock made of it. */
  ghost predicate HonestHistory(t: Tool, fs: Files, h: Path, entry: ContainerEntry) {
    h in t.stats ==>
      && Exists(fs, h)
      && (entry.ContainerFile? ==> exists content, landed, writes :: History(t.stats[h], fs, h, entry, content, landed, writes))
  }

  /** For a file the size goes with the content; what was a directory has written over it. */
  ghost predicate History(up: UploadStat, fs: Files, h: Path, entry: ContainerEntry, content: Data, landed: real,
                          writes: seq<Write>)
  {
    && HonestClock(up, landed, writes) && entry == Written(content, landed, writes)
    && (writes == [] ==> h in fs && fs[h] == HostFile(content))
  }

  ghost predicate Leaves(all: set<Path>) {
    forall c, d :: c in all && d in all ==> c !in Parents(d)
  }

  /** The candidates lie in the working directory and are no directories on the way to one another. */
  ghost predicate InPlace(workDir: string, all: set<Path>) {
    (forall c :: c in all ==> Placed(workDir, c)) && Leaves(all)
  }

  ghost predicate Injective(digest: Digest) {
    forall a, b :: digest(a) == digest(b) ==> a == b
  }

  predicate Skipped(t: Tool, c: Path, entry: ContainerEntry) {
    CheckIfModified(t.stats, Local(t.workDir, c), entry).Unmodified?
  }

  /** The candidate is fetched next to the host file it replaces. */
  predicate UsesScratch(t: Tool, fs: Files, c: Path, entry: ContainerEntry) {
    entry.ContainerFile? && Local(t.workDir, c) in fs && !Skipped(t, c, entry)
  }

  /** Nothing stands where the scratch file goes, and no other candidate goes there. */
  ghost predicate ScratchIsFree(t: Tool, all: set<Path>, fs: Files, c: Path) {
    var temp := Local(t.workDir, c) + TEMP_SUFFIX;
    && temp !in fs
    && forall d :: d in all && t.container.entry(d).Some? ==>
         temp != Local(t.workDir, d) && temp !in Ancestors(Local(t.workDir, d))
  }

  /** Nothing is asked of the places where the candidates go: a host with obstructions is prepared. */
  ghost predicate Prepared(t: Tool, all: set<Path>, fs: Files) {
    && HonestArchives(t.container) && Injective(t.digest)
    && forall c :: c in all && t.container.entry(c).Some? ==>
         var entry := t.container.entry(c).value;
         && (Skipped(t, c, entry) ==> Agrees(fs, Local(t.workDir, c), entry))
         && (UsesScratch(t, fs, c, entry) ==> ScratchIsFree(t, all, fs, c))
  }

  // ---------- one file ----------

  /** What fetching changes: the path itself, and directories on the way that were missing. */
  ghost predicate OnlyAt(before: Files, now: Files, h: Path) {
    forall p :: p != h ==> Same(before, now, p) || NewOnTheWay(before, now, h, p)
  }

  ghost predicate NewOnTheWay(before: Files, now: Files, h: Path, p: Path) {
    p in Ancestors(h) && NewDirectory(before, now, p)
  }

  /** What a fetch may leave that failed: directories on the way and a scratch file. */
  ghost predicate OnlyScratch(before: Files, now: Files, h: Path) {
    forall p :: p != h + TEMP_SUFFIX ==> Same(before, now, p) || NewOnTheWay(before, now, h, p)
  }

  /** No file stands where a directory is needed; what stands where a file goes is a file, and no
      directory has its scratch name. */
  ghost predicate Clear(fs: Files, h: Path, entry: ContainerEntry) {
    if entry.ContainerFile? then
      && Named(h) && NoFiles(fs, Ancestors(h))
      && (h in fs ==> fs[h].HostFile? && (h + "_TEMP" in fs ==> fs[h + "_TEMP"].HostFile?))
    else !Named(h) || h in fs || NoFiles(fs, WithAncestors(h))
  }

  ghost predicate NoFiles(fs: Files, dirs: set<Path>) {
    forall a :: a in dirs && a in fs ==> fs[a] == HostDirectory
  }

  ghost predicate AllDirectories(fs: Files, dirs: set<Path>) {
    forall a :: a in dirs ==> a in fs && fs[a] == HostDirectory
  }

  /** The host with the file, the directories on the way and no scratch file. */
  function Fetched(fs: Files, h: Path, content: Data): Files {
    var dirs := WithDirs(fs, Parent(h));
    dirs[h := HostFile(content)] - if h in fs then {h + TEMP_SUFFIX} else {}
  }

  /** When a file is fetched, and what the host then is, in all branches. */
  lemma FetchedFile(fs: Files, h: Path, content: Data, mtime: real, modified: bool, digest: Digest)
    requires Injective(digest)
    ensures var (now, ok) := FetchFile(fs, h, content, modified, digest);
      && (ok <==> Clear(fs, h, ContainerFile(content, mtime)))
      && (ok ==> now == Fetched(fs, h, content) && AllDirectories(now, Ancestors(h)) && h in now && now[h] == HostFile(content))
  {
    AncestorsStep(h);
    var temp := h + TEMP_SUFFIX;
    var dirs := WithDirs(fs, Parent(h));
    AncestorsAreShorter(h);
    assert (temp in dirs <==> temp in fs) && temp != h;
    assert h in dirs <==> h in fs;
    if IsFile(fs, h) {
      var both := dirs[temp := HostFile(content)];
      assert (both - {h})[h := both[temp]] - {temp} == dirs[h := HostFile(content)] - {temp};
      if fs[h] == HostFile(content) {
        assert both - {temp} == dirs[h := HostFile(content)] - {temp};
      }
    }
  }

  /** The same for a directory: what is there stays, what is not is made, with the way to it. */
  lemma FetchedDirectory(fs: Files, h: Path, mtime: real)
    ensures var (now, ok) := FetchDirectory(fs, h);
      && (ok <==> Clear(fs, h, ContainerDirectory(mtime)))
      && (ok && Named(h) && h !in fs ==> AllDirectories(now, WithAncestors(h)))
      && (forall p :: p !in WithAncestors(h) || p in fs ==> Same(fs, now, p))
  {
  }

  lemma FailedFetch(fs: Files, h: Path, content: Data, modified: bool, digest: Digest)
    requires !FetchFile(fs, h, content, modified, digest).1
    ensures OnlyScratch(fs, FetchFile(fs, h, content, modified, digest).0, h)
  {
    AncestorsStep(h);
  }

  lemma AncestorsAreShorter(h: Path)
    ensures forall a :: a in Ancestors(h) ==> |a| < |h|
  {
    forall a | a in Ancestors(h) ensures |a| < |h| {
      ParentsAreHigher(a, h);
    }
  }

  /** A fetch changes nothing but the path and the way to it, unless there was a file to replace
      and something of the scratch name, which is then lost. */
  lemma ScratchFileIsLost(fs: Files, h: Path, content: Data, modified: bool, digest: Digest)
    requires Injective(digest) && FetchFile(fs, h, content, modified, digest).1
    ensures var now := FetchFile(fs, h, content, modified, digest).0;
      && (OnlyAt(fs, now, h) <==> !(h in fs && h + TEMP_SUFFIX in fs))
      && (h in fs ==> h + TEMP_SUFFIX !in now)
  {
    AncestorsStep(h);
    AncestorsAreShorter(h);
    FetchedFile(fs, h, content, 0.0, modified, digest);
    var now, temp := FetchFile(fs, h, content, modified, digest).0, h + TEMP_SUFFIX;
    forall p | p != h && (p != temp || h !in fs || p !in fs) ensures Same(fs, now, p) || NewOnTheWay(fs, now, h, p) {
    }
    assert temp != h && !NewOnTheWay(fs, now, h, temp);
  }

  lemma OnlyAtForFile(before: Files, now: Files, h: Path, entry: ContainerEntry)
    requires OnlyAt(before, now, h) && entry.ContainerFile?
    ensures OnlyFor(before, now, h, entry)
  {
    forall p | p != h ensures Same(before, now, p) || (p in WithAncestors(h) && NewDirectory(before, now, p)) {
      assert Same(before, now, p) || NewOnTheWay(before, now, h, p);
    }
  }

  /** What bringing a candidate home changes: the path of a file, new directories, nothing else. */
  ghost predicate OnlyFor(before: Files, now: Files, h: Path, entry: ContainerEntry) {
    forall p :: (p == h && entry.ContainerFile?) || Same(before, now, p) || (p in WithAncestors(h) && NewDirectory(before, now, p))
  }

  /** A fetch succeeds if the way is clear; the host then agrees, and nothing else changes. */
  lemma FetchAgrees(t: Tool, h: Path, entry: ContainerEntry, fs: Files)
    requires Injective(t.digest) && (entry.ContainerFile? && h in fs ==> h + TEMP_SUFFIX !in fs)
    ensures var (now, ok) := Fetch(t, h, entry, fs);
      && (ok <==> Clear(fs, h, entry))
      && (ok ==> Agrees(now, h, entry) && OnlyFor(fs, now, h, entry))
      && (!ok ==> OnlyScratch(fs, now, h))
  {
    AncestorsStep(h);
    if entry.ContainerFile? {
      var modified := CheckIfModified(t.stats, h, entry).Modified?;
      FetchedFile(fs, h, entry.content, entry.mtime, modified, t.digest);
      if FetchFile(fs, h, entry.content, modified, t.digest).1 {
        ScratchFileIsLost(fs, h, entry.content, modified, t.digest);
        OnlyAtForFile(fs, FetchFile(fs, h, entry.content, modified, t.digest).0, h, entry);
      } else {
        FailedFetch(fs, h, entry.content, modified, t.digest);
      }
    }
  }

  /** "Unmodified" needs no fetch. */
  lemma UnmodifiedAgrees(t: Tool, h: Path, entry: ContainerEntry, fs: Files)
    requires HonestHistory(t, fs, h, entry) && CheckIfModified(t.stats, h, entry).Unmodified?
    ensures Agrees(fs, h, entry)
  {
    if entry.ContainerFile? {
      var content, landed, writes :| History(t.stats[h], fs, h, entry, content, landed, writes);
      UnmodifiedExactly(t.stats, h, content, landed, writes);
    }
  }

  // ---------- the whole run ----------

  /** What a member adds to the log: nothing if it is unmodified, else its path and digest. */
  function LogOf(t: Tool, handled: seq<Path>): seq<FileLog> {
    if handled == [] then []
    else
      var c := handled[|handled| - 1];
      var host, entry := HostPath(t.workDir, c), t.container.entry(c);
      LogOf(t, handled[..|handled| - 1]) +
      if host.None? || entry.None? || CheckIfModified(t.stats, host.value, entry.value).Unmodified? then []
      else [FileLog(t.resolve(host.value), EntryDigest(t, entry.value))]
  }

  ghost predicate Touched(t: Tool, r: Run, p: Path) {
    exists c :: c in r.handled && Local(t.workDir, c) == p
  }

  /** The candidate is a file that is fetched. */
  ghost predicate Brings(t: Tool, c: Path) {
    t.container.entry(c).Some? && t.container.entry(c).value.ContainerFile? && !Skipped(t, c, t.container.entry(c).value)
  }

  ghost predicate Brought(t: Tool, r: Run, p: Path) {
    exists c :: c in r.handled && Local(t.workDir, c) == p && Brings(t, c)
  }

  ghost predicate OnTheWay(t: Tool, r: Run, p: Path) {
    exists c :: c in r.handled && p in Ancestors(Local(t.workDir, c))
  }

  /** A new directory, of a candidate or on the way to one. */
  ghost predicate MadeOnTheWay(t: Tool, before: Files, r: Run, p: Path) {
    (OnTheWay(t, r, p) || Touched(t, r, p)) && NewDirectory(before, r.fs, p)
  }

  /** Only paths of fetched files change otherwise: where a directory was brought home, what was
      there before is still there. */
  ghost predicate OthersAsBefore(t: Tool, before: Files, r: Run) {
    forall p :: Brought(t, r, p) || Same(before, r.fs, p) || MadeOnTheWay(t, before, r, p)
  }

  /** The state of the host relative to how it was: handled candidates agree with the container,
      every other path is as before, but for directories made on the way. */
  ghost predicate Reconciled(t: Tool, all: set<Path>, before: Files, r: Run) {
    && r.ok
    && (forall c :: c in r.handled ==> c in all && c !in r.todo && t.container.entry(c).Some?)
    && (forall c :: c in r.handled && t.container.entry(c).Some? ==>
          Agrees(r.fs, Local(t.workDir, c), t.container.entry(c).value))
    && OthersAsBefore(t, before, r)
    && r.log == LogOf(t, r.handled)
  }

  /** A candidate above another on the host is above it in the container. */
  lemma LocalLeaves(workDir: string, c: Path, d: Path)
    requires Placed(workDir, c) && Placed(workDir, d) && Local(workDir, c) in Parents(Local(workDir, d))
    ensures c in Parents(d)
  {
    var a, b := Local(workDir, c), Local(workDir, d);
    ParentIsPrefix(a, b);
    assert c == workDir + a && d == workDir + b;
    assert c + "/" == workDir + (a + "/");
    assert |c| >= 2;
    ParentIsPrefix(c, d);
  }

  /** Before a candidate is handled, nothing the run has done stands in its way. */
  lemma StillAsClear(t: Tool, all: set<Path>, before: Files, r: Run, c: Path, entry: ContainerEntry)
    requires Prepared(t, all, before) && InPlace(t.workDir, all) && Reconciled(t, all, before, r)
    requires c in all && c in r.todo && t.container.entry(c) == Some(entry)
    ensures var h := Local(t.workDir, c);
      && Same(before, r.fs, h)
      && (UsesScratch(t, before, c, entry) ==> h + TEMP_SUFFIX !in before && h + TEMP_SUFFIX !in r.fs)
      && (!Skipped(t, c, entry) ==> (Clear(before, h, entry) <==> Clear(r.fs, h, entry)))
  {
    var h := Local(t.workDir, c);
    PlaceAsBefore(t, all, before, r, c);
    AncestorsStep(h);
    forall a | a in Ancestors(h) ensures IsFile(r.fs, a) <==> IsFile(before, a) {
      WayAsBefore(t, all, before, r, c, a);
    }
    if UsesScratch(t, before, c, entry) {
      ScratchAsBefore(t, all, before, r, c);
    }
  }

  lemma PlaceAsBefore(t: Tool, all: set<Path>, before: Files, r: Run, c: Path)
    requires Prepared(t, all, before) && InPlace(t.workDir, all) && Reconciled(t, all, before, r)
    requires c in all && c in r.todo
    ensures Same(before, r.fs, Local(t.workDir, c))
  {
    var h := Local(t.workDir, c);
    NotTouched(t, all, before, r, c, h);
    if OnTheWay(t, r, h) {
      var d :| d in r.handled && h in Ancestors(Local(t.workDir, d));
      LocalLeaves(t.workDir, c, d);
      assert false;
    }
  }

  lemma WayAsBefore(t: Tool, all: set<Path>, before: Files, r: Run, c: Path, a: Path)
    requires Prepared(t, all, before) && InPlace(t.workDir, all) && Reconciled(t, all, before, r)
    requires c in all && c in r.todo && a in Ancestors(Local(t.workDir, c))
    ensures IsFile(r.fs, a) <==> IsFile(before, a)
  {
    WayIsNotTouched(t, all, r, c, a);
    assert Brought(t, r, a) || Same(before, r.fs, a) || MadeOnTheWay(t, before, r, a);
  }

  lemma WayIsNotTouched(t: Tool, all: set<Path>, r: Run, c: Path, a: Path)
    requires InPlace(t.workDir, all) && forall d :: d in r.handled ==> d in all
    requires c in all && a in Ancestors(Local(t.workDir, c))
    ensures !Touched(t, r, a)
  {
    if d :| d in r.handled && Local(t.workDir, d) == a {
      LocalLeaves(t.workDir, d, c);
    }
  }

  lemma ScratchAsBefore(t: Tool, all: set<Path>, before: Files, r: Run, c: Path)
    requires Prepared(t, all, before) && InPlace(t.workDir, all) && Reconciled(t, all, before, r)
    requires c in all && ScratchIsFree(t, all, before, c)
    ensures Local(t.workDir, c) + TEMP_SUFFIX !in r.fs
  {
    var temp := Local(t.workDir, c) + TEMP_SUFFIX;
    assert !Touched(t, r, temp) && !OnTheWay(t, r, temp);
    assert Brought(t, r, temp) || Same(before, r.fs, temp) || MadeOnTheWay(t, before, r, temp);
  }

  lemma LocalIsInjective(workDir: string, c: Path, d: Path)
    requires Placed(workDir, c) && Placed(workDir, d) && Local(workDir, c) == Local(workDir, d)
    ensures c == d
  {
    assert c == workDir + Local(workDir, c) && d == workDir + Local(workDir, d);
  }

  lemma NotTouched(t: Tool, all: set<Path>, before: Files, r: Run, c: Path, h: Path)
    requires Prepared(t, all, before) && InPlace(t.workDir, all) && Reconciled(t, all, before, r)
    requires c in all && c in r.todo && h == Local(t.workDir, c)
    ensures !Touched(t, r, h)
  {
    if d :| d in r.handled && Local(t.workDir, d) == h {
      LocalIsInjective(t.workDir, c, d);
    }
  }

  /** Nothing on the host keeps the candidate from being brought home. */
  ghost predicate Fetchable(t: Tool, before: Files, c: Path) {
    t.container.entry(c).Some? ==>
      var entry := t.container.entry(c).value;
      Skipped(t, c, entry) || Clear(before, Local(t.workDir, c), entry)
  }

  /** An exception ended the run at `c`: until then all went well, and of `c` the host has at most
      directories on the way and a scratch file. */
  ghost predicate StoppedAt(t: Tool, all: set<Path>, before: Files, q: Run, c: Path, r: Run) {
    && Reconciled(t, all, before, q) && (forall d :: d in q.handled ==> Fetchable(t, before, d))
    && c in all && c in q.todo && !Fetchable(t, before, c)
    && r == Run(q.todo - {c}, q.handled + [c], r.fs, q.log, false)
    && (t.container.entry(c).Some? ==> Fetch(t, Local(t.workDir, c), t.container.entry(c).value, q.fs) == (r.fs, false))
    && OnlyScratch(q.fs, r.fs, Local(t.workDir, c))
  }

  /** All went well, or it stopped at the first candidate in whose way something stood. */
  ghost predicate Outcome(t: Tool, all: set<Path>, before: Files, r: Run) {
    if r.ok then Reconciled(t, all, before, r) && forall c :: c in r.handled ==> Fetchable(t, before, c)
    else exists q, c :: StoppedAt(t, all, before, q, c, r)
  }

  /** The candidates that a download may come to. */
  ghost function Wanted(t: Tool, candidates: set<Path>, filePaths: seq<string>, implicitOutput: bool): set<Path> {
    set c | c in candidates && Asked(t, filePaths, implicitOutput, c)
  }

  ghost predicate Sound(t: Tool, candidates: set<Path>, all: set<Path>, before: Files, r: Run) {
    r.todo <= candidates && Outcome(t, all, before, r)
  }

  lemma SoundIsKept(t: Tool, candidates: seq<Path>, filePaths: seq<string>, implicitOutput: bool, all: set<Path>, before: Files)
    requires all == Wanted(t, Elements(candidates), filePaths, implicitOutput)
    requires Prepared(t, all, before) && InPlace(t.workDir, all)
    ensures Keeps(t, Bases(t, candidates, filePaths, implicitOutput), r => Sound(t, Elements(candidates), all, before, r))
  {
    var bases := Bases(t, candidates, filePaths, implicitOutput);
    forall name, entry, r | Given(t, bases, name, entry) && Sound(t, Elements(candidates), all, before, r)
      ensures Sound(t, Elements(candidates), all, before, Process(t, name, entry, r))
    {
      GivenIsThere(t, bases, name, entry);
      GivenIsAsked(t, candidates, filePaths, implicitOutput, name, entry);
      Takes(t, name, entry, r);
      if r.ok && name in r.todo {
        ProcessReconciles(t, all, before, r, name, entry);
      }
    }
  }

  lemma ProcessReconciles(t: Tool, all: set<Path>, before: Files, r: Run, name: Path, entry: ContainerEntry)
    requires Prepared(t, all, before) && InPlace(t.workDir, all) && r.ok && Outcome(t, all, before, r)
    requires name in all && name in r.todo && t.container.entry(name) == Some(entry)
    ensures Outcome(t, all, before, Process(t, name, entry, r))
  {
    var h := Local(t.workDir, name);
    assert HostPath(t.workDir, name) == Some(h);
    StillAsClear(t, all, before, r, name, entry);
    var now := Process(t, name, entry, r);
    if !Skipped(t, name, entry) {
      FetchAgrees(t, h, entry, r.fs);
    }
    if now.ok {
      NotTouched(t, all, before, r, name, h);
      assert now.handled[..|r.handled|] == r.handled;
      OneMoreReconciled(t, all, before, r, now, name);
    } else {
      assert StoppedAt(t, all, before, r, name, now);
    }
  }

  /** What handling a candidate does to the host. */
  ghost predicate Effect(t: Tool, before: Files, now: Files, c: Path) {
    var h := Local(t.workDir, c);
    forall p :: (p == h && Brings(t, c)) || Same(before, now, p) || (p in WithAncestors(h) && NewDirectory(before, now, p))
  }

  lemma OneMoreReconciled(t: Tool, all: set<Path>, before: Files, r: Run, now: Run, c: Path)
    requires Reconciled(t, all, before, r) && c in all && c in r.todo && t.container.entry(c).Some?
    requires HostPath(t.workDir, c) == Some(Local(t.workDir, c)) && !Touched(t, r, Local(t.workDir, c))
    requires now.ok && now.todo == r.todo - {c} && now.handled == r.handled + [c]
    requires now.log == LogOf(t, now.handled)
    requires Agrees(now.fs, Local(t.workDir, c), t.container.entry(c).value)
    requires Effect(t, r.fs, now.fs, c)
    ensures Reconciled(t, all, before, now)
  {
    var h := Local(t.workDir, c);
    assert forall d :: d in now.handled ==> d == c || d in r.handled;
    forall d | d in now.handled && t.container.entry(d).Some?
      ensures Agrees(now.fs, Local(t.workDir, d), t.container.entry(d).value)
    {
      if d in r.handled {
        StillAgrees(t, r.fs, now.fs, c, Local(t.workDir, d), t.container.entry(d).value);
      }
    }
    OtherPathsAsBefore(t, before, r, now, c);
  }

  lemma StillAgrees(t: Tool, before: Files, now: Files, c: Path, p: Path, entry: ContainerEntry)
    requires Agrees(before, p, entry) && Effect(t, before, now, c) && p != Local(t.workDir, c)
    ensures Agrees(now, p, entry)
  {
    assert Same(before, now, p) || NewDirectory(before, now, p);
  }

  lemma OtherPathsAsBefore(t: Tool, before: Files, r: Run, now: Run, c: Path)
    requires now.handled == r.handled + [c] && Effect(t, r.fs, now.fs, c)
    requires OthersAsBefore(t, before, r)
    ensures OthersAsBefore(t, before, now)
  {
    forall p ensures Brought(t, now, p) || Same(before, now.fs, p) || MadeOnTheWay(t, before, now, p) {
      TouchedMore(t, r, now, c, p);
      assert Brought(t, r, p) || Same(before, r.fs, p) || MadeOnTheWay(t, before, r, p);
      assert (p == Local(t.workDir, c) && Brings(t, c)) || Same(r.fs, now.fs, p)
        || (p in WithAncestors(Local(t.workDir, c)) && NewDirectory(r.fs, now.fs, p));
    }
  }

  lemma TouchedMore(t: Tool, r: Run, now: Run, c: Path, p: Path)
    requires now.handled == r.handled + [c]
    ensures Touched(t, now, p) <==> Touched(t, r, p) || p == Local(t.workDir, c)
    ensures Brought(t, now, p) <==> Brought(t, r, p) || (p == Local(t.workDir, c) && Brings(t, c))
    ensures OnTheWay(t, now, p) <==> OnTheWay(t, r, p) || p in Ancestors(Local(t.workDir, c))
  {
    assert c in now.handled;
    assert forall d :: d in now.handled <==> d in r.handled || d == c;
  }

  /** Whatever stands in the way on the host: either no exception is raised and the host agrees
      with the container on every handled candidate, every other path is as it was, except
      directories on the way, the scratch files are gone, and the log lists what was not
      recognised as unmodified, with the digests of the container's files; or it stops at the
      first candidate that cannot be brought home, with all that for those before it. */
  lemma HostAgreesWithContainer(t: Tool, candidates: seq<Path>, filePaths: seq<string>, implicitOutput: bool, fs: Files,
                                all: set<Path>)
    requires all == Wanted(t, Elements(candidates), filePaths, implicitOutput)
    requires Prepared(t, all, fs) && InPlace(t.workDir, all)
    ensures var r := DownloadAll(t, candidates, filePaths, implicitOutput, fs);
      && Outcome(t, all, fs, r)
      && (r.ok ==> forall c :: c in r.handled && UsesScratch(t, fs, c, t.container.entry(c).value) ==>
            Local(t.workDir, c) + TEMP_SUFFIX !in r.fs)
  {
    SoundIsKept(t, candidates, filePaths, implicitOutput, all, fs);
    assert Reconciled(t, all, fs, Run(Elements(candidates), [], fs, [], true));
    AllKeeps(t, r => Sound(t, Elements(candidates), all, fs, r), candidates, filePaths, implicitOutput, fs);
    var r := DownloadAll(t, candidates, filePaths, implicitOutput, fs);
    forall c | r.ok && c in r.handled && UsesScratch(t, fs, c, t.container.entry(c).value)
      ensures Local(t.workDir, c) + TEMP_SUFFIX !in r.fs
    {
      ScratchAsBefore(t, all, fs, r, c);
    }
  }

  /** No exception is raised exactly if nothing is in the way of any candidate that the container has,
      or, without implicit output, that is in an archive of the explicit paths. */
  lemma OkExactly(t: Tool, candidates: seq<Path>, filePaths: seq<string>, implicitOutput: bool, fs: Files, all: set<Path>)
    requires all == Wanted(t, Elements(candidates), filePaths, implicitOutput)
    requires Prepared(t, all, fs) && InPlace(t.workDir, all)
    requires implicitOutput ==> forall c :: c in candidates ==> Normal(c)
    ensures DownloadAll(t, candidates, filePaths, implicitOutput, fs).ok <==> forall c :: c in all ==> Fetchable(t, fs, c)
  {
    var r := DownloadAll(t, candidates, filePaths, implicitOutput, fs);
    HostAgreesWithContainer(t, candidates, filePaths, implicitOutput, fs, all);
    if r.ok {
      LeftExactly(t, candidates, filePaths, implicitOutput, fs);
      Accounting(t, candidates, filePaths, implicitOutput, fs);
    }
  }

  // ---------- an example ----------

  /** The container has, and gives, one file only. */
  ghost predicate HasOneFile(box: Container, c: Path, name: string, entry: ContainerEntry) {
    && (forall p :: box.entry(p) == if p == c then Some(entry) else None)
    && (forall p :: box.archive(p) == if p == c then Some([Member(name, entry)]) else None)
  }

  lemma OneFileArchives(box: Container, c: Path, name: string, entry: ContainerEntry)
    requires HasOneFile(box, c, name, entry) && FullName(c, name) == c
    ensures HonestArchives(box)
  {
    forall p | box.entry(p).Some?
      ensures box.archive(p).Some? && exists i :: 0 <= i < |box.archive(p).value| && FullName(p, box.archive(p).value[i].name) == p
    {
      assert p == c && box.archive(c).value[0] == Member(name, entry);
    }
  }

  /** A plain name in a working directory. */
  ghost predicate Plain(workDir: string, name: string) {
    && workDir != "" && workDir[|workDir| - 1] == '/' && IsName(name) && '/' !in name
    && Normal(workDir + name) && FullName(workDir + name, name) == workDir + name
  }

  lemma PlainName(workDir: string, name: string)
    requires Plain(workDir, name)
    ensures var c := workDir + name; Placed(workDir, c) && Local(workDir, c) == name && c !in Parents(c)
    ensures Ancestors(name) == {} && Parent(name) == "."
  {
    var c := workDir + name;
    assert name[0] == c[|workDir|];
    assert Parent(name) == ".";
    AncestorsStep(name);
    if c in Parents(c) {
      ParentsAreHigher(c, c);
    }
  }

  /** One file was uploaded and then perhaps written in the container. */
  ghost predicate UploadedAndWritten(t: Tool, name: string, content: Data, landed: real, writes: seq<Write>, fs: Files) {
    && Plain(t.workDir, name) && HasOneFile(t.container, t.workDir + name, name, Written(content, landed, writes))
    && name in t.stats && HonestClock(t.stats[name], landed, writes)
    && name in fs && fs[name] == HostFile(content) && name + TEMP_SUFFIX !in fs
  }

  /** Then what is required of a download is met. */
  lemma OneFileIsPrepared(t: Tool, name: string, content: Data, landed: real, writes: seq<Write>, fs: Files)
    requires Injective(t.digest) && UploadedAndWritten(t, name, content, landed, writes, fs)
    ensures var c := t.workDir + name; Prepared(t, {c}, fs) && InPlace(t.workDir, {c}) && Fetchable(t, fs, c)
  {
    var c, entry := t.workDir + name, Written(content, landed, writes);
    PlainName(t.workDir, name);
    OneFileArchives(t.container, c, name, entry);
    assert History(t.stats[name], fs, name, entry, content, landed, writes);
    if Skipped(t, c, entry) {
      UnmodifiedAgrees(t, name, entry, fs);
    }
    ScratchOfOne(t, fs, c);
    FreeAtTheTop(fs, name, entry);
  }

  lemma ScratchOfOne(t: Tool, fs: Files, c: Path)
    requires Local(t.workDir, c) + TEMP_SUFFIX !in fs && Ancestors(Local(t.workDir, c)) == {}
    ensures ScratchIsFree(t, {c}, fs, c)
  {
  }

  lemma FreeAtTheTop(fs: Files, name: Path, entry: ContainerEntry)
    requires Parent(name) == "." && IsFile(fs, name) && name + TEMP_SUFFIX !in fs
    ensures Clear(fs, name, entry)
  {
    AncestorsStep(name);
  }

  /** And the last write comes home, and nothing else on the host changes. */
  lemma OneFileComesHome(t: Tool, name: string, content: Data, landed: real, writes: seq<Write>, fs: Files,
                         filePaths: seq<string>)
    requires Injective(t.digest) && UploadedAndWritten(t, name, content, landed, writes, fs)
    ensures var r := DownloadAll(t, [t.workDir + name], filePaths, true, fs);
      r.ok && r.todo == {} && r.fs == fs[name := HostFile(Written(content, landed, writes).content)]
  {
    var c := t.workDir + name;
    OneFileIsPrepared(t, name, content, landed, writes, fs);
    PlainName(t.workDir, name);
    OneIsWanted(t, c, filePaths);
    OneCandidate(t, c, Written(content, landed, writes), filePaths, true, fs);
  }

  /** Also when nothing but its name is asked for, as it is called in the working directory. */
  lemma OneExplicitFileComesHome(t: Tool, name: string, content: Data, landed: real, writes: seq<Write>, fs: Files)
    requires Injective(t.digest) && UploadedAndWritten(t, name, content, landed, writes, fs) && !("/" <= name)
    ensures var r := DownloadAll(t, [t.workDir + name], [name], false, fs);
      r.ok && r.todo == {} && r.fs == fs[name := HostFile(Written(content, landed, writes).content)]
  {
    var c := t.workDir + name;
    OneFileIsPrepared(t, name, content, landed, writes, fs);
    PlainName(t.workDir, name);
    OneIsAskedFor(t, name, Written(content, landed, writes));
    OneCandidate(t, c, Written(content, landed, writes), [name], false, fs);
  }

  lemma OneIsAskedFor(t: Tool, name: string, entry: ContainerEntry)
    requires Plain(t.workDir, name) && HasOneFile(t.container, t.workDir + name, name, entry) && !("/" <= name)
    ensures Wanted(t, Elements([t.workDir + name]), [name], false) == {t.workDir + name}
  {
    var c := t.workDir + name;
    assert Elements([c]) == {c};
    assert ExplicitPaths(t.workDir, [name]) == [c];
    assert Holds(t, c, Member(name, entry));
    assert c in [c];
    assert InSome(t, [c], c);
  }

  lemma OneIsWanted(t: Tool, c: Path, filePaths: seq<string>)
    requires t.container.entry(c).Some?
    ensures Wanted(t, Elements([c]), filePaths, true) == {c}
  {
    assert Elements([c]) == {c};
  }

  lemma OneCandidate(t: Tool, c: Path, entry: ContainerEntry, filePaths: seq<string>, implicitOutput: bool, fs: Files)
    requires Wanted(t, Elements([c]), filePaths, implicitOutput) == {c}
    requires Prepared(t, {c}, fs) && InPlace(t.workDir, {c}) && Fetchable(t, fs, c) && Normal(c)
    requires entry.ContainerFile? && t.container.entry(c) == Some(entry) && Ancestors(Local(t.workDir, c)) == {}
    ensures var r := DownloadAll(t, [c], filePaths, implicitOutput, fs);
      r.ok && r.todo == {} && r.fs == fs[Local(t.workDir, c) := HostFile(entry.content)]
  {
    OkExactly(t, [c], filePaths, implicitOutput, fs, {c});
    HostAgreesWithContainer(t, [c], filePaths, implicitOutput, fs, {c});
    OneIsHandled(t, c, filePaths, implicitOutput, fs);
    OnlyOneFile(t, DownloadAll(t, [c], filePaths, implicitOutput, fs), fs, c, entry);
  }

  lemma OneIsHandled(t: Tool, c: Path, filePaths: seq<string>, implicitOutput: bool, fs: Files)
    requires HonestArchives(t.container) && Normal(c) && Wanted(t, Elements([c]), filePaths, implicitOutput) == {c}
    requires DownloadAll(t, [c], filePaths, implicitOutput, fs).ok
    ensures var r := DownloadAll(t, [c], filePaths, implicitOutput, fs); r.todo == {} && c in r.handled
  {
    LeftExactly(t, [c], filePaths, implicitOutput, fs);
    Accounting(t, [c], filePaths, implicitOutput, fs);
    assert c in Elements([c]);
    assert forall d :: d in Elements([c]) && Asked(t, filePaths, implicitOutput, d) <==> d in {c};
  }

  lemma OnlyOneFile(t: Tool, r: Run, fs: Files, c: Path, entry: ContainerEntry)
    requires entry.ContainerFile? && t.container.entry(c) == Some(entry) && Ancestors(Local(t.workDir, c)) == {}
    requires Reconciled(t, {c}, fs, r) && c in r.handled
    ensures r.fs == fs[Local(t.workDir, c) := HostFile(entry.content)]
  {
    forall p ensures p == Local(t.workDir, c) || Same(fs, r.fs, p) {
      assert Brought(t, r, p) || Same(fs, r.fs, p) || MadeOnTheWay(t, fs, r, p);
    }
    var now := fs[Local(t.workDir, c) := HostFile(entry.content)];
    forall p ensures (p in r.fs <==> p in now) && (p in now ==> r.fs[p] == now[p]) {
      assert p == Local(t.workDir, c) || Same(fs, r.fs, p);
    }
  }

  /** If a directory stands where the file goes, the download fails and leaves the scratch file. */
  lemma OneFileIsBlocked(t: Tool, name: string, entry: ContainerEntry, fs: Files, filePaths: seq<string>)
    requires Injective(t.digest) && Plain(t.workDir, name) && entry.ContainerFile? && name !in t.stats
    requires HasOneFile(t.container, t.workDir + name, name, entry)
    requires name in fs && fs[name] == HostDirectory && name + TEMP_SUFFIX !in fs
    ensures var r := DownloadAll(t, [t.workDir + name], filePaths, true, fs);
      !r.ok && r.fs == fs[name + "_TEMP" := HostFile(entry.content)]
  {
    var c := t.workDir + name;
    PlainName(t.workDir, name);
    BlockedIsPrepared(t, name, entry, fs);
    OneIsWanted(t, c, filePaths);
    OkExactly(t, [c], filePaths, true, fs, {c});
    HostAgreesWithContainer(t, [c], filePaths, true, fs, {c});
    StoppedAtOnce(t, c, fs, DownloadAll(t, [c], filePaths, true, fs));
    BlockedFetch(t, name, entry, fs);
  }

  lemma BlockedIsPrepared(t: Tool, name: string, entry: ContainerEntry, fs: Files)
    requires Injective(t.digest) && Plain(t.workDir, name) && entry.ContainerFile? && name !in t.stats
    requires HasOneFile(t.container, t.workDir + name, name, entry)
    requires name in fs && fs[name] == HostDirectory && name + TEMP_SUFFIX !in fs
    ensures var c := t.workDir + name; Prepared(t, {c}, fs) && InPlace(t.workDir, {c}) && !Fetchable(t, fs, c)
  {
    var c := t.workDir + name;
    PlainName(t.workDir, name);
    OneFileArchives(t.container, c, name, entry);
    ScratchOfOne(t, fs, c);
  }

  lemma StoppedAtOnce(t: Tool, c: Path, fs: Files, r: Run)
    requires !r.ok && Outcome(t, {c}, fs, r) && t.container.entry(c).Some?
    ensures Fetch(t, Local(t.workDir, c), t.container.entry(c).value, fs) == (r.fs, false)
  {
    var q, d :| StoppedAt(t, {c}, fs, q, d, r);
    assert forall p :: p !in q.handled;
    UntouchedIsSame(t, fs, q);
  }

  lemma UntouchedIsSame(t: Tool, fs: Files, q: Run)
    requires OthersAsBefore(t, fs, q) && forall p :: p !in q.handled
    ensures q.fs == fs
  {
    forall p ensures (p in fs <==> p in q.fs) && (p in fs ==> fs[p] == q.fs[p]) {
      assert Brought(t, q, p) || Same(fs, q.fs, p) || MadeOnTheWay(t, fs, q, p);
    }
  }

  lemma BlockedFetch(t: Tool, name: Path, entry: ContainerEntry, fs: Files)
    requires entry.ContainerFile? && Parent(name) == "." && name in fs && fs[name] == HostDirectory && name + TEMP_SUFFIX !in fs
    ensures Fetch(t, name, entry, fs) == (fs[name + TEMP_SUFFIX := HostFile(entry.content)], false)
  {
    assert WithDirs(fs, ".") == fs;
    assert Named(name + TEMP_SUFFIX);
  }

  // ---------- from the container's changes to the host ----------

  /** Normal paths that the filters let through are properly inside the working directory and no
      directories on the way to one another. */
  lemma ChosenAreInPlace(candidates: seq<Path>, filters: seq<Matching.FileMatcher>, noDefaults: bool, lines: seq<string>,
                         workDir: string, chosen: set<Path>)
    requires Listable(workDir, candidates)
    requires forall c :: c in chosen ==> OutputFilters.Chosen(candidates, filters, noDefaults, lines, workDir, c)
    ensures InPlace(workDir, chosen)
  {
    forall c | c in chosen ensures Placed(workDir, c) {
      assert c == workDir + Local(workDir, c);
      TailIsNormal(workDir, Local(workDir, c));
      AllNamesIsNormal(Local(workDir, c));
    }
  }

  /** The working directory ends with a slash, and the changes are normal paths, not the root. */
  ghost predicate Listable(workDir: string, changed: seq<Path>) {
    && workDir != "" && workDir[|workDir| - 1] == '/'
    && forall c :: c in changed ==> Normal(c) && Named(c)
  }

  /** Downloads what changed in the container, as far as the filters let it through. */
  method DownloadFiles(tarTool: TarTool, changed: seq<Path>, filters: seq<Matching.FileMatcher>, noDefaults: bool,
                       ignoreLines: seq<string>, filePaths: seq<string>, implicitOutput: bool, host: Host)
    returns (outFiles: seq<FileLog>, ok: bool, files: WorkSet)
    requires NoDuplicates(changed)
    modifies host
    ensures forall c :: c in files.todo || c in files.handled <==>
      OutputFilters.Chosen(changed, filters, noDefaults, ignoreLines, tarTool.tool.workDir, c)
    ensures var t, chosen := tarTool.tool, files.todo + Elements(files.handled);
      var all := Wanted(t, chosen, filePaths, implicitOutput);
      Prepared(t, all, old(host.fs)) && Listable(t.workDir, changed) ==>
        && Outcome(t, all, old(host.fs), Run(files.todo, files.handled, host.fs, outFiles, ok))
        && (ok <==> forall c :: c in all ==> Fetchable(t, old(host.fs), c))
    ensures var t, chosen := tarTool.tool, files.todo + Elements(files.handled);
      ok && (implicitOutput ==> HonestArchives(t.container) && forall c :: c in changed ==> Normal(c)) ==>
        files.todo == chosen - Wanted(t, chosen, filePaths, implicitOutput)
  {
    var t := tarTool.tool;
    var sorted := Sort(changed, (a, b) => StringLe(b, a));
    StringsAreOrdered();
    SortIsSorted(changed, (a, b) => StringLe(b, a));
    SortMembers(changed, (a, b) => StringLe(b, a));
    SortKeepsDistinct(changed, (a, b) => StringLe(b, a));
    var candidates := OutputFilters.FilterFiles(sorted, filters, noDefaults, ignoreLines, t.workDir);
    forall c ensures OutputFilters.Chosen(sorted, filters, noDefaults, ignoreLines, t.workDir, c)
                <==> OutputFilters.Chosen(changed, filters, noDefaults, ignoreLines, t.workDir, c) {
    }
    outFiles, ok, files := tarTool.DownloadCandidates(candidates, filePaths, implicitOutput, host);
    Accounting(t, candidates, filePaths, implicitOutput, old(host.fs));
    assert files.todo + Elements(files.handled) == Elements(candidates);
    ghost var all := Wanted(t, Elements(candidates), filePaths, implicitOutput);
    if Prepared(t, all, old(host.fs)) && Listable(t.workDir, changed) {
      ChosenAreInPlace(changed, filters, noDefaults, ignoreLines, t.workDir, all);
      HostAgreesWithContainer(t, candidates, filePaths, implicitOutput, old(host.fs), all);
      OkExactly(t, candidates, filePaths, implicitOutput, old(host.fs), all);
    }
    if ok && (implicitOutput ==> HonestArchives(t.container) && forall c :: c in changed ==> Normal(c)) {
      LeftExactly(t, candidates, filePaths, implicitOutput, old(host.fs));
    }
  }
}
