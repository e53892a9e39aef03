/**
 Downloads where scratch names are not free: what may be lost, and that the order in which the
 archives have two candidates decides it when one has the scratch name of the other.
 */
module Scratch {
  import opened Sequences
  import opened Paths
  import opened CommandLogs
  import opened HostFiles
  import opened Downloads
  import opened Reconciliation

  function ScratchName(t: Tool, c: Path): Path {
    Local(t.workDir, c) + TEMP_SUFFIX
  }

  ghost predicate IsScratch(t: Tool, all: set<Path>, p: Path) {
    exists c :: c in all && Brings(t, c) && ScratchName(t, c) == p
  }

  /** As for a download, but nothing is asked of the scratch names. */
  ghost predicate Trusted(t: Tool, all: set<Path>, fs: Files) {
    && HonestArchives(t.container) && Injective(t.digest) && InPlace(t.workDir, all)
    && forall c :: c in all && t.container.entry(c).Some? && Skipped(t, c, t.container.entry(c).value) ==>
         Agrees(fs, Local(t.workDir, c), t.container.entry(c).value)
  }

  /** A path with a scratch name is gone, or was before a directory was made there. */
  ghost predicate Lost(t: Tool, all: set<Path>, r: Run, p: Path) {
    IsScratch(t, all, p) &&
      (p in r.fs ==> r.fs[p] == HostDirectory && (OnTheWay(t, r, p) || Touched(t, r, p)))
  }

  ghost predicate HomeOrLost(t: Tool, all: set<Path>, r: Run, c: Path) {
    t.container.entry(c).Some? &&
      (Agrees(r.fs, Local(t.workDir, c), t.container.entry(c).value)
       || (IsScratch(t, all, Local(t.workDir, c)) && Local(t.workDir, c) !in r.fs))
  }

  ghost predicate AsBeforeOrLost(t: Tool, all: set<Path>, before: Files, r: Run, p: Path) {
    Brought(t, r, p) || Same(before, r.fs, p) || MadeOnTheWay(t, before, r, p) || Lost(t, all, r, p)
  }

  /** The host is reconciled, except that paths with a scratch name may be lost. */
  ghost predicate Spared(t: Tool, all: set<Path>, before: Files, r: Run) {
    && (forall c :: c in r.handled ==> c in all && c !in r.todo && HomeOrLost(t, all, r, c))
    && (forall p :: AsBeforeOrLost(t, all, before, r, p))
    && r.log == LogOf(t, r.handled)
  }

  // ---------- one candidate ----------

  /** What handling a candidate does, whatever has its scratch name. */
  ghost predicate Wake(t: Tool, before: Files, now: Files, c: Path) {
    forall p :: WakeAt(t, before, now, c, p)
  }

  ghost predicate WakeAt(t: Tool, before: Files, now: Files, c: Path, p: Path) {
    var h := Local(t.workDir, c);
    || (p == h && Brings(t, c)) || Same(before, now, p)
    || (p in WithAncestors(h) && NewDirectory(before, now, p))
    || (Brings(t, c) && p == ScratchName(t, c) && p !in now)
  }

  lemma FetchWake(t: Tool, c: Path, entry: ContainerEntry, fs: Files)
    requires Injective(t.digest) && t.container.entry(c) == Some(entry) && !Skipped(t, c, entry)
    requires Fetch(t, Local(t.workDir, c), entry, fs).1
    ensures var now := Fetch(t, Local(t.workDir, c), entry, fs).0;
      && Agrees(now, Local(t.workDir, c), entry) && Wake(t, fs, now, c)
      && (Brings(t, c) && Local(t.workDir, c) in fs ==> ScratchName(t, c) !in now)
  {
    var h := Local(t.workDir, c);
    AncestorsStep(h);
    AncestorsAreShorter(h);
    if entry.ContainerFile? {
      var modified := CheckIfModified(t.stats, h, entry).Modified?;
      FetchedFile(fs, h, entry.content, entry.mtime, modified, t.digest);
      FetchedWake(t, c, fs, entry);
    }
  }

  lemma FetchedWake(t: Tool, c: Path, fs: Files, entry: ContainerEntry)
    requires t.container.entry(c) == Some(entry) && entry.ContainerFile? && Brings(t, c)
    ensures Wake(t, fs, Fetched(fs, Local(t.workDir, c), entry.content), c)
  {
    var h := Local(t.workDir, c);
    AncestorsStep(h);
    var now := Fetched(fs, h, entry.content);
    forall p ensures WakeAt(t, fs, now, c, p) {
      if p != h && p != ScratchName(t, c) {
        assert p in now <==> p in fs || p in WithAncestors(Parent(h));
      }
    }
  }

  /** What a step that raises no exception does. */
  ghost predicate Stepped(t: Tool, r: Run, now: Run, c: Path) {
    && now.ok && now.todo == r.todo - {c} && now.handled == r.handled + [c] && now.log == LogOf(t, now.handled)
    && t.container.entry(c).Some?
    && (Skipped(t, c, t.container.entry(c).value) ==> now.fs == r.fs)
    && (!Skipped(t, c, t.container.entry(c).value) ==>
          && Agrees(now.fs, Local(t.workDir, c), t.container.entry(c).value) && Wake(t, r.fs, now.fs, c)
          && (Brings(t, c) && Local(t.workDir, c) in r.fs ==> ScratchName(t, c) !in now.fs))
  }

  lemma ProcessSteps(t: Tool, r: Run, c: Path, entry: ContainerEntry)
    requires Injective(t.digest) && Placed(t.workDir, c) && t.container.entry(c) == Some(entry)
    requires r.ok && c in r.todo && r.log == LogOf(t, r.handled) && Process(t, c, entry, r).ok
    ensures Stepped(t, r, Process(t, c, entry, r), c)
  {
    assert HostPath(t.workDir, c) == Some(Local(t.workDir, c));
    OneMoreLogged(t, r.handled, c);
    if !Skipped(t, c, entry) {
      FetchWake(t, c, entry, r.fs);
    }
  }

  lemma OneMoreLogged(t: Tool, handled: seq<Path>, c: Path)
    requires t.container.entry(c).Some? && HostPath(t.workDir, c) == Some(Local(t.workDir, c))
    ensures LogOf(t, handled + [c]) == LogOf(t, handled) +
      if Skipped(t, c, t.container.entry(c).value) then []
      else [FileLog(t.resolve(Local(t.workDir, c)), EntryDigest(t, t.container.entry(c).value))]
  {
    assert (handled + [c])[..|handled|] == handled;
  }

  /** A candidate's path has not been touched before, nor is it a directory on the way to others; and no
      handled one is on its way. */
  lemma ComesFirst(t: Tool, all: set<Path>, r: Run, c: Path)
    requires InPlace(t.workDir, all) && c in all && c in r.todo && forall d :: d in r.handled ==> d in all && d !in r.todo
    ensures var h := Local(t.workDir, c);
      && !Touched(t, r, h) && !OnTheWay(t, r, h)
      && forall d :: d in r.handled ==> Local(t.workDir, d) !in WithAncestors(h)
  {
    var h := Local(t.workDir, c);
    forall d | d in r.handled
      ensures Local(t.workDir, d) != h && h !in Parents(Local(t.workDir, d)) && Local(t.workDir, d) !in Parents(h)
    {
      LocalApart(t.workDir, all, c, d);
    }
  }

  lemma LocalApart(workDir: string, all: set<Path>, c: Path, d: Path)
    requires InPlace(workDir, all) && c in all && d in all && c != d
    ensures Local(workDir, c) != Local(workDir, d)
    ensures Local(workDir, c) !in Parents(Local(workDir, d)) && Local(workDir, d) !in Parents(Local(workDir, c))
  {
    if Local(workDir, c) == Local(workDir, d) {
      LocalIsInjective(workDir, c, d);
    }
    if Local(workDir, c) in Parents(Local(workDir, d)) {
      LocalLeaves(workDir, c, d);
    }
    if Local(workDir, d) in Parents(Local(workDir, c)) {
      LocalLeaves(workDir, d, c);
    }
  }

  /** An unhandled candidate's path is as it was, or lost. */
  lemma UnhandledPath(t: Tool, all: set<Path>, before: Files, r: Run, c: Path)
    requires Trusted(t, all, before) && Spared(t, all, before, r) && c in all && c in r.todo
    ensures var h := Local(t.workDir, c); Same(before, r.fs, h) || (IsScratch(t, all, h) && h !in r.fs)
  {
    ComesFirst(t, all, r, c);
    assert AsBeforeOrLost(t, all, before, r, Local(t.workDir, c));
  }

  lemma StillHome(t: Tool, all: set<Path>, r: Run, now: Run, c: Path, d: Path)
    requires Stepped(t, r, now, c) && c in all && HomeOrLost(t, all, r, d)
    requires Local(t.workDir, d) !in WithAncestors(Local(t.workDir, c)) && Local(t.workDir, d) != Local(t.workDir, c)
    ensures HomeOrLost(t, all, now, d)
  {
    if !Skipped(t, c, t.container.entry(c).value) {
      assert WakeAt(t, r.fs, now.fs, c, Local(t.workDir, d));
    }
  }

  lemma StillAsBeforeOrLost(t: Tool, all: set<Path>, before: Files, r: Run, now: Run, c: Path, p: Path)
    requires Stepped(t, r, now, c) && c in all && AsBeforeOrLost(t, all, before, r, p)
    ensures AsBeforeOrLost(t, all, before, now, p)
  {
    TouchedMore(t, r, now, c, p);
    AncestorsStep(Local(t.workDir, c));
    if !Skipped(t, c, t.container.entry(c).value) {
      assert WakeAt(t, r.fs, now.fs, c, p);
    }
  }

  lemma OneMoreSpared(t: Tool, all: set<Path>, before: Files, r: Run, now: Run, c: Path)
    requires Trusted(t, all, before) && Spared(t, all, before, r) && c in all && c in r.todo && Stepped(t, r, now, c)
    ensures Spared(t, all, before, now)
  {
    ComesFirst(t, all, r, c);
    UnhandledPath(t, all, before, r, c);
    assert HomeOrLost(t, all, now, c);
    forall d | d in now.handled ensures d in all && d !in now.todo && HomeOrLost(t, all, now, d) {
      if d in r.handled {
        assert Local(t.workDir, d) != Local(t.workDir, c);
        StillHome(t, all, r, now, c, d);
      }
    }
    forall p ensures AsBeforeOrLost(t, all, before, now, p) {
      StillAsBeforeOrLost(t, all, before, r, now, c, p);
    }
  }

  // ---------- the whole run ----------

  ghost predicate SparedSoFar(t: Tool, candidates: set<Path>, all: set<Path>, before: Files, r: Run) {
    r.todo <= candidates && (r.ok ==> Spared(t, all, before, r))
  }

  lemma SparedIsKept(t: Tool, candidates: seq<Path>, filePaths: seq<string>, implicitOutput: bool, all: set<Path>, before: Files)
    requires all == Wanted(t, Elements(candidates), filePaths, implicitOutput) && Trusted(t, all, before)
    ensures Keeps(t, Bases(t, candidates, filePaths, implicitOutput), r => SparedSoFar(t, Elements(candidates), all, before, r))
  {
    var bases := Bases(t, candidates, filePaths, implicitOutput);
    forall name, entry, r | Given(t, bases, name, entry) && SparedSoFar(t, Elements(candidates), all, before, r)
      ensures SparedSoFar(t, Elements(candidates), all, before, Process(t, name, entry, r))
    {
      GivenIsThere(t, bases, name, entry);
      GivenIsAsked(t, candidates, filePaths, implicitOutput, name, entry);
      Takes(t, name, entry, r);
      if r.ok && name in r.todo && Process(t, name, entry, r).ok {
        ProcessSteps(t, r, name, entry);
        OneMoreSpared(t, all, before, r, Process(t, name, entry, r), name);
      }
    }
  }

  lemma StartIsSpared(t: Tool, candidates: seq<Path>, all: set<Path>, fs: Files)
    ensures SparedSoFar(t, Elements(candidates), all, fs, Run(Elements(candidates), [], fs, [], true))
  {
    assert forall p :: Same(fs, fs, p);
  }

  /** Whatever has scratch names on the host or among the candidates: when no exception is raised,
      handled candidates are as in the container and all else is as before, except that paths with
      the scratch name of a candidate may be lost. */
  lemma OnlyScratchNamesAreLost(t: Tool, candidates: seq<Path>, filePaths: seq<string>, implicitOutput: bool, fs: Files,
                                all: set<Path>)
    requires all == Wanted(t, Elements(candidates), filePaths, implicitOutput) && Trusted(t, all, fs)
    ensures var r := DownloadAll(t, candidates, filePaths, implicitOutput, fs); r.ok ==> Spared(t, all, fs, r)
  {
    SparedIsKept(t, candidates, filePaths, implicitOutput, all, fs);
    StartIsSpared(t, candidates, all, fs);
    AllKeeps(t, r => SparedSoFar(t, Elements(candidates), all, fs, r), candidates, filePaths, implicitOutput, fs);
  }

  // ---------- a candidate with the scratch name of another ----------

  /** Fetching `b` replaces a host file, through a scratch file with the name of the file `c`. */
  ghost predicate Rivals(t: Tool, all: set<Path>, before: Files, b: Path, c: Path) {
    && b in all && c in all && Brings(t, b) && ScratchName(t, b) == Local(t.workDir, c)
    && t.container.entry(c).Some? && t.container.entry(c).value.ContainerFile?
    && Local(t.workDir, b) in before && !IsScratch(t, all, Local(t.workDir, b))
  }

  ghost predicate Precedes(s: seq<Path>, b: Path, c: Path) {
    exists i, j :: 0 <= i < j < |s| && s[i] == b && s[j] == c
  }

  lemma PrecedesMore(s: seq<Path>, d: Path, b: Path, c: Path)
    ensures Precedes(s + [d], b, c) <==> Precedes(s, b, c) || (d == c && b in s)
  {
    var now := s + [d];
    if i, j :| 0 <= i < j < |now| && now[i] == b && now[j] == c {
      assert i < |s| && s[i] == b;
      assert j < |s| ==> s[j] == c;
    }
    if i, j :| 0 <= i < j < |s| && s[i] == b && s[j] == c {
      assert now[i] == b && now[j] == c;
    }
    if d == c && b in s {
      var i :| 0 <= i < |s| && s[i] == b;
      assert now[i] == b && now[|s|] == c;
    }
  }

  /** What there is of `c` on the host. */
  ghost predicate RivalState(t: Tool, before: Files, r: Run, b: Path, c: Path)
    requires t.container.entry(c).Some?
  {
    var h, entry := Local(t.workDir, c), t.container.entry(c).value;
    if b !in r.handled && c !in r.handled then Same(before, r.fs, h)
    else if b !in r.handled || (Precedes(r.handled, b, c) && !Skipped(t, c, entry)) then Agrees(r.fs, h, entry)
    else h !in r.fs
  }

  lemma RivalStep(t: Tool, all: set<Path>, before: Files, r: Run, now: Run, d: Path, b: Path, c: Path)
    requires Trusted(t, all, before) && Spared(t, all, before, r) && d in all && d in r.todo && Stepped(t, r, now, d)
    requires Rivals(t, all, before, b, c) && RivalState(t, before, r, b, c)
    ensures RivalState(t, before, now, b, c)
  {
    PrecedesMore(r.handled, d, b, c);
    assert forall e :: e in now.handled <==> e in r.handled || e == d;
    if d == b {
      UnhandledPath(t, all, before, r, b);
    } else if d != c {
      RivalUntouched(t, all, before, r, now, d, b, c);
    }
  }

  lemma RivalUntouched(t: Tool, all: set<Path>, before: Files, r: Run, now: Run, d: Path, b: Path, c: Path)
    requires InPlace(t.workDir, all) && d in all && Stepped(t, r, now, d) && d != b && d != c
    requires Rivals(t, all, before, b, c)
    ensures Same(r.fs, now.fs, Local(t.workDir, c))
  {
    LocalApart(t.workDir, all, c, d);
    LocalApart(t.workDir, all, b, d);
    SuffixCancels(Local(t.workDir, b), Local(t.workDir, d));
    if !Skipped(t, d, t.container.entry(d).value) {
      assert WakeAt(t, r.fs, now.fs, d, Local(t.workDir, c));
    }
  }

  lemma SuffixCancels(a: string, b: string)
    ensures a + TEMP_SUFFIX == b + TEMP_SUFFIX ==> a == b
  {
    if a + TEMP_SUFFIX == b + TEMP_SUFFIX {
      assert a == (a + TEMP_SUFFIX)[..|a|] && b == (b + TEMP_SUFFIX)[..|b|];
    }
  }

  ghost predicate RivalsSoFar(t: Tool, candidates: set<Path>, all: set<Path>, before: Files, b: Path, c: Path, r: Run)
    requires t.container.entry(c).Some?
  {
    SparedSoFar(t, candidates, all, before, r) && (r.ok ==> RivalState(t, before, r, b, c))
  }

  lemma RivalsAreKept(t: Tool, candidates: seq<Path>, filePaths: seq<string>, implicitOutput: bool, all: set<Path>,
                      before: Files, b: Path, c: Path)
    requires all == Wanted(t, Elements(candidates), filePaths, implicitOutput) && Trusted(t, all, before)
    requires Rivals(t, all, before, b, c)
    ensures Keeps(t, Bases(t, candidates, filePaths, implicitOutput),
      r => RivalsSoFar(t, Elements(candidates), all, before, b, c, r))
  {
    SparedIsKept(t, candidates, filePaths, implicitOutput, all, before);
    var bases := Bases(t, candidates, filePaths, implicitOutput);
    forall name, entry, r | Given(t, bases, name, entry) && RivalsSoFar(t, Elements(candidates), all, before, b, c, r)
      ensures RivalsSoFar(t, Elements(candidates), all, before, b, c, Process(t, name, entry, r))
    {
      GivenIsThere(t, bases, name, entry);
      GivenIsAsked(t, candidates, filePaths, implicitOutput, name, entry);
      if r.ok && name in r.todo && Process(t, name, entry, r).ok {
        ProcessSteps(t, r, name, entry);
        RivalStep(t, all, before, r, Process(t, name, entry, r), name, b, c);
      }
    }
  }

  /** The order decides: `c` comes home exactly if it is fetched, and after `b`. Otherwise it is lost,
      even where it was on the host and not modified. */
  lemma OrderDecides(t: Tool, candidates: seq<Path>, filePaths: seq<string>, implicitOutput: bool, fs: Files, all: set<Path>,
                     b: Path, c: Path)
    requires all == Wanted(t, Elements(candidates), filePaths, implicitOutput) && Trusted(t, all, fs)
    requires Rivals(t, all, fs, b, c)
    requires implicitOutput ==> forall d :: d in candidates ==> Normal(d)
    requires DownloadAll(t, candidates, filePaths, implicitOutput, fs).ok
    ensures var r := DownloadAll(t, candidates, filePaths, implicitOutput, fs);
      var h, entry := Local(t.workDir, c), t.container.entry(c).value;
      && (Agrees(r.fs, h, entry) <==> !Skipped(t, c, entry) && Precedes(r.handled, b, c))
      && (!Agrees(r.fs, h, entry) ==> h !in r.fs)
  {
    RivalsAtTheEnd(t, candidates, filePaths, implicitOutput, fs, all, b, c);
    WantedIsHandled(t, candidates, filePaths, implicitOutput, fs, b);
    WantedIsHandled(t, candidates, filePaths, implicitOutput, fs, c);
  }

  lemma RivalsAtTheEnd(t: Tool, candidates: seq<Path>, filePaths: seq<string>, implicitOutput: bool, fs: Files,
                       all: set<Path>, b: Path, c: Path)
    requires all == Wanted(t, Elements(candidates), filePaths, implicitOutput) && Trusted(t, all, fs)
    requires Rivals(t, all, fs, b, c) && DownloadAll(t, candidates, filePaths, implicitOutput, fs).ok
    ensures RivalState(t, fs, DownloadAll(t, candidates, filePaths, implicitOutput, fs), b, c)
  {
    RivalsAreKept(t, candidates, filePaths, implicitOutput, all, fs, b, c);
    StartIsSpared(t, candidates, all, fs);
    assert RivalState(t, fs, Run(Elements(candidates), [], fs, [], true), b, c);
    AllKeeps(t, r => RivalsSoFar(t, Elements(candidates), all, fs, b, c, r), candidates, filePaths, implicitOutput, fs);
  }

  lemma WantedIsHandled(t: Tool, candidates: seq<Path>, filePaths: seq<string>, implicitOutput: bool, fs: Files, c: Path)
    requires implicitOutput ==> HonestArchives(t.container) && forall d :: d in candidates ==> Normal(d)
    requires DownloadAll(t, candidates, filePaths, implicitOutput, fs).ok
    requires c in Wanted(t, Elements(candidates), filePaths, implicitOutput)
    ensures c in DownloadAll(t, candidates, filePaths, implicitOutput, fs).handled
  {
    LeftExactly(t, candidates, filePaths, implicitOutput, fs);
    Accounting(t, candidates, filePaths, implicitOutput, fs);
  }
}
