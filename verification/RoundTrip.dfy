/**
 Up, run and down again: what the upload recorded is what the download may rely on, whatever the
 command did in the container in between.
 */
module RoundTrip {
  import opened Sequences
  import opened Paths
  import opened Bytes
  import opened CommandLogs
  import opened HostFiles
  import opened Downloads
  import opened Reconciliation
  import opened Uploads
  import opened UploadTar
  import Matching
  import OutputFilters

  /** The entry is what is left of the packed file after writes with a clock that is not behind;
      the time it lands with may have lost its fraction. */
  ghost predicate LeftOf(m: TarMember, entry: ContainerEntry, from: real)
    requires m.Stored?
  {
    entry.ContainerFile? ==> exists content, landed, writes :: Rewritten(m, entry, from, content, landed, writes)
  }

  ghost predicate Rewritten(m: TarMember, entry: ContainerEntry, from: real, content: Data, landed: real, writes: seq<Write>)
    requires m.Stored?
  {
    && entry == Written(content, landed, writes) && Trunc(landed) == Trunc(m.mtime)
    && (writes == [] ==> m.entry == HostFile(content))
    && forall i :: 0 <= i < |writes| ==> from <= writes[i].time
  }

  /** The container unpacked the tar in its working directory, and what is there now was left of it or
      written since. */
  ghost predicate Ran(workDir: string, tar: seq<TarMember>, from: real, box: Container) {
    forall n, entry :: HasStored(tar, n) && box.entry(workDir + n) == Some(entry) ==>
      exists m :: m in tar && m.Stored? && m.name == n && LeftOf(m, entry, from)
  }

  ghost predicate HasStored(tar: seq<TarMember>, n: string) {
    exists m :: m in tar && m.Stored? && m.name == n
  }

  /** No absolute path or path with ".." goes by the name, and the file is not from the future. */
  ghost predicate Proper(v: View, uploads: seq<Upload>, h: string, from: real) {
    forall u :: u in uploads && u.arcName == h ==> u.hostFile == h && v.mtime(h) <= from
  }

  /** What the tar has by the name is the host's file. */
  lemma StoredIsFromHost(v: View, uploads: seq<Upload>, tar: seq<TarMember>, h: string, from: real, m: TarMember)
    requires Packed(v, uploads, tar, ArcAncestors(uploads)) && Proper(v, uploads, h, from)
    requires m in tar && m.Stored? && m.name == h
    ensures m.entry == EntryAt(v.fs, h) && m.mtime == v.mtime(h)
  {
    var w :| w in uploads && MemberOf(v, w) == m;
  }

  lemma StatIsOfHost(v: View, uploads: seq<Upload>, tar: seq<TarMember>, stats: map<string, UploadStat>, from: real, to: real,
                     h: string)
    requires Packed(v, uploads, tar, ArcAncestors(uploads)) && Recorded(v, uploads, stats, from, to)
    requires Proper(v, uploads, h, from) && h in stats
    ensures Exists(v.fs, h) && HasStored(tar, h)
    ensures stats[h].mtime == v.mtime(h) <= from <= stats[h].uploaded <= to
  {
    var u :| u in uploads && u.arcName == h && StatOf(v, u, stats[h], from, to);
    assert MemberOf(v, u) in tar;
  }

  lemma HistoryOfHost(up: UploadStat, fs: Files, h: Path, m: TarMember, entry: ContainerEntry, to: real, content: Data,
                      landed: real, writes: seq<Write>)
    requires m.Stored? && m.entry == EntryAt(fs, h) && m.mtime == up.mtime && up.mtime <= up.uploaded <= to
    requires Rewritten(m, entry, to, content, landed, writes)
    ensures History(up, fs, h, entry, content, landed, writes)
  {
  }

  /** What the upload recorded is an honest history of what the container now has. */
  lemma UploadComesBack(v: View, uploads: seq<Upload>, tar: seq<TarMember>, t: Tool, from: real, to: real, h: string,
                        entry: ContainerEntry)
    requires Packed(v, uploads, tar, ArcAncestors(uploads)) && Recorded(v, uploads, t.stats, from, to)
    requires Proper(v, uploads, h, from) && Ran(t.workDir, tar, to, t.container)
    requires t.container.entry(t.workDir + h) == Some(entry)
    ensures HonestHistory(t, v.fs, h, entry)
  {
    if h in t.stats {
      StatIsOfHost(v, uploads, tar, t.stats, from, to, h);
      if entry.ContainerFile? {
        var m :| m in tar && m.Stored? && m.name == h && LeftOf(m, entry, to);
        StoredIsFromHost(v, uploads, tar, h, from, m);
        var content, landed, writes :| Rewritten(m, entry, to, content, landed, writes);
        HistoryOfHost(t.stats[h], v.fs, h, m, entry, to, content, landed, writes);
      }
    }
  }

  /** So a file is only skipped that the host already has as the container has it. */
  lemma SkippedIsUpToDate(v: View, uploads: seq<Upload>, tar: seq<TarMember>, t: Tool, from: real, to: real, h: string,
                          entry: ContainerEntry)
    requires Packed(v, uploads, tar, ArcAncestors(uploads)) && Recorded(v, uploads, t.stats, from, to)
    requires Proper(v, uploads, h, from) && Ran(t.workDir, tar, to, t.container)
    requires t.container.entry(t.workDir + h) == Some(entry)
    requires CheckIfModified(t.stats, h, entry).Unmodified?
    ensures Agrees(v.fs, h, entry)
  {
    UploadComesBack(v, uploads, tar, t, from, to, h, entry);
    UnmodifiedAgrees(t, h, entry, v.fs);
  }

  /** What remains to be asked: archives that tell the truth, digests that tell files apart, and scratch
      names that are free where one is used. */
  ghost predicate Fair(t: Tool, all: set<Path>, fs: Files) {
    && HonestArchives(t.container) && Injective(t.digest)
    && forall c :: c in all && t.container.entry(c).Some? && UsesScratch(t, fs, c, t.container.entry(c).value) ==>
         ScratchIsFree(t, all, fs, c)
  }

  /** What is asked of the command line and of the container. */
  ghost predicate Honest(v: View, uploads: seq<Upload>, tar: seq<TarMember>, t: Tool, from: real, to: real, all: set<Path>,
                         changed: seq<Path>)
  {
    && (forall c :: c in all ==> Proper(v, uploads, Local(t.workDir, c), from))
    && Ran(t.workDir, tar, to, t.container) && Fair(t, all, v.fs) && Listable(t.workDir, changed)
  }

  /** Then what the download may rely on holds. */
  lemma HonestIsPrepared(v: View, uploads: seq<Upload>, tar: seq<TarMember>, t: Tool, from: real, to: real, all: set<Path>,
                         changed: seq<Path>)
    requires Packed(v, uploads, tar, ArcAncestors(uploads)) && Recorded(v, uploads, t.stats, from, to)
    requires Honest(v, uploads, tar, t, from, to, all, changed) && forall c :: c in all ==> t.workDir <= c
    ensures Prepared(t, all, v.fs)
  {
    forall c | c in all && t.container.entry(c).Some? && Skipped(t, c, t.container.entry(c).value)
      ensures Agrees(v.fs, Local(t.workDir, c), t.container.entry(c).value)
    {
      assert c == t.workDir + Local(t.workDir, c);
      SkippedIsUpToDate(v, uploads, tar, t, from, to, Local(t.workDir, c), t.container.entry(c).value);
    }
  }

  /** One use of the tool: packs the uploads, has the command run on them, and downloads what
      changed. The command is any function of what it is given and when. Whatever it does, the
      host in the end agrees with the container, or the download stopped at the first path in
      whose way something stood on the host. */
  method RunTool(resolver: FileResolver, digest: Digest, clock: Clock, workDir: string,
                 command: (seq<TarMember>, real) -> Container, diff: Container -> seq<Path>,
                 filters: seq<Matching.FileMatcher>, noDefaults: bool, ignoreLines: seq<string>, filePaths: seq<string>,
                 implicitOutput: bool, host: Host)
    returns (uploads: seq<Upload>, writer: TarWriter, tarTool: TarTool, outFiles: seq<FileLog>, ok: bool, files: WorkSet)
    requires ValidNames(resolver.view) && host.fs == resolver.view.fs
    requires forall box :: NoDuplicates(diff(box))
    modifies clock, host
    ensures UploadsOf(resolver.view, Elements(resolver.hostFiles), resolver.outputDirs, uploads)
    ensures Packed(resolver.view, uploads, writer.tar, ArcAncestors(uploads))
    ensures tarTool.tool == Tool(workDir, writer.stats, command(writer.tar, clock.time), digest, resolver.view.resolve)
    ensures writer.inFiles == InFiles(resolver.view, uploads, digest)
    ensures var t := tarTool.tool;
      forall c :: c in files.todo || c in files.handled <==>
        OutputFilters.Chosen(diff(t.container), filters, noDefaults, ignoreLines, workDir, c)
    ensures var t, chosen, before := tarTool.tool, files.todo + Elements(files.handled), old(host.fs);
      var all := Wanted(t, chosen, filePaths, implicitOutput);
      Honest(resolver.view, uploads, writer.tar, t, old(clock.time), clock.time, all, diff(t.container)) ==>
        && Outcome(t, all, before, Run(files.todo, files.handled, host.fs, outFiles, ok))
        && (ok <==> forall c :: c in all ==> Fetchable(t, before, c))
        && (ok ==> files.todo == chosen - all)
  {
    uploads, writer := Pack(resolver, digest, clock);
    var box := command(writer.tar, clock.time);
    tarTool := new TarTool(Tool(workDir, writer.stats, box, digest, resolver.view.resolve));
    var changed := diff(box);
    outFiles, ok, files := DownloadFiles(tarTool, changed, filters, noDefaults, ignoreLines, filePaths, implicitOutput, host);
    ghost var t, all := tarTool.tool, Wanted(tarTool.tool, files.todo + Elements(files.handled), filePaths, implicitOutput);
    if Honest(resolver.view, uploads, writer.tar, t, old(clock.time), clock.time, all, changed) {
      HonestIsPrepared(resolver.view, uploads, writer.tar, t, old(clock.time), clock.time, all, changed);
    }
  }
}
