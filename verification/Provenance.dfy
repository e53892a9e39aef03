/**
 What the log is for: a file that one run left on the host and another run took up again
 connects the two runs, so that looking where a result came from goes back through both.
 */
module Provenance {
  import opened Sequences
  import opened Paths
  import opened Bytes
  import opened CommandLogs
  import opened HostFiles
  import opened Downloads
  import opened Reconciliation
  import Uploads
  import UploadTar
  import Inspector

  /** The log of a download has an entry for every handled file that was not recognised as
      unmodified, with the digest of what the host holds. */
  lemma DownloadIsLogged(t: Tool, handled: seq<Path>, c: Path, content: Data, mtime: real)
    requires c in handled && Placed(t.workDir, c)
    requires t.container.entry(c) == Some(ContainerFile(content, mtime))
    requires !CheckIfModified(t.stats, Local(t.workDir, c), ContainerFile(content, mtime)).Unmodified?
    ensures FileLog(t.resolve(Local(t.workDir, c)), t.digest(content)) in LogOf(t, handled)
  {
    LoggedExactly(t, handled, FileLog(t.resolve(Local(t.workDir, c)), t.digest(content)));
  }

  /** A handled candidate's entry: the digest of a file, none for a directory. */
  ghost predicate IsLogOf(t: Tool, c: Path, f: FileLog) {
    && t.container.entry(c).Some? && !Skipped(t, c, t.container.entry(c).value)
    && f.path == t.resolve(Local(t.workDir, c))
    && match t.container.entry(c).value
       case ContainerFile(content, _) => f.digest == t.digest(content)
       case ContainerDirectory(_) => f.digest == ""
  }

  /** And it has no other entries. */
  lemma {:induction false} LoggedExactly(t: Tool, handled: seq<Path>, f: FileLog)
    ensures f in LogOf(t, handled) ==> exists c :: c in handled && (Placed(t.workDir, c) ==> IsLogOf(t, c, f))
    ensures forall c :: c in handled && Placed(t.workDir, c) && IsLogOf(t, c, f) ==> f in LogOf(t, handled)
  {
    if handled != [] {
      var n := |handled| - 1;
      LoggedExactly(t, handled[..n], f);
      assert handled == handled[..n] + [handled[n]];
      assert Placed(t.workDir, handled[n]) ==> HostPath(t.workDir, handled[n]) == Some(Local(t.workDir, handled[n]));
    }
  }

  /** So has the log of an upload for every file it packs, and no other. */
  lemma {:induction false} UploadIsLogged(v: Uploads.View, uploads: seq<Uploads.Upload>, digest: Digest, f: FileLog)
    ensures f in UploadTar.InFiles(v, uploads, digest) <==>
      exists u :: u in uploads && IsFile(v.fs, u.hostFile) &&
        f == FileLog(v.resolve(u.hostFile), digest(v.fs[u.hostFile].content))
  {
    if uploads != [] {
      var n := |uploads| - 1;
      UploadIsLogged(v, uploads[..n], digest, f);
      assert uploads == uploads[..n] + [uploads[n]];
    }
  }

  /** `first` logged a download that left a file on the host; `second` logged an upload of it
      from there. */
  ghost predicate Carried(t: Tool, all: set<Path>, before: Files, r: Run, v: Uploads.View, uploads: seq<Uploads.Upload>,
                          c: Path, content: Data, mtime: real)
  {
    && Reconciled(t, all, before, r) && c in r.handled && Placed(t.workDir, c)
    && t.container.entry(c) == Some(ContainerFile(content, mtime))
    && !CheckIfModified(t.stats, Local(t.workDir, c), ContainerFile(content, mtime)).Unmodified?
    && v.fs == r.fs && v.resolve == t.resolve
    && exists u :: u in uploads && u.hostFile == Local(t.workDir, c)
  }

  /** Every input of the first command lies two commands behind every output of the second, and
      a search deep enough shows it. */
  lemma RunsAreLinked(t: Tool, all: set<Path>, before: Files, r: Run, v: Uploads.View, uploads: seq<Uploads.Upload>,
                      c: Path, content: Data, mtime: real, index: Inspector.View, first: CommandLog, second: CommandLog,
                      input: FileLog, output: FileLog, depth: int)
    requires Carried(t, all, before, r, v, uploads, c, content, mtime)
    requires first in index.log && second in index.log
    requires forall f :: f in r.log ==> f in first.outFiles
    requires forall f :: f in UploadTar.InFiles(v, uploads, t.digest) ==> f in second.inFiles
    requires input in first.inFiles && output in second.outFiles
    requires t.digest(content) != "" && output.digest != ""
    ensures var a, b := Inspector.NodeOf(index, output), Inspector.NodeOf(index, input);
      && Inspector.Linked(index, Inspector.FanIn, a, b, 2)
      && (Inspector.DeepEnough(index, Inspector.FanIn, a, depth) ==>
            Inspector.LabelOf(index, b) in Inspector.Labels(Inspector.Search(index, Inspector.FanIn, a, depth, {}).value))
  {
    var h := Local(t.workDir, c);
    var u :| u in uploads && u.hostFile == h;
    DownloadIsLogged(t, r.handled, c, content, mtime);
    UploadIsLogged(v, uploads, t.digest, FileLog(t.resolve(h), t.digest(content)));
    var carried := FileLog(t.resolve(h), t.digest(content));
    assert carried in first.outFiles && carried in second.inFiles;
    var a, m, b := Inspector.NodeOf(index, output), Inspector.NodeOf(index, carried), Inspector.NodeOf(index, input);
    StepBack(index, second, output, carried);
    StepBack(index, first, carried, input);
    assert Inspector.Linked(index, Inspector.FanIn, a, a, 0);
    Inspector.LinkedThenStep(index, Inspector.FanIn, a, a, m, 1);
    Inspector.LinkedThenStep(index, Inspector.FanIn, a, m, b, 2);
    if Inspector.DeepEnough(index, Inspector.FanIn, a, depth) {
      Inspector.SearchIsComplete(index, Inspector.FanIn, a, depth);
      Inspector.ReachableNodesAreClosed(index, Inspector.FanIn, a);
      Inspector.ClosedUnderChains(index, Inspector.FanIn, Inspector.ReachableNodes(index, Inspector.FanIn, a), a, b, 2);
    }
  }

  lemma StepBack(index: Inspector.View, cmd: CommandLog, output: FileLog, input: FileLog)
    requires cmd in index.log && output in cmd.outFiles && input in cmd.inFiles && output.digest != ""
    ensures Inspector.Follows(index, Inspector.FanIn, Inspector.NodeOf(index, output), Inspector.NodeOf(index, input))
  {
    assert Inspector.Touches(cmd, Inspector.FanIn, output.digest);
    assert Inspector.LeadsTo(index, Inspector.FanIn, cmd, Inspector.NodeOf(index, input));
  }
}
