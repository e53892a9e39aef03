/**
 Bringing the results home: several archives of the container, which may overlap, are gone
 through, and each candidate found in them is compared with the host and fetched if needed.
 */
module Downloads {
  import opened Sequences
  import opened Text
  import opened Sorting
  import opened Paths
  import opened Bytes
  import opened CommandLogs
  import opened HostFiles

  datatype ContainerEntry = ContainerFile(content: Data, mtime: real) | ContainerDirectory(mtime: real) {
    function Size(): nat {
      if ContainerFile? then |content| else 0
    }
  }

  /** A member of an archive, named relative to the parent of the path that was asked for. */
  datatype Member = Member(name: string, entry: ContainerEntry)

  /** What the container has at a path, and the archive it gives of a path. */
  datatype Container = Container(entry: Path -> Option<ContainerEntry>, archive: string -> Option<seq<Member>>)

  /** Size, original modification time and upload time of an uploaded file. */
  datatype UploadStat = UploadStat(size: nat, mtime: real, uploaded: real)

  datatype Tool = Tool(workDir: string, stats: map<Path, UploadStat>, container: Container, digest: Digest,
                       resolve: Path -> Path)

  /** The working directory as the image configures it (absent means "."), with a slash at its end. */
  function WorkDir(configured: Option<string>): (dir: string)
    ensures dir != "" && dir[|dir| - 1] == '/'
  {
    var dir := configured.GetOr(".");
    var dir := if dir == "" then "/" else dir;
    if dir[|dir| - 1] == '/' then dir else dir + "/"
  }

  /** The configured directory, or the root for none in the image and "." for no image setting, with one
      slash at its end. */
  lemma WorkDirInPlainText(d: string)
    ensures d != "" && d[|d| - 1] != '/' ==> WorkDir(Some(d)) == d + "/" && WorkDir(Some(d + "/")) == d + "/"
    ensures WorkDir(Some("")) == "/" && WorkDir(None) == "./" && WorkDir(Some("/")) == "/"
  {
  }

  // ---------- was it modified? ----------

  /** Python's `int` of a float. */
  function Trunc(r: real): int {
    if r >= 0.0 then r.Floor else -((-r).Floor)
  }

  /** Towards zero, by less than one. */
  lemma TruncTowardsZero(r: real)
    ensures r >= 0.0 ==> Trunc(r) >= 0 && Trunc(r) as real <= r < Trunc(r) as real + 1.0
    ensures r <= 0.0 ==> Trunc(r) <= 0 && Trunc(r) as real - 1.0 < r <= Trunc(r) as real
  {
  }

  datatype Verdict = Modified | Unmodified | Unknown

  function CheckIfModified(stats: map<Path, UploadStat>, hostFile: Path, entry: ContainerEntry): Verdict {
    if hostFile !in stats then Modified
    else
      var up := stats[hostFile];
      if up.size != entry.Size() then Modified
      else if Trunc(up.mtime) != Trunc(entry.mtime) then Modified
      else if Trunc(up.mtime) != Trunc(up.uploaded) then Unmodified
      else Unknown
  }

  /** A write in the container, stamped by its clock. */
  datatype Write = Write(time: real, content: Data)

  /** The file after the writes. */
  function Written(content: Data, mtime: real, writes: seq<Write>): ContainerEntry {
    if writes == [] then ContainerFile(content, mtime)
    else ContainerFile(writes[|writes| - 1].content, writes[|writes| - 1].time)
  }

  /** The clocks agree: the original was not younger than the upload, writes came after it.
      The time the file lands with may have lost its fraction. */
  ghost predicate HonestClock(up: UploadStat, landed: real, writes: seq<Write>) {
    && up.mtime <= up.uploaded && Trunc(landed) == Trunc(up.mtime)
    && forall i :: 0 <= i < |writes| ==> up.uploaded <= writes[i].time
  }

  lemma TruncIsMonotone(a: real, b: real)
    requires a <= b
    ensures Trunc(a) <= Trunc(b)
  {
  }

  /** "Unmodified" is the answer exactly when nothing was written, the size is that of the upload
      and the original is at least one whole second older than the upload. */
  lemma UnmodifiedExactly(stats: map<Path, UploadStat>, hostFile: Path, content: Data, landed: real, writes: seq<Write>)
    requires hostFile in stats && HonestClock(stats[hostFile], landed, writes)
    ensures CheckIfModified(stats, hostFile, Written(content, landed, writes)).Unmodified? <==>
      && writes == [] && stats[hostFile].size == |content|
      && Trunc(stats[hostFile].mtime) != Trunc(stats[hostFile].uploaded)
  {
    var up := stats[hostFile];
    if writes != [] {
      TruncIsMonotone(up.mtime, up.uploaded);
      TruncIsMonotone(up.uploaded, writes[|writes| - 1].time);
    }
  }

  // ---------- one file ----------

  const TEMP_SUFFIX := "_TEMP"

  /** The host path for a path in the container; other paths are skipped. */
  function HostPath(workDir: string, name: Path): Option<Path> {
    var rest := if workDir <= name then Some(name[|workDir|..])
      else if IsAbsolute(name) then Some(name[1..]) else None;
    if rest.None? || IsAbsolute(rest.value) then None
    else if rest.value == "" then Some(".") else rest
  }

  /** What follows the working directory, or else the root; never a path from the root. */
  lemma HostPathInPlainText(workDir: string, h: Path)
    requires h != ""
    ensures !("/" <= h) ==> HostPath(workDir, workDir + h) == Some(h)
    ensures !("/" <= h) && !(workDir <= "/" + h) ==> HostPath(workDir, "/" + h) == Some(h)
    ensures "/" <= h ==> HostPath(workDir, workDir + h) == None
    ensures !("/" <= h) && !(workDir <= h) ==> HostPath(workDir, h) == None
  {
    assert (workDir + h)[|workDir|..] == h;
  }

  function Replace(fs: Files, h: Path, temp: Path): (Files, bool)
    requires IsFile(fs, temp) && temp != h
  {
    if !IsFile(fs, h) then (fs, false) else ((fs - {h})[h := fs[temp]] - {temp}, true)
  }

  /** Fetches a file: straight to its place when that is free, otherwise next to it first. */
  function FetchFile(fs: Files, h: Path, content: Data, modified: bool, digest: Digest): (Files, bool) {
    if !CanMakeDirs(fs, Parent(h)) then (fs, false)
    else
      var dirs := WithDirs(fs, Parent(h));
      if !Exists(fs, h) then (if IsDirectory(dirs, h) then (dirs, false) else (dirs[h := HostFile(content)], true))
      else
        var temp := h + TEMP_SUFFIX;
        if IsDirectory(dirs, temp) then (dirs, false)
        else
          var both := dirs[temp := HostFile(content)];
          if modified then Replace(both, h, temp)
          else if !IsFile(both, h) then (both, false)
          else if digest(content) == digest(both[h].content) then (both - {temp}, true)
          else Replace(both, h, temp)
  }

  function FetchDirectory(fs: Files, h: Path): (Files, bool) {
    if Exists(fs, h) then (fs, true)
    else if CanMakeDirs(fs, h) then (WithDirs(fs, h), true) else (fs, false)
  }

  // ---------- the pass over the archives ----------

  /** The state of a pass: what is still to do, what was handled, in order, the host, the log
      and whether no exception was raised. */
  datatype Run = Run(todo: set<Path>, handled: seq<Path>, fs: Files, log: seq<FileLog>, ok: bool)

  function FullName(base: string, name: string): Path {
    Child(Parent(Parse(base)), name)
  }

  function EntryDigest(t: Tool, entry: ContainerEntry): string {
    if entry.ContainerFile? then t.digest(entry.content) else ""
  }

  function Fetch(t: Tool, h: Path, entry: ContainerEntry, fs: Files): (Files, bool) {
    if entry.ContainerFile? then
      FetchFile(fs, h, entry.content, CheckIfModified(t.stats, h, entry).Modified?, t.digest)
    else FetchDirectory(fs, h)
  }

  /** One member of an archive. */
  function Process(t: Tool, name: Path, entry: ContainerEntry, r: Run): Run {
    if !r.ok || name !in r.todo then r
    else
      var taken := r.(todo := r.todo - {name}, handled := r.handled + [name]);
      var host := HostPath(t.workDir, name);
      if host.None? || CheckIfModified(t.stats, host.value, entry).Unmodified? then taken
      else
        var (fs, ok) := Fetch(t, host.value, entry, r.fs);
        var log := if ok then [FileLog(t.resolve(host.value), EntryDigest(t, entry))] else [];
        taken.(fs := fs, log := r.log + log, ok := ok)
  }

  function ProcessAll(t: Tool, base: string, members: seq<Member>, r: Run): Run {
    if members == [] then r
    else
      var m := members[|members| - 1];
      Process(t, FullName(base, m.name), m.entry, ProcessAll(t, base, members[..|members| - 1], r))
  }

  function DownloadSet(t: Tool, path: string, r: Run): Run {
    var members := t.container.archive(path);
    if members.None? then r else ProcessAll(t, path, members.value, r)
  }

  function DownloadEach(t: Tool, paths: seq<string>, r: Run): Run {
    if paths == [] then r
    else DownloadSet(t, paths[|paths| - 1], DownloadEach(t, paths[..|paths| - 1], r))
  }

  /** `pathlib.Path(workDir) / path` */
  function InContainer(workDir: string, path: string): Path {
    if IsAbsolute(path) then Parse(path) else Parse(workDir + path)
  }

  function ExplicitPaths(workDir: string, paths: seq<string>): seq<Path> {
    seq(|paths|, i requires 0 <= i < |paths| => InContainer(workDir, paths[i]))
  }

  /** The archive of the working directory, unless that is the root. */
  function DownloadWorkDir(t: Tool, implicitOutput: bool, r: Run): Run {
    if implicitOutput && t.workDir != "/" then DownloadSet(t, t.workDir, r) else r
  }

  /** What is left, path by path. */
  function DownloadLeft(t: Tool, candidates: seq<Path>, implicitOutput: bool, r: Run): Run {
    if implicitOutput then DownloadEach(t, Left(candidates, r.todo), r) else r
  }

  function Left(candidates: seq<Path>, todo: set<Path>): seq<Path> {
    Filter(candidates, c => c in todo)
  }

  /** The working directory, then the explicit paths, then what is left. */
  function DownloadAll(t: Tool, candidates: seq<Path>, filePaths: seq<string>, implicitOutput: bool, fs: Files): Run {
    var start := Run(Elements(candidates), [], fs, [], true);
    var first := DownloadWorkDir(t, implicitOutput, start);
    if !first.ok then first
    else
      var second := DownloadEach(t, ExplicitPaths(t.workDir, filePaths), first);
      if !second.ok then second else DownloadLeft(t, candidates, implicitOutput, second)
  }

  /** An explicit path is asked for where it is in the working directory, or as it is from the root. */
  lemma ExplicitInPlainText(t: Tool, candidates: seq<Path>, paths: seq<string>, whole: seq<Path>, fs: Files)
    requires |whole| == |paths|
    requires forall i :: 0 <= i < |paths| ==>
      Normal(whole[i]) && whole[i] == if "/" <= paths[i] then paths[i] else t.workDir + paths[i]
    ensures DownloadAll(t, candidates, paths, false, fs) == DownloadEach(t, whole, Run(Elements(candidates), [], fs, [], true))
  {
    assert ExplicitPaths(t.workDir, paths) == whole;
  }

  /** The members of the archive of a path are called by its last name, and by what is below: also with a
      slash at the end of the path. */
  lemma FullNameInPlainText(d: Path, n: string, below: string)
    requires d == "" || Named(d)
    requires '/' !in n && Normal(d + "/" + n)
    ensures FullName(d + "/" + n, n) == d + "/" + n && FullName(d + "/" + n, n + "/" + below) == d + "/" + n + "/" + below
    ensures forall name :: FullName(d + "/" + n + "/", name) == FullName(d + "/" + n, name)
  {
    var base := d + "/" + n;
    ParentOfLast(d, n);
    ChildInside(d, n);
    ChildInside(d, n + "/" + below);
    assert d + "/" + (n + "/" + below) == d + "/" + n + "/" + below;
    SlashAtEnd(base);
  }

  lemma ParentOfLast(d: Path, n: string)
    requires '/' !in n
    ensures Parent(d + "/" + n) == if d == "" then "/" else d
  {
    var base := d + "/" + n;
    assert base[|d|] == '/';
    assert LastSlash(base) == |d|;
  }

  lemma ChildInside(d: Path, name: string)
    requires d == "" || Named(d)
    ensures Child(if d == "" then "/" else d, name) == d + "/" + name
  {
  }

  lemma ProcessStep(t: Tool, base: string, members: seq<Member>, i: nat, r: Run)
    requires i < |members|
    ensures ProcessAll(t, base, members[..i + 1], r)
         == Process(t, FullName(base, members[i].name), members[i].entry, ProcessAll(t, base, members[..i], r))
  {
    assert members[..i + 1][..i] == members[..i];
  }

  lemma EachStep(t: Tool, paths: seq<string>, i: nat, r: Run)
    requires i < |paths|
    ensures DownloadEach(t, paths[..i + 1], r) == DownloadSet(t, paths[i], DownloadEach(t, paths[..i], r))
  {
    assert paths[..i + 1][..i] == paths[..i];
  }

  // ---------- the program ----------

  /** The set of candidates still to do, shared by the passes. */
  class WorkSet {
    var todo: set<Path>
    ghost var handled: seq<Path>

    constructor (todo: set<Path>)
      ensures this.todo == todo && handled == []
    {
      this.todo := todo;
      handled := [];
    }

    method Remove(name: Path)
      modifies this
      ensures todo == old(todo) - {name} && handled == old(handled) + [name]
    {
      todo := todo - {name};
      handled := handled + [name];
    }
  }

  class TarTool {
    const tool: Tool

    constructor (tool: Tool)
      ensures this.tool == tool
    {
      this.tool := tool;
    }

    /** Moves the scratch file to the place of the file it replaces. */
    method ReplaceFile(host: Host, h: Path, temp: Path) returns (ok: bool)
      requires IsFile(host.fs, temp) && temp != h
      modifies host
      ensures (host.fs, ok) == Replace(old(host.fs), h, temp)
    {
      ok := host.Unlink(h);
      if ok {
        host.Rename(temp, h);
      }
    }

    method FetchFileTo(host: Host, h: Path, content: Data, modified: bool) returns (md: string, ok: bool)
      modifies host
      ensures (host.fs, ok) == FetchFile(old(host.fs), h, content, modified, tool.digest)
      ensures ok ==> md == tool.digest(content)
    {
      md := "";
      var free := !Exists(host.fs, h);
      ok := host.MakeDirs(Parent(h));
      if !ok {
        return;
      }
      var data := new Source(content);
      var copy := new Sink();
      md := ReadWithHash(data, copy, tool.digest);
      assert copy.written == content;
      if free {
        ok := host.Write(h, copy.written);
        return;
      }
      var temp := h + TEMP_SUFFIX;
      ok := host.Write(temp, copy.written);
      if !ok {
        return;
      }
      if modified {
        ok := ReplaceFile(host, h, temp);
      } else {
        ok := IsFile(host.fs, h);
        if !ok {
          return;
        }
        var hostData := new Source(host.fs[h].content);
        var hostDigest := ReadWithHash(hostData, null, tool.digest);
        if md == hostDigest {
          ok := host.Unlink(temp);
        } else {
          ok := ReplaceFile(host, h, temp);
        }
      }
    }

    method FetchDirectoryTo(host: Host, h: Path) returns (ok: bool)
      modifies host
      ensures (host.fs, ok) == FetchDirectory(old(host.fs), h)
    {
      ok := true;
      if !Exists(host.fs, h) {
        ok := host.MakeDirs(h);
      }
    }

    /** The body of the loop over an archive. */
    method ProcessMember(name: Path, entry: ContainerEntry, files: WorkSet, host: Host, ghost logged: seq<FileLog>)
      returns (outFiles: seq<FileLog>, ok: bool)
      modifies files, host
      ensures Run(files.todo, files.handled, host.fs, logged + outFiles, ok)
           == Process(tool, name, entry, Run(old(files.todo), old(files.handled), old(host.fs), logged, true))
    {
      outFiles, ok := [], true;
      assert logged + [] == logged;
      if name !in files.todo {
        return;
      }
      files.Remove(name);
      var inHost := HostPath(tool.workDir, name);
      if inHost.None? {
        return;
      }
      var verdict := CheckIfModified(tool.stats, inHost.value, entry);
      if verdict.Unmodified? {
        return;
      }
      var md := "";
      if entry.ContainerFile? {
        md, ok := FetchFileTo(host, inHost.value, entry.content, verdict.Modified?);
      } else {
        ok := FetchDirectoryTo(host, inHost.value);
      }
      if ok {
        outFiles := [FileLog(tool.resolve(inHost.value), md)];
      }
    }

    method DownloadFileSet(filePath: string, files: WorkSet, host: Host, ghost logged: seq<FileLog>)
      returns (outFiles: seq<FileLog>, ok: bool)
      modifies files, host
      ensures Run(files.todo, files.handled, host.fs, logged + outFiles, ok)
           == DownloadSet(tool, filePath, Run(old(files.todo), old(files.handled), old(host.fs), logged, true))
    {
      outFiles, ok := [], true;
      assert logged + [] == logged;
      var archive := tool.container.archive(filePath);
      if archive.None? {
        return;
      }
      var members := archive.value;
      ghost var start := Run(files.todo, files.handled, host.fs, logged, true);
      for i := 0 to |members|
        invariant ok
        invariant Run(files.todo, files.handled, host.fs, logged + outFiles, ok)
               == ProcessAll(tool, filePath, members[..i], start)
      {
        ProcessStep(tool, filePath, members, i, start);
        var log;
        var m := members[i];
        log, ok := ProcessMember(FullName(filePath, m.name), m.entry, files, host, logged + outFiles);
        Regroup(logged, outFiles, log);
        outFiles := outFiles + log;
        if !ok {
          FailedStays(tool, filePath, members, i + 1, start);
          return;
        }
      }
      assert members[..|members|] == members;
    }

    /** `sorted` of a set. */
    method SortSet(s: set<Path>) returns (q: seq<Path>)
      ensures SortedBy(q, StringLe) && NoDuplicates(q) && forall x :: x in q <==> x in s
    {
      var todo := s;
      q := [];
      while todo != {}
        invariant todo <= s && NoDuplicates(q) && forall x :: x in q <==> x in s - todo
        decreases |todo|
      {
        var x :| x in todo;
        assert x !in q;
        q, todo := q + [x], todo - {x};
      }
      StringsAreOrdered();
      SortIsSorted(q, StringLe);
      SortKeepsDistinct(q, StringLe);
      SortMembers(q, StringLe);
      q := SortStrings(q);
    }

    method DownloadPaths(paths: seq<string>, files: WorkSet, host: Host, ghost logged: seq<FileLog>)
      returns (outFiles: seq<FileLog>, ok: bool)
      modifies files, host
      ensures Run(files.todo, files.handled, host.fs, logged + outFiles, ok)
           == DownloadEach(tool, paths, Run(old(files.todo), old(files.handled), old(host.fs), logged, true))
    {
      outFiles, ok := [], true;
      assert logged + [] == logged;
      ghost var start := Run(files.todo, files.handled, host.fs, logged, true);
      for i := 0 to |paths|
        invariant ok
        invariant Run(files.todo, files.handled, host.fs, logged + outFiles, ok) == DownloadEach(tool, paths[..i], start)
      {
        EachStep(tool, paths, i, start);
        if files.todo == {} {
          NothingToDo(tool, paths[i], DownloadEach(tool, paths[..i], start));
          continue;
        }
        var log;
        log, ok := DownloadFileSet(paths[i], files, host, logged + outFiles);
        Regroup(logged, outFiles, log);
        outFiles := outFiles + log;
        if !ok {
          FailedEach(tool, paths, i + 1, start);
          return;
        }
      }
      assert paths[..|paths|] == paths;
    }

    /** The candidates are those the filters chose; a host exception ends the pass with `ok` false. */
    method DownloadCandidates(candidates: seq<Path>, filePaths: seq<string>, implicitOutput: bool, host: Host)
      returns (outFiles: seq<FileLog>, ok: bool, files: WorkSet)
      requires SortedBy(candidates, StringLe) && NoDuplicates(candidates)
      modifies host
      ensures Run(files.todo, files.handled, host.fs, outFiles, ok)
           == DownloadAll(tool, candidates, filePaths, implicitOutput, old(host.fs))
    {
      files := new WorkSet(Elements(candidates));
      outFiles, ok := [], true;
      ghost var start := Run(files.todo, [], host.fs, [], true);
      if implicitOutput && tool.workDir != "/" {
        outFiles, ok := DownloadFileSet(tool.workDir, files, host, []);
        assert [] + outFiles == outFiles;
      }
      ghost var first := Run(files.todo, files.handled, host.fs, outFiles, ok);
      assert first == DownloadWorkDir(tool, implicitOutput, start);
      if !ok {
        return;
      }
      var log;
      log, ok := DownloadPaths(ExplicitPaths(tool.workDir, filePaths), files, host, outFiles);
      outFiles := outFiles + log;
      ghost var second := Run(files.todo, files.handled, host.fs, outFiles, ok);
      if !ok {
        return;
      }
      if implicitOutput {
        SetShrinks(tool, tool.workDir, start);
        EachShrinks(tool, ExplicitPaths(tool.workDir, filePaths), first);
        if files.todo != {} {
          var filesToLoad := SortSet(files.todo);
          FilterOfSorted(candidates, files.todo, filesToLoad);
          log, ok := DownloadPaths(filesToLoad, files, host, outFiles);
          outFiles := outFiles + log;
        } else {
          NoneLeft(candidates);
        }
      }
      assert Run(files.todo, files.handled, host.fs, outFiles, ok) == DownloadLeft(tool, candidates, implicitOutput, second);
    }
  }

  lemma NoneLeft(candidates: seq<Path>)
    ensures Left(candidates, {}) == []
  {
    var nothing: set<Path> := {};
    var left := Left(candidates, nothing);
    if left != [] {
      FilterMember(candidates, c => c in nothing, left[0]);
    }
  }

  lemma {:induction false} NothingToDoIn(t: Tool, base: string, members: seq<Member>, r: Run)
    requires r.todo == {}
    ensures ProcessAll(t, base, members, r) == r
  {
    if members != [] {
      NothingToDoIn(t, base, members[..|members| - 1], r);
    }
  }

  lemma NothingToDo(t: Tool, path: string, r: Run)
    requires r.todo == {}
    ensures DownloadSet(t, path, r) == r
  {
    if t.container.archive(path).Some? {
      NothingToDoIn(t, path, t.container.archive(path).value, r);
    }
  }

  lemma FailedSet(t: Tool, path: string, r: Run)
    requires !r.ok
    ensures DownloadSet(t, path, r) == r
  {
    if t.container.archive(path).Some? {
      var members := t.container.archive(path).value;
      assert members[..0] == [];
      FailedStays(t, path, members, 0, r);
    }
  }

  lemma {:induction false} FailedEach(t: Tool, paths: seq<string>, i: nat, r: Run)
    requires i <= |paths| && !DownloadEach(t, paths[..i], r).ok
    ensures DownloadEach(t, paths, r) == DownloadEach(t, paths[..i], r)
    decreases |paths| - i
  {
    if i < |paths| {
      EachStep(t, paths, i, r);
      FailedSet(t, paths[i], DownloadEach(t, paths[..i], r));
      FailedEach(t, paths, i + 1, r);
    } else {
      assert paths[..i] == paths;
    }
  }

  lemma FilterOfSorted(candidates: seq<Path>, todo: set<Path>, sorted: seq<Path>)
    requires SortedBy(candidates, StringLe) && NoDuplicates(candidates)
    requires forall c :: c in todo ==> c in candidates
    requires SortedBy(sorted, StringLe) && NoDuplicates(sorted) && forall c :: c in sorted <==> c in todo
    ensures Left(candidates, todo) == sorted
  {
    var picked := Left(candidates, todo);
    FilterKeepsOrder(candidates, StringLe, c => c in todo);
    FilterNoDuplicates(candidates, c => c in todo);
    forall c ensures c in picked <==> c in sorted {
      FilterMember(candidates, c => c in todo, c);
    }
    SortedIsUnique(picked, sorted);
  }

  lemma FirstIsMember(s: seq<Path>)
    ensures s == [] || s[0] in s
  {
  }

  lemma {:induction false} SortedIsUnique(a: seq<Path>, b: seq<Path>)
    requires SortedBy(a, StringLe) && NoDuplicates(a) && SortedBy(b, StringLe) && NoDuplicates(b)
    requires forall x :: x in a <==> x in b
    ensures a == b
  {
    if a == [] {
      FirstIsMember(b);
    } else {
      assert a[0] in b && b[0] in a;
      StringLeTotal(a[0], b[0]);
      assert a[0] == b[0];
      forall x ensures x in a[1..] <==> x in b[1..] {
        assert x in a <==> x == a[0] || x in a[1..];
        assert x in b <==> x == b[0] || x in b[1..];
      }
      SortedIsUnique(a[1..], b[1..]);
      assert a == [a[0]] + a[1..] && b == [b[0]] + b[1..];
    }
  }

  /** After an exception nothing more happens. */
  lemma {:induction false} FailedStays(t: Tool, base: string, members: seq<Member>, i: nat, r: Run)
    requires i <= |members| && !ProcessAll(t, base, members[..i], r).ok
    ensures ProcessAll(t, base, members, r) == ProcessAll(t, base, members[..i], r)
    decreases |members| - i
  {
    if i < |members| {
      ProcessStep(t, base, members, i, r);
      FailedStays(t, base, members, i + 1, r);
    } else {
      assert members[..i] == members;
    }
  }

  // ---------- what every pass keeps ----------

  ghost predicate Holds(t: Tool, base: string, m: Member) {
    t.container.archive(base).Some? && m in t.container.archive(base).value
  }

  /** The archive of one of the paths has this member. */
  ghost predicate Given(t: Tool, bases: set<string>, name: Path, entry: ContainerEntry) {
    exists base, m :: base in bases && Holds(t, base, m) && FullName(base, m.name) == name && m.entry == entry
  }

  /** Processing a member of one of the archives keeps `p`. */
  ghost predicate Keeps(t: Tool, bases: set<string>, p: Run -> bool) {
    forall name, entry, r :: Given(t, bases, name, entry) && p(r) ==> p(Process(t, name, entry, r))
  }

  lemma {:induction false} MembersKeep(t: Tool, bases: set<string>, p: Run -> bool, base: string, members: seq<Member>, r: Run)
    requires Keeps(t, bases, p) && p(r) && base in bases && forall m :: m in members ==> Holds(t, base, m)
    ensures p(ProcessAll(t, base, members, r))
  {
    if members != [] {
      var n := |members| - 1;
      MembersKeep(t, bases, p, base, members[..n], r);
      assert Holds(t, base, members[n]);
      assert Given(t, bases, FullName(base, members[n].name), members[n].entry);
    }
  }

  lemma SetKeeps(t: Tool, bases: set<string>, p: Run -> bool, path: string, r: Run)
    requires Keeps(t, bases, p) && p(r) && path in bases
    ensures p(DownloadSet(t, path, r))
  {
    if t.container.archive(path).Some? {
      MembersKeep(t, bases, p, path, t.container.archive(path).value, r);
    }
  }

  lemma {:induction false} EachKeeps(t: Tool, bases: set<string>, p: Run -> bool, paths: seq<string>, r: Run)
    requires Keeps(t, bases, p) && p(r) && forall path :: path in paths ==> path in bases
    ensures p(DownloadEach(t, paths, r))
  {
    if paths != [] {
      var n := |paths| - 1;
      EachKeeps(t, bases, p, paths[..n], r);
      SetKeeps(t, bases, p, paths[n], DownloadEach(t, paths[..n], r));
    }
  }

  /** The paths whose archives may be asked for. */
  function Bases(t: Tool, candidates: seq<Path>, filePaths: seq<string>, implicitOutput: bool): set<string> {
    Elements(ExplicitPaths(t.workDir, filePaths)) + if implicitOutput then {t.workDir} + Elements(candidates) else {}
  }

  lemma AllKeeps(t: Tool, p: Run -> bool, candidates: seq<Path>, filePaths: seq<string>, implicitOutput: bool, fs: Files)
    requires Keeps(t, Bases(t, candidates, filePaths, implicitOutput), p)
    requires p(Run(Elements(candidates), [], fs, [], true))
    ensures p(DownloadAll(t, candidates, filePaths, implicitOutput, fs))
  {
    var bases := Bases(t, candidates, filePaths, implicitOutput);
    var start := Run(Elements(candidates), [], fs, [], true);
    var first := DownloadWorkDir(t, implicitOutput, start);
    if implicitOutput {
      SetKeeps(t, bases, p, t.workDir, start);
    }
    EachKeeps(t, bases, p, ExplicitPaths(t.workDir, filePaths), first);
    var second := DownloadEach(t, ExplicitPaths(t.workDir, filePaths), first);
    if implicitOutput {
      FilterMembers(candidates, c => c in second.todo);
      EachKeeps(t, bases, p, Left(candidates, second.todo), second);
    }
  }

  // ---------- accounting ----------

  /** Every candidate is still to do or handled, not both, and handled only once. */
  ghost predicate Accounted(all: set<Path>, r: Run) {
    && (forall c :: c in all <==> c in r.todo || c in r.handled)
    && (forall c :: c in r.handled ==> c !in r.todo)
    && NoDuplicates(r.handled)
  }

  lemma Takes(t: Tool, name: Path, entry: ContainerEntry, r: Run)
    ensures var now := Process(t, name, entry, r);
      if r.ok && name in r.todo then now.todo == r.todo - {name} && now.handled == r.handled + [name] else now == r
  {
  }

  lemma AccountingIsKept(t: Tool, bases: set<string>, all: set<Path>)
    ensures Keeps(t, bases, r => Accounted(all, r))
  {
    forall name, entry, r | Given(t, bases, name, entry) && Accounted(all, r)
      ensures Accounted(all, Process(t, name, entry, r))
    {
      Takes(t, name, entry, r);
      OneMoreHandled(all, r, Process(t, name, entry, r), name);
    }
  }

  lemma OneMoreHandled(all: set<Path>, r: Run, now: Run, name: Path)
    requires Accounted(all, r)
    requires now == r || (name in r.todo && now.todo == r.todo - {name} && now.handled == r.handled + [name])
    ensures Accounted(all, now)
  {
    if now != r {
      assert forall c :: c in now.handled <==> c in r.handled || c == name;
    }
  }

  /** So it is at the end of every pass, even one that an exception ended. */
  lemma Accounting(t: Tool, candidates: seq<Path>, filePaths: seq<string>, implicitOutput: bool, fs: Files)
    ensures Accounted(Elements(candidates), DownloadAll(t, candidates, filePaths, implicitOutput, fs))
  {
    var all := Elements(candidates);
    AccountingIsKept(t, Bases(t, candidates, filePaths, implicitOutput), all);
    AllKeeps(t, r => Accounted(all, r), candidates, filePaths, implicitOutput, fs);
  }

  // ---------- everything that is there is handled ----------

  /** Archives tell what the container has, and an archive of a path has that path. */
  ghost predicate HonestArchives(c: Container) {
    && (forall base, i :: c.archive(base).Some? && 0 <= i < |c.archive(base).value| ==>
          var m := c.archive(base).value[i];
          c.entry(FullName(base, m.name)) == Some(m.entry))
    && (forall p :: Normal(p) && c.entry(p).Some? ==>
          c.archive(p).Some? && exists i :: 0 <= i < |c.archive(p).value| && FullName(p, c.archive(p).value[i].name) == p)
  }

  lemma GivenIsThere(t: Tool, bases: set<string>, name: Path, entry: ContainerEntry)
    requires HonestArchives(t.container) && Given(t, bases, name, entry)
    ensures t.container.entry(name) == Some(entry)
  {
    var base, m :| base in bases && Holds(t, base, m) && FullName(base, m.name) == name && m.entry == entry;
    var i :| 0 <= i < |t.container.archive(base).value| && t.container.archive(base).value[i] == m;
  }

  lemma {:induction false} TodoShrinks(t: Tool, base: string, members: seq<Member>, r: Run)
    ensures var now := ProcessAll(t, base, members, r); now.todo <= r.todo && (now.ok ==> r.ok)
  {
    if members != [] {
      var n := |members| - 1;
      TodoShrinks(t, base, members[..n], r);
      Takes(t, FullName(base, members[n].name), members[n].entry, ProcessAll(t, base, members[..n], r));
    }
  }

  lemma SetShrinks(t: Tool, path: string, r: Run)
    ensures var now := DownloadSet(t, path, r); now.todo <= r.todo && (now.ok ==> r.ok)
  {
    if t.container.archive(path).Some? {
      TodoShrinks(t, path, t.container.archive(path).value, r);
    }
  }

  lemma {:induction false} EachShrinks(t: Tool, paths: seq<string>, r: Run)
    ensures var now := DownloadEach(t, paths, r); now.todo <= r.todo && (now.ok ==> r.ok)
  {
    if paths != [] {
      EachShrinks(t, paths[..|paths| - 1], r);
      SetShrinks(t, paths[|paths| - 1], DownloadEach(t, paths[..|paths| - 1], r));
    }
  }

  lemma {:induction false} MembersAreHandled(t: Tool, base: string, members: seq<Member>, r: Run, i: nat)
    requires i < |members| && ProcessAll(t, base, members, r).ok
    ensures FullName(base, members[i].name) !in ProcessAll(t, base, members, r).todo
    decreases |members|
  {
    var n := |members| - 1;
    var before := ProcessAll(t, base, members[..n], r);
    var m := members[n];
    Takes(t, FullName(base, m.name), m.entry, before);
    assert ProcessAll(t, base, members, r) == Process(t, FullName(base, m.name), m.entry, before);
    if i < n {
      assert members[..n][i] == members[i];
      MembersAreHandled(t, base, members[..n], r, i);
    }
  }

  /** Asked for one by one, everything the container has is handled. */
  lemma {:induction false} EachIsHandled(t: Tool, paths: seq<Path>, r: Run)
    requires HonestArchives(t.container) && forall p :: p in paths ==> Normal(p)
    ensures var now := DownloadEach(t, paths, r);
      && now.todo <= r.todo
      && (now.ok ==> r.ok && forall p :: p in paths && t.container.entry(p).Some? ==> p !in now.todo)
  {
    if paths != [] {
      var n := |paths| - 1;
      EachIsHandled(t, paths[..n], r);
      assert paths == paths[..n] + [paths[n]];
      if t.container.archive(paths[n]).Some? {
        var before := DownloadEach(t, paths[..n], r);
        var members := t.container.archive(paths[n]).value;
        TodoShrinks(t, paths[n], members, before);
        if DownloadSet(t, paths[n], before).ok && t.container.entry(paths[n]).Some? {
          var i :| 0 <= i < |members| && FullName(paths[n], members[i].name) == paths[n];
          MembersAreHandled(t, paths[n], members, before, i);
        }
      }
    }
  }

  lemma {:induction false} NothingToDoEach(t: Tool, paths: seq<string>, r: Run)
    requires r.todo == {} || !r.ok
    ensures DownloadEach(t, paths, r) == r
  {
    if paths != [] {
      NothingToDoEach(t, paths[..|paths| - 1], r);
      if r.ok {
        NothingToDo(t, paths[|paths| - 1], r);
      } else {
        FailedSet(t, paths[|paths| - 1], r);
      }
    }
  }

  /** With implicit output the archive of the working directory comes first, and if it has everything or an
      exception ends it, no other is asked for. The root is never asked for as a whole. */
  lemma WorkDirComesFirst(t: Tool, candidates: seq<Path>, filePaths: seq<string>, fs: Files)
    ensures var start := Run(Elements(candidates), [], fs, [], true);
      && (t.workDir != "/" ==>
            var first := DownloadSet(t, t.workDir, start);
            !first.ok || first.todo == {} ==> DownloadAll(t, candidates, filePaths, true, fs) == first)
      && (t.workDir == "/" && filePaths == [] ==>
            DownloadAll(t, candidates, filePaths, true, fs) == DownloadEach(t, candidates, start))
  {
    var start := Run(Elements(candidates), [], fs, [], true);
    if t.workDir != "/" {
      var first := DownloadSet(t, t.workDir, start);
      if first.ok && first.todo == {} {
        NothingToDoEach(t, ExplicitPaths(t.workDir, filePaths), first);
        NothingToDoEach(t, Left(candidates, first.todo), first);
      }
    } else if filePaths == [] {
      assert ExplicitPaths(t.workDir, filePaths) == [];
      FilterEverything(candidates, c => c in start.todo);
    }
  }

  // ---------- what is left ----------

  /** An archive of one of the paths has a member of this full name. */
  ghost predicate InSome(t: Tool, paths: seq<string>, c: Path) {
    exists path, m :: path in paths && Holds(t, path, m) && FullName(path, m.name) == c
  }

  /** What a download may come to: with implicit output whatever the container has, otherwise what
      the archives of the explicit paths have. */
  ghost predicate Asked(t: Tool, filePaths: seq<string>, implicitOutput: bool, c: Path) {
    if implicitOutput then t.container.entry(c).Some? else InSome(t, ExplicitPaths(t.workDir, filePaths), c)
  }

  lemma GivenIsAsked(t: Tool, candidates: seq<Path>, filePaths: seq<string>, implicitOutput: bool, name: Path, entry: ContainerEntry)
    requires implicitOutput ==> HonestArchives(t.container)
    requires Given(t, Bases(t, candidates, filePaths, implicitOutput), name, entry)
    ensures Asked(t, filePaths, implicitOutput, name)
  {
    if implicitOutput {
      GivenIsThere(t, Bases(t, candidates, filePaths, implicitOutput), name, entry);
    }
  }

  /** Candidates that are not asked for stay to do. */
  ghost predicate OthersLeft(t: Tool, all: set<Path>, filePaths: seq<string>, implicitOutput: bool, r: Run) {
    forall c :: c in all && !Asked(t, filePaths, implicitOutput, c) ==> c in r.todo
  }

  lemma OthersStay(t: Tool, candidates: seq<Path>, filePaths: seq<string>, implicitOutput: bool, all: set<Path>)
    requires implicitOutput ==> HonestArchives(t.container)
    ensures Keeps(t, Bases(t, candidates, filePaths, implicitOutput), r => OthersLeft(t, all, filePaths, implicitOutput, r))
  {
    forall name, entry, r |
      Given(t, Bases(t, candidates, filePaths, implicitOutput), name, entry) && OthersLeft(t, all, filePaths, implicitOutput, r)
      ensures OthersLeft(t, all, filePaths, implicitOutput, Process(t, name, entry, r))
    {
      GivenIsAsked(t, candidates, filePaths, implicitOutput, name, entry);
      Takes(t, name, entry, r);
    }
  }

  /** Only what is asked for is ever handled, also in a run that an exception ended. */
  lemma HandledIsAsked(t: Tool, candidates: seq<Path>, filePaths: seq<string>, implicitOutput: bool, fs: Files)
    requires implicitOutput ==> HonestArchives(t.container)
    ensures var r := DownloadAll(t, candidates, filePaths, implicitOutput, fs);
      forall c :: c in r.handled ==> c in candidates && Asked(t, filePaths, implicitOutput, c)
  {
    var all := Elements(candidates);
    OthersStay(t, candidates, filePaths, implicitOutput, all);
    AllKeeps(t, r => OthersLeft(t, all, filePaths, implicitOutput, r), candidates, filePaths, implicitOutput, fs);
    Accounting(t, candidates, filePaths, implicitOutput, fs);
  }

  lemma MemberIsTaken(t: Tool, path: string, r: Run, m: Member)
    requires Holds(t, path, m) && DownloadSet(t, path, r).ok
    ensures FullName(path, m.name) !in DownloadSet(t, path, r).todo
  {
    var members := t.container.archive(path).value;
    var i :| 0 <= i < |members| && members[i] == m;
    MembersAreHandled(t, path, members, r, i);
  }

  lemma {:induction false} PathIsTaken(t: Tool, paths: seq<string>, r: Run, i: nat, m: Member, c: Path)
    requires i < |paths| && Holds(t, paths[i], m) && c == FullName(paths[i], m.name) && DownloadEach(t, paths, r).ok
    ensures c !in DownloadEach(t, paths, r).todo
  {
    var n := |paths| - 1;
    var before := DownloadEach(t, paths[..n], r);
    SetShrinks(t, paths[n], before);
    if i == n {
      MemberIsTaken(t, paths[n], before, m);
    } else {
      PathIsTaken(t, paths[..n], r, i, m, c);
    }
  }

  /** Everything in an archive that is asked for is handled. */
  lemma EachIsTaken(t: Tool, paths: seq<string>, r: Run, c: Path)
    requires InSome(t, paths, c) && DownloadEach(t, paths, r).ok
    ensures c !in DownloadEach(t, paths, r).todo
  {
    var path, m :| path in paths && Holds(t, path, m) && FullName(path, m.name) == c;
    var i: nat :| i < |paths| && paths[i] == path;
    PathIsTaken(t, paths, r, i, m, c);
  }

  /** If no exception ends it, what is left to do at the end is what was not asked for. */
  lemma LeftExactly(t: Tool, candidates: seq<Path>, filePaths: seq<string>, implicitOutput: bool, fs: Files)
    requires implicitOutput ==> HonestArchives(t.container) && forall c :: c in candidates ==> Normal(c)
    requires DownloadAll(t, candidates, filePaths, implicitOutput, fs).ok
    ensures DownloadAll(t, candidates, filePaths, implicitOutput, fs).todo
         == set c | c in candidates && !Asked(t, filePaths, implicitOutput, c)
  {
    var r := DownloadAll(t, candidates, filePaths, implicitOutput, fs);
    HandledIsAsked(t, candidates, filePaths, implicitOutput, fs);
    Accounting(t, candidates, filePaths, implicitOutput, fs);
    forall c | c in r.todo ensures !Asked(t, filePaths, implicitOutput, c) {
      AskedIsTaken(t, candidates, filePaths, implicitOutput, fs, c);
    }
  }

  lemma AskedIsTaken(t: Tool, candidates: seq<Path>, filePaths: seq<string>, implicitOutput: bool, fs: Files, c: Path)
    requires implicitOutput ==> HonestArchives(t.container) && forall c :: c in candidates ==> Normal(c)
    requires DownloadAll(t, candidates, filePaths, implicitOutput, fs).ok
    requires c in DownloadAll(t, candidates, filePaths, implicitOutput, fs).todo && c in candidates
    ensures !Asked(t, filePaths, implicitOutput, c)
  {
    var start := Run(Elements(candidates), [], fs, [], true);
    var first := DownloadWorkDir(t, implicitOutput, start);
    var second := DownloadEach(t, ExplicitPaths(t.workDir, filePaths), first);
    if implicitOutput {
      var left := Left(candidates, second.todo);
      FilterMembers(candidates, c => c in second.todo);
      EachIsHandled(t, left, second);
    } else if InSome(t, ExplicitPaths(t.workDir, filePaths), c) {
      EachIsTaken(t, ExplicitPaths(t.workDir, filePaths), first, c);
    }
  }

  /** With implicit output, what is left to do at the end is what the container does not have,
      whatever paths were given explicitly and whatever the working directory is. */
  lemma LeftIsAbsent(t: Tool, candidates: seq<Path>, filePaths: seq<string>, fs: Files)
    requires HonestArchives(t.container) && forall c :: c in candidates ==> Normal(c)
    requires DownloadAll(t, candidates, filePaths, true, fs).ok
    ensures DownloadAll(t, candidates, filePaths, true, fs).todo
         == set c | c in candidates && t.container.entry(c).None?
  {
    LeftExactly(t, candidates, filePaths, true, fs);
  }
}
