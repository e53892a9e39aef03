/**
 Packing the uploads: every directory on the way to an archive name is a member of the tar
 before the name itself, so that the container never has to make one up.
 */
module UploadTar {
  import opened Sequences
  import opened Text
  import opened Paths
  import opened Bytes
  import opened CommandLogs
  import opened HostFiles
  import opened Downloads
  import opened Uploads

  /** A directory made up on the way, one made for output, or a file or directory of the host. */
  datatype TarMember =
    | Synthesised(name: string)
    | NewDirectory(name: string)
    | Stored(name: string, entry: HostEntry, mtime: real)

  /** A clock that does not run backwards. */
  class Clock {
    var time: real

    constructor (time: real)
      ensures this.time == time
    {
      this.time := time;
    }

    method Now() returns (now: real)
      modifies this
      ensures old(time) <= now == time
    {
      var passed: real :| passed >= 0.0;
      time := time + passed;
      now := time;
    }
  }

  function EntryAt(fs: Files, p: Path): HostEntry {
    if p in fs then fs[p] else HostDirectory
  }

  function SizeOf(entry: HostEntry): nat {
    if entry.HostFile? then |entry.content| else 0
  }

  function MemberOf(v: View, u: Upload): TarMember {
    if Exists(v.fs, u.hostFile) then Stored(u.arcName, EntryAt(v.fs, u.hostFile), v.mtime(u.hostFile))
    else NewDirectory(u.arcName)
  }

  /** The log of the files read, with the digests of their contents. */
  function InFiles(v: View, uploads: seq<Upload>, digest: Digest): seq<FileLog> {
    if uploads == [] then []
    else
      var h := uploads[|uploads| - 1].hostFile;
      InFiles(v, uploads[..|uploads| - 1], digest) +
      if IsFile(v.fs, h) then [FileLog(v.resolve(h), digest(EntryAt(v.fs, h).content))] else []
  }

  ghost function ArcAncestors(uploads: seq<Upload>): set<Path> {
    set u, a | u in uploads && a in Ancestors(Parse(u.arcName)) :: a
  }

  /** The made-up directories are `dirs`, each once; the other members are those of the uploads;
      and before each of these come all the directories on the way to it. */
  ghost predicate Packed(v: View, uploads: seq<Upload>, tar: seq<TarMember>, dirs: set<Path>) {
    && (forall a :: a in dirs <==> Synthesised(a) in tar)
    && (forall i, j :: 0 <= i < j < |tar| && tar[i].Synthesised? ==> tar[i] != tar[j])
    && (forall m :: m in tar && !m.Synthesised? ==> exists u :: u in uploads && MemberOf(v, u) == m)
    && (forall u :: u in uploads ==> MemberOf(v, u) in tar)
    && (forall i :: 0 <= i < |tar| && !tar[i].Synthesised? ==> Preceded(tar, i))
  }

  ghost predicate Preceded(tar: seq<TarMember>, i: nat)
    requires i < |tar|
  {
    forall a :: a in Ancestors(Parse(tar[i].name)) ==> Synthesised(a) in tar[..i]
  }

  /** The statistics of what was uploaded, stamped between the two times. */
  ghost predicate Recorded(v: View, uploads: seq<Upload>, stats: map<string, UploadStat>, from: real, to: real) {
    && (forall u :: u in uploads && Exists(v.fs, u.hostFile) ==> u.arcName in stats)
    && (forall n :: n in stats ==> exists u :: u in uploads && u.arcName == n && StatOf(v, u, stats[n], from, to))
  }

  ghost predicate StatOf(v: View, u: Upload, stat: UploadStat, from: real, to: real) {
    && Exists(v.fs, u.hostFile)
    && stat.size == SizeOf(EntryAt(v.fs, u.hostFile)) && stat.mtime == v.mtime(u.hostFile)
    && from <= stat.uploaded <= to
  }

  lemma OneMoreStat(v: View, uploads: seq<Upload>, stats: map<string, UploadStat>, from: real, to: real, u: Upload,
                    now: real)
    requires Recorded(v, uploads, stats, from, to) && from <= to <= now
    ensures !Exists(v.fs, u.hostFile) ==> Recorded(v, uploads + [u], stats, from, to)
    ensures Exists(v.fs, u.hostFile) ==>
      var stat := UploadStat(SizeOf(EntryAt(v.fs, u.hostFile)), v.mtime(u.hostFile), now);
      Recorded(v, uploads + [u], stats[u.arcName := stat], from, now)
  {
    assert u in uploads + [u];
    forall n | n in stats ensures exists w :: w in uploads + [u] && w.arcName == n && StatOf(v, w, stats[n], from, to) {
      var w :| w in uploads && w.arcName == n && StatOf(v, w, stats[n], from, to);
      assert w in uploads + [u];
    }
    if Exists(v.fs, u.hostFile) {
      var stat := UploadStat(SizeOf(EntryAt(v.fs, u.hostFile)), v.mtime(u.hostFile), now);
      var more := stats[u.arcName := stat];
      forall n | n in more ensures exists w :: w in uploads + [u] && w.arcName == n && StatOf(v, w, more[n], from, now) {
        if n == u.arcName {
          assert StatOf(v, u, more[n], from, now);
        } else {
          var w :| w in uploads && w.arcName == n && StatOf(v, w, stats[n], from, to);
          assert w in uploads + [u] && StatOf(v, w, more[n], from, now);
        }
      }
    }
  }

  lemma OneMoreArc(uploads: seq<Upload>, u: Upload)
    ensures ArcAncestors(uploads + [u]) == ArcAncestors(uploads) + Ancestors(Parse(u.arcName))
  {
    assert forall w :: w in uploads + [u] <==> w in uploads || w == u;
  }

  class TarWriter {
    const view: View
    const digest: Digest
    var tar: seq<TarMember>
    var dirs: set<Path>
    var stats: map<string, UploadStat>
    var inFiles: seq<FileLog>

    constructor (view: View, digest: Digest)
      ensures this.view == view && this.digest == digest
      ensures tar == [] && dirs == {} && stats == map[] && inFiles == []
    {
      this.view, this.digest := view, digest;
      tar, dirs, stats, inFiles := [], {}, map[], [];
    }

    /** Adds the directories on the way to an archive name, unless they were added before. */
    method AddParents(arcName: string, ghost uploads: seq<Upload>)
      requires !IsAbsolute(arcName) && Packed(view, uploads, tar, dirs)
      modifies `tar, `dirs
      ensures Packed(view, uploads, tar, dirs)
      ensures dirs == old(dirs) + Ancestors(Parse(arcName))
    {
      var p := Parse(arcName);
      ParseIsRelative(arcName);
      var parent := Parent(p);
      AncestorsStep(p);
      ParentIsRelative(p);
      while parent != "."
        invariant !IsAbsolute(parent)
        invariant Packed(view, uploads, tar, dirs)
        invariant dirs + WithAncestors(parent) == old(dirs) + Ancestors(p)
        decreases Depth(parent)
      {
        if parent !in dirs {
          AddSynthesised(view, uploads, tar, dirs, parent);
          dirs := dirs + {parent};
          tar := tar + [Synthesised(parent)];
        }
        AncestorsStep(parent);
        ParentIsRelative(parent);
        parent := Parent(parent);
      }
    }

    /** Adds one upload. */
    method AddUpload(u: Upload, clock: Clock, ghost uploads: seq<Upload>, ghost from: real)
      requires !IsAbsolute(u.arcName) && Packed(view, uploads, tar, dirs) && dirs == ArcAncestors(uploads)
      requires Recorded(view, uploads, stats, from, clock.time) && from <= clock.time
      requires inFiles == InFiles(view, uploads, digest)
      modifies this, clock
      ensures Packed(view, uploads + [u], tar, dirs) && dirs == ArcAncestors(uploads + [u])
      ensures Recorded(view, uploads + [u], stats, from, clock.time) && from <= clock.time
      ensures inFiles == InFiles(view, uploads + [u], digest)
    {
      PackUpload(u, uploads);
      AddStat(u, clock, uploads, from);
      LogFile(u, uploads);
    }

    method PackUpload(u: Upload, ghost uploads: seq<Upload>)
      requires !IsAbsolute(u.arcName) && Packed(view, uploads, tar, dirs) && dirs == ArcAncestors(uploads)
      modifies `tar, `dirs
      ensures Packed(view, uploads + [u], tar, dirs) && dirs == ArcAncestors(uploads + [u])
    {
      AddParents(u.arcName, uploads);
      AddMember(view, uploads, tar, dirs, u);
      OneMoreArc(uploads, u);
      tar := tar + [MemberOf(view, u)];
    }

    /** The log entry of an uploaded file. */
    method LogFile(u: Upload, ghost uploads: seq<Upload>)
      requires inFiles == InFiles(view, uploads, digest)
      modifies `inFiles
      ensures inFiles == InFiles(view, uploads + [u], digest)
    {
      assert (uploads + [u])[..|uploads|] == uploads;
      if IsFile(view.fs, u.hostFile) {
        var source := new Source(EntryAt(view.fs, u.hostFile).content);
        var md := ReadWithHash(source, null, digest);
        inFiles := inFiles + [FileLog(view.resolve(u.hostFile), md)];
      }
    }

    /** Size, modification time and the present time of an upload that exists. */
    method AddStat(u: Upload, clock: Clock, ghost uploads: seq<Upload>, ghost from: real)
      requires Recorded(view, uploads, stats, from, clock.time) && from <= clock.time
      modifies `stats, clock
      ensures Recorded(view, uploads + [u], stats, from, clock.time) && from <= clock.time
    {
      ghost var to := clock.time;
      if Exists(view.fs, u.hostFile) {
        var now := clock.Now();
        OneMoreStat(view, uploads, stats, from, to, u, now);
        stats := stats[u.arcName := UploadStat(SizeOf(EntryAt(view.fs, u.hostFile)), view.mtime(u.hostFile), now)];
      } else {
        OneMoreStat(view, uploads, stats, from, to, u, to);
      }
    }

    /** Packs all uploads. */
    method CreateTar(uploads: seq<Upload>, clock: Clock)
      requires tar == [] && dirs == {} && stats == map[] && inFiles == []
      requires forall u :: u in uploads ==> !IsAbsolute(u.arcName)
      modifies this, clock
      ensures Packed(view, uploads, tar, dirs) && dirs == ArcAncestors(uploads)
      ensures Recorded(view, uploads, stats, old(clock.time), clock.time)
      ensures inFiles == InFiles(view, uploads, digest)
    {
      ghost var from := clock.time;
      for i := 0 to |uploads|
        invariant Packed(view, uploads[..i], tar, dirs) && dirs == ArcAncestors(uploads[..i])
        invariant Recorded(view, uploads[..i], stats, from, clock.time) && from <= clock.time
        invariant inFiles == InFiles(view, uploads[..i], digest)
      {
        TakeOneMore(uploads, i);
        AddUpload(uploads[i], clock, uploads[..i], from);
      }
      assert uploads[..|uploads|] == uploads;
    }
  }

  lemma ParseIsRelative(raw: string)
    requires !IsAbsolute(raw)
    ensures !IsAbsolute(Parse(raw))
  {
    var names := NamesOf(raw);
    if names != [] {
      SplitThenJoin(raw, '/');
      FilterMembers(Split(raw, '/'), IsName);
      NamesOfJoin(names);
    }
  }

  lemma AddSynthesised(v: View, uploads: seq<Upload>, tar: seq<TarMember>, dirs: set<Path>, a: Path)
    requires Packed(v, uploads, tar, dirs) && a !in dirs
    ensures Packed(v, uploads, tar + [Synthesised(a)], dirs + {a})
  {
    var now := tar + [Synthesised(a)];
    forall i | 0 <= i < |now| && !now[i].Synthesised? ensures Preceded(now, i) {
      assert now[..i] == tar[..i] && Preceded(tar, i);
    }
  }

  lemma AddMember(v: View, uploads: seq<Upload>, tar: seq<TarMember>, dirs: set<Path>, u: Upload)
    requires Packed(v, uploads, tar, dirs) && Ancestors(Parse(u.arcName)) <= dirs
    ensures Packed(v, uploads + [u], tar + [MemberOf(v, u)], dirs)
  {
    var m := MemberOf(v, u);
    var now := tar + [m];
    forall i | 0 <= i < |now| && !now[i].Synthesised? ensures Preceded(now, i) {
      if i < |tar| {
        assert now[..i] == tar[..i] && Preceded(tar, i);
      } else {
        assert now[..i] == tar;
      }
    }
    assert u in uploads + [u];
  }

  // ---------- what is in the tar ----------

  ghost predicate HasMember(tar: seq<TarMember>, name: string) {
    exists m :: m in tar && m.name == name
  }

  /** An archive name leads to a path: it is the path or lies below it. */
  ghost predicate ArcLeadsTo(u: Upload, p: Path) {
    p == u.arcName || p in Ancestors(Parse(u.arcName))
  }

  /** The members are the archive names and the directories on the way to them. */
  lemma MembersExactly(v: View, uploads: seq<Upload>, tar: seq<TarMember>, name: string)
    requires Packed(v, uploads, tar, ArcAncestors(uploads))
    ensures HasMember(tar, name) <==> exists u :: u in uploads && ArcLeadsTo(u, name)
  {
    if m :| m in tar && m.name == name {
      if m.Synthesised? {
        assert name in ArcAncestors(uploads);
      } else {
        var u :| u in uploads && MemberOf(v, u) == m;
        assert ArcLeadsTo(u, name);
      }
    }
    if u :| u in uploads && ArcLeadsTo(u, name) {
      if name == u.arcName {
        assert MemberOf(v, u) in tar;
      } else {
        assert name in ArcAncestors(uploads);
        assert Synthesised(name) in tar;
      }
    }
  }

  /** In plain text: a host file is packed with its content and time, a directory as one, and what is missing
      becomes a new directory. */
  lemma PackedInPlainText(v: View, uploads: seq<Upload>, tar: seq<TarMember>, u: Upload)
    requires Packed(v, uploads, tar, ArcAncestors(uploads)) && u in uploads && Named(u.hostFile)
    ensures u.hostFile in v.fs ==> Stored(u.arcName, v.fs[u.hostFile], v.mtime(u.hostFile)) in tar
    ensures u.hostFile !in v.fs ==> NewDirectory(u.arcName) in tar
  {
    assert MemberOf(v, u) in tar;
  }

  /** The statistics of an archive name are the length of the host file of that name, its time, and a time
      during the upload. */
  lemma RecordedInPlainText(v: View, uploads: seq<Upload>, stats: map<string, UploadStat>, from: real, to: real, n: string,
                            h: Path, content: Data)
    requires Recorded(v, uploads, stats, from, to) && Upload(h, n) in uploads
    requires forall u :: u in uploads && u.arcName == n ==> u.hostFile == h
    requires h in v.fs && v.fs[h] == HostFile(content)
    ensures n in stats && stats[n].size == |content| && stats[n].mtime == v.mtime(h) && from <= stats[n].uploaded <= to
  {
    var u :| u in uploads && u.arcName == n && StatOf(v, u, stats[n], from, to);
  }

  /** Archive names are relative, so looking for the directories on the way to one ends. */
  lemma ArchiveNamesAreRelative(v: View, f: Path)
    requires ValidNames(v)
    ensures !IsAbsolute(UploadOf(v, f).arcName)
  {
    if UseAbsolutePath(f) && v.resolve(f) != "/" {
      NormalHasNames(v.resolve(f));
      AllNamesIsNormal(v.resolve(f)[1..]);
    }
  }

  /** Two host files share an archive name exactly when one is relative and the other is the
      same path from the root. */
  lemma ArchiveNamesCollide(v: View, f: Path, g: Path)
    requires ValidNames(v)
    ensures var a, b := UploadOf(v, f), UploadOf(v, g);
      a.arcName == b.arcName <==>
        a.hostFile == b.hostFile || a.hostFile == "/" + b.hostFile || b.hostFile == "/" + a.hostFile
  {
    var a, b := UploadOf(v, f), UploadOf(v, g);
    ArchiveNamesAreRelative(v, f);
    ArchiveNamesAreRelative(v, g);
    assert IsAbsolute(a.hostFile) ==> a.hostFile == "/" + a.arcName;
    assert IsAbsolute(b.hostFile) ==> b.hostFile == "/" + b.arcName;
    assert !IsAbsolute(a.hostFile) ==> a.hostFile == a.arcName;
    assert !IsAbsolute(b.hostFile) ==> b.hostFile == b.arcName;
  }

  /** What is uploaded of a command line. */
  ghost predicate UploadsOf(v: View, files: set<Path>, outputDirs: set<Path>, uploads: seq<Upload>) {
    forall u :: u in uploads <==> exists f :: f in Detected(v.fs, files, outputDirs) && UploadOf(v, f) == u
  }

  lemma {:induction false} NearestIsOnTheWay(fs: Files, f: Path)
    requires Named(f)
    ensures Nearest(fs, f) in Parents(f)
    decreases Depth(f)
  {
    if !Exists(fs, Parent(f)) {
      NearestIsOnTheWay(fs, Parent(f));
    }
  }

  /** A directory on the way to a path without ".." is itself without "..". */
  lemma NoDotsAbove(a: Path, p: Path)
    requires Named(a) && a in Parents(p) && Find(p, "..", 0).None?
    ensures Find(a, "..", 0).None?
  {
    ParentsAreNonempty(p);
    ParentIsPrefix(a, p);
    if Find(a, "..", 0).Some? {
      assert OccursAt(p, "..", Find(a, "..", 0).value);
    }
  }

  /** Packing a listed file covers a path: it is the archive name of the file or leads to it. */
  ghost predicate Covers(v: View, g: Path, p: Path) {
    if UseAbsolutePath(g) then "/" + p in {v.resolve(g)} + Parents(v.resolve(g)) else p in {g} + Parents(g)
  }

  lemma CoversByName(v: View, g: Path, p: Path)
    requires ValidNames(v) && Normal(g) && p != "" && Named(p) && !IsAbsolute(p)
    ensures ArcLeadsTo(UploadOf(v, g), p) <==> Covers(v, g, p)
  {
    if UseAbsolutePath(g) {
      CoversFromTheRoot(v.resolve(g), v.resolve(g)[1..], p);
    }
  }

  lemma CoversFromTheRoot(r: Path, x: Path, p: Path)
    requires Normal(r) && r == "/" + x && p != "" && Named(p) && !IsAbsolute(p)
    ensures "/" + p in {r} + Parents(r) <==> p == x || p in Ancestors(Parse(x))
  {
    if x == "" {
      HereHasNoNames();
    } else {
      NormalHasNames(r);
      assert r[1..] == x;
      AllNamesIsNormal(x);
      RootedParents(p, x);
      assert ("/" + p)[1..] == p;
    }
  }

  /** Something that is uploaded for these files covers the path. */
  ghost predicate Covered(v: View, files: set<Path>, p: Path) {
    exists g :: g in files && Covers(v, g, p)
  }

  lemma {:induction false} NearestIsNormal(fs: Files, f: Path)
    requires Normal(f)
    ensures Normal(Nearest(fs, f))
    decreases Depth(f)
  {
    if Named(f) {
      ParentsAreNormal(Parent(f), f);
      if !Exists(fs, Parent(f)) {
        NearestIsNormal(fs, Parent(f));
      }
    }
  }

  lemma DetectedIsNormal(v: View, files: set<Path>, outputDirs: set<Path>)
    requires AllNormal(files)
    ensures AllNormal(Detected(v.fs, files, outputDirs))
  {
    forall g | g in Detected(v.fs, files, outputDirs) ensures Normal(g) {
      if g !in files {
        var m :| m in files && Nearest(v.fs, m) == g;
        NearestIsNormal(v.fs, m);
      }
    }
  }

  /** The directories added for missing files. */
  ghost function Added(v: View, files: set<Path>, outputDirs: set<Path>): set<Path> {
    set m | m in files && !Exists(v.fs, m) && Nearest(v.fs, m) !in LeadTo(Kept(v.fs, files, outputDirs)) :: Nearest(v.fs, m)
  }

  lemma DetectedIsKeptAndAdded(v: View, files: set<Path>, outputDirs: set<Path>)
    ensures Detected(v.fs, files, outputDirs) == Kept(v.fs, files, outputDirs) + Added(v, files, outputDirs)
  {
    var missing := set f | f in files && !Exists(v.fs, f);
    assert NearestOutside(v.fs, missing, LeadTo(Kept(v.fs, files, outputDirs))) == Added(v, files, outputDirs);
  }

  lemma HasMemberExactly(v: View, files: set<Path>, outputDirs: set<Path>, uploads: seq<Upload>, tar: seq<TarMember>, p: Path)
    requires ValidNames(v) && AllNormal(files)
    requires Packed(v, uploads, tar, ArcAncestors(uploads)) && UploadsOf(v, files, outputDirs, uploads)
    requires p != "" && Named(p) && !IsAbsolute(p)
    ensures HasMember(tar, p) <==> Covered(v, Detected(v.fs, files, outputDirs), p)
  {
    MembersExactly(v, uploads, tar, p);
    DetectedIsNormal(v, files, outputDirs);
    if u :| u in uploads && ArcLeadsTo(u, p) {
      var g :| g in Detected(v.fs, files, outputDirs) && UploadOf(v, g) == u;
      CoversByName(v, g, p);
    }
    if g :| g in Detected(v.fs, files, outputDirs) && Covers(v, g, p) {
      CoversByName(v, g, p);
      assert UploadOf(v, g) in uploads;
    }
  }

  /** The nearest existing directory of a missing relative file is in the tar exactly when, by
      their text, the kept files do not lead through it, or when the name of a kept file in the
      archive does, or that of a directory added for another missing file. */
  lemma NearestIsMemberExactly(v: View, files: set<Path>, outputDirs: set<Path>, uploads: seq<Upload>, tar: seq<TarMember>,
                               f: Path, p: Path)
    requires ValidNames(v) && AllNormal(files)
    requires Packed(v, uploads, tar, ArcAncestors(uploads)) && UploadsOf(v, files, outputDirs, uploads)
    requires f in files && !Exists(v.fs, f) && !UseAbsolutePath(f) && IsNearest(v.fs, f, p) && p != "."
    ensures var kept := Kept(v.fs, files, outputDirs);
      HasMember(tar, p) <==> p !in LeadTo(kept) || Covered(v, kept, p) || Covered(v, Added(v, files, outputDirs) - {p}, p)
  {
    NearestExactly(v.fs, f, p);
    NearestOfRelative(v.fs, f);
    HasMemberExactly(v, files, outputDirs, uploads, tar, p);
    DetectedIsKeptAndAdded(v, files, outputDirs);
    if p !in LeadTo(Kept(v.fs, files, outputDirs)) {
      assert p in Added(v, files, outputDirs) && Covers(v, p, p);
    }
  }

  lemma NearestOfRelative(fs: Files, f: Path)
    requires Named(f) && !UseAbsolutePath(f) && Nearest(fs, f) != "."
    ensures var p := Nearest(fs, f); p != "" && Named(p) && !UseAbsolutePath(p)
  {
    NearestIsOnTheWay(fs, f);
    ParentsKeepKind(Nearest(fs, f), f);
    ParentsAreNonempty(f);
    NoDotsAbove(Nearest(fs, f), f);
  }

  /** When no listed path is relative with ".." in it, the tool finds the nearest directory of
      every output file in the container. */
  lemma NearestIsMember(v: View, files: set<Path>, outputDirs: set<Path>, uploads: seq<Upload>, tar: seq<TarMember>, f: Path,
                        p: Path)
    requires ValidNames(v) && AllNormal(files)
    requires Packed(v, uploads, tar, ArcAncestors(uploads)) && UploadsOf(v, files, outputDirs, uploads)
    requires forall g :: g in files ==> IsAbsolute(g) || Find(g, "..", 0).None?
    requires f in files && !Exists(v.fs, f) && !IsAbsolute(f) && IsNearest(v.fs, f, p)
    ensures p == "." || HasMember(tar, p)
  {
    if p != "." {
      NearestExactly(v.fs, f, p);
      NearestIsMemberExactly(v, files, outputDirs, uploads, tar, f, p);
      NearestOfRelative(v.fs, f);
      if g :| g in Kept(v.fs, files, outputDirs) && p in {g} + Parents(g) {
        if p != g {
          ParentsKeepKind(p, g);
        }
        assert Covers(v, g, p);
      }
    }
  }

  // ---------- where the nearest directory is missing ----------

  ghost predicate Word(n: string) {
    IsName(n) && forall c :: c in n ==> c != '/' && c != '.' && c != ' '
  }

  function Inside(d: Path, n: string): Path {
    d + "/" + n
  }

  function Beside(d: Path, n: string): Path {
    Inside(Inside(d, ".."), n)
  }

  /** With ".." it does happen, for a file in a directory `d` on the command line, where `d/../n` is an
      output directory: that is packed under another name, but by its text leads through `d`, so that
      `d` is not packed for the file. */
  lemma DotsHideADirectory(v: View, split: string -> seq<string>, d: string, n: string, file: string, dirs: set<Path>,
                           files: set<Path>, uploads: seq<Upload>, tar: seq<TarMember>)
    requires ValidNames(v) && Word(d) && Word(n) && Word(file) && split(Inside(d, file)) == [Inside(d, file)]
    requires IsDirectory(v.fs, d) && !Exists(v.fs, Inside(d, file))
    requires !AtOrBelow(d, v.resolve(Beside(d, n)))
    requires dirs == Elements(ParseAll([Beside(d, n)])) && files == AfterArgs(v, dirs, split, [Inside(d, file)])
    requires Packed(v, uploads, tar, ArcAncestors(uploads)) && UploadsOf(v, files, dirs, uploads)
    ensures Inside(d, file) in files && Nearest(v.fs, Inside(d, file)) == d && !HasMember(tar, d)
  {
    InsideIsNormal(d, file);
    BesideIsNormal(d, n);
    var p, q := Inside(d, file), Beside(d, n);
    assert ParseAll([q]) == [q];
    assert dirs == {q};
    assert AfterArgs(v, dirs, split, []) == dirs;
    assert AfterArgs(v, dirs, split, [p]) == AfterArg(v, dirs, split, dirs, p);
    OneMissing(v, split, dirs, dirs, p, d);
    AllKept(v, {q}, {q}, p, d, q);
    Hidden(v, {q}, {q}, p, d, uploads, tar);
  }

  /** It also happens without output directories, for the arguments `d/..` and `d/file`: the contents of
      `d/..` are packed by their resolved names, but `d/../d` leads through `d` by its text. */
  lemma UpHidesADirectory(v: View, split: string -> seq<string>, d: string, file: string, args: seq<string>,
                          files: set<Path>, uploads: seq<Upload>, tar: seq<TarMember>)
    requires ValidView(v) && Word(d) && Word(file) && split(Inside(d, file)) == [Inside(d, file)]
    requires IsDirectory(v.fs, d) && !Exists(v.fs, Inside(d, file))
    requires IsDirectory(v.fs, Inside(d, "..")) && Exists(v.fs, Beside(d, d))
    requires var r := v.resolve(Inside(d, "..")); Exists(v.fs, r) && r != "/"
    requires AllElsewhere(v, UpItems(v, Inside(d, "..")), d)
    requires |args| == 2 && args[0] == Inside(d, "..") && args[1] == Inside(d, file)
    requires files == AfterArgs(v, {}, split, args)
    requires Packed(v, uploads, tar, ArcAncestors(uploads)) && UploadsOf(v, files, {}, uploads)
    ensures Inside(d, file) in files && Nearest(v.fs, Inside(d, file)) == d && !HasMember(tar, d)
  {
    UpArguments(v, split, d, file);
    UpIsDotted(v, d);
    UpAndMissing(v, split, Inside(d, ".."), Inside(d, file), d, args);
    UpHides(v, split, Inside(d, ".."), Inside(d, file), d, Beside(d, d), UpItems(v, Inside(d, "..")), uploads, tar);
  }

  lemma UpArguments(v: View, split: string -> seq<string>, d: string, file: string)
    requires Word(d) && Word(file) && split(Inside(d, file)) == [Inside(d, file)]
    requires IsDirectory(v.fs, d) && !Exists(v.fs, Inside(d, file))
    requires IsDirectory(v.fs, Inside(d, "..")) && Exists(v.fs, Beside(d, d))
    requires var r := v.resolve(Inside(d, "..")); Exists(v.fs, r) && r != "/"
    ensures UpArgument(v, Inside(d, "..")) && MissingIn(v, split, Inside(d, file), d)
    ensures Beside(d, d) in Below(v.fs, Inside(d, "..")) && d in Parents(Beside(d, d)) && d != "." && !IsAbsolute(d)
  {
    InsideIsNormal(d, file);
    BesideIsNormal(d, d);
    UpIsNormal(d);
    BesideIsBelow(v, d);
    assert d[0] in d;
  }

  lemma UpHides(v: View, split: string -> seq<string>, up: Path, p: Path, d: Path, q: Path, items: set<Path>,
                uploads: seq<Upload>, tar: seq<TarMember>)
    requires ValidNames(v) && UpArgument(v, up) && MissingIn(v, split, p, d) && d != "." && !IsAbsolute(d)
    requires q in Below(v.fs, up) && d in Parents(q) && items == UpItems(v, up) && AllNormal(items)
    requires AllDotted(items) && AllElsewhere(v, items, d)
    requires Packed(v, uploads, tar, ArcAncestors(uploads)) && UploadsOf(v, items + {p}, {}, uploads)
    ensures !HasMember(tar, d)
  {
    UpIsKept(v, split, up, p, d, q);
    Hidden(v, items, {}, p, d, uploads, tar);
  }

  /** What is listed for a directory that is named by "..": it and everything below it. */
  ghost function UpItems(v: View, up: Path): set<Path> {
    {v.resolve(up)} + Below(v.fs, up)
  }

  /** An argument that is one missing file in the directory. */
  ghost predicate MissingIn(v: View, split: string -> seq<string>, p: Path, d: Path) {
    && split(p) == [p] && Parse(p) == p && !Exists(v.fs, p) && !UseAbsolutePath(p) && ' ' !in p
    && d in Ancestors(p) && IsDirectory(v.fs, d) && Nearest(v.fs, p) == d
  }

  /** An argument that names a directory by "..", and the directory is not the root. */
  ghost predicate UpArgument(v: View, up: Path) {
    && Parse(up) == up && IsDirectory(v.fs, up) && !AllSlashes(up) && UseAbsolutePath(up)
    && v.resolve(up) != "/" && Exists(v.fs, v.resolve(up))
  }

  lemma TwoArgs(v: View, dirs: set<Path>, split: string -> seq<string>, args: seq<string>)
    requires |args| == 2
    ensures AfterArgs(v, dirs, split, args) == AfterArg(v, dirs, split, AfterArgs(v, dirs, split, [args[0]]), args[1])
  {
    assert args[..1] == [args[0]];
  }

  lemma UpAndMissing(v: View, split: string -> seq<string>, up: Path, p: Path, d: Path, args: seq<string>)
    requires ValidView(v) && UpArgument(v, up) && MissingIn(v, split, p, d) && d !in UpItems(v, up)
    requires |args| == 2 && args[0] == up && args[1] == p
    ensures AfterArgs(v, {}, split, args) == UpItems(v, up) + {p} && AllNormal(UpItems(v, up))
  {
    TwoArgs(v, {}, split, args);
    UpIsListed(v, split, up);
    OneMissing(v, split, {}, UpItems(v, up), p, d);
    ListedIsNormal(v, {}, split, [up]);
  }

  lemma UpIsKept(v: View, split: string -> seq<string>, up: Path, p: Path, d: Path, q: Path)
    requires UpArgument(v, up) && MissingIn(v, split, p, d) && q in Below(v.fs, up) && d in Parents(q)
    ensures var items := UpItems(v, up);
      Kept(v.fs, items + {p}, {}) == items && d in LeadTo(items) && Added(v, items + {p}, {}) == {}
  {
    AllKept(v, UpItems(v, up), {}, p, d, q);
  }

  /** All paths go by resolved names. */
  ghost predicate AllDotted(items: set<Path>) {
    forall g :: g in items ==> UseAbsolutePath(g)
  }

  /** None is resolved to `d` or below it. */
  ghost predicate AllElsewhere(v: View, items: set<Path>, d: Path) {
    forall g :: g in items ==> !AtOrBelow(d, v.resolve(g))
  }

  /** From the root, the path is the directory `d` or lies below it. */
  ghost predicate AtOrBelow(d: Path, r: Path) {
    "/" + d in {r} + Parents(r)
  }

  /** All but `p` is kept, leads through `d` by its text, and goes by resolved names that do not. */
  lemma Hidden(v: View, items: set<Path>, dirs: set<Path>, p: Path, d: Path, uploads: seq<Upload>, tar: seq<TarMember>)
    requires ValidNames(v) && AllNormal(items) && Normal(p) && !UseAbsolutePath(p)
    requires !Exists(v.fs, p) && Nearest(v.fs, p) == d && d != "."
    requires Kept(v.fs, items + {p}, dirs) == items && d in LeadTo(items) && Added(v, items + {p}, dirs) == {}
    requires AllDotted(items) && AllElsewhere(v, items, d)
    requires Packed(v, uploads, tar, ArcAncestors(uploads)) && UploadsOf(v, items + {p}, dirs, uploads)
    ensures !HasMember(tar, d)
  {
    assert !Covered(v, items, d) && !Covered(v, {}, d);
    NearestIsNearest(v.fs, p);
    NearestIsMemberExactly(v, items + {p}, dirs, uploads, tar, p, d);
  }

  lemma AllKept(v: View, items: set<Path>, dirs: set<Path>, p: Path, d: Path, q: Path)
    requires (forall g :: g in items ==> Exists(v.fs, g) || g in dirs) && !Exists(v.fs, p) && p !in dirs
    requires Nearest(v.fs, p) == d && q in items && d in Parents(q)
    requires forall g :: g in items && !Exists(v.fs, g) ==> g == q && Named(q)
    ensures Kept(v.fs, items + {p}, dirs) == items && d in LeadTo(items) && Added(v, items + {p}, dirs) == {}
  {
    assert Kept(v.fs, items + {p}, dirs) == items;
    forall a | a in Parents(q) ensures a in LeadTo(items) {
      assert q in items && a in {q} + Parents(q);
    }
    if Named(q) {
      NearestIsOnTheWay(v.fs, q);
    }
  }

  /** A missing file is listed for the directory it would lie in. */
  lemma OneMissing(v: View, split: string -> seq<string>, dirs: set<Path>, items: set<Path>, p: Path, d: Path)
    requires MissingIn(v, split, p, d) && d !in items
    ensures AfterArg(v, dirs, split, items, p) == items + {p}
  {
    assert DirectoryAbove(v, items, p);
    assert AfterParts(v, dirs, items, []) == items;
    assert AfterParts(v, dirs, items, [p]) == AfterPiece(v, dirs, items, p, true);
  }

  lemma UpIsListed(v: View, split: string -> seq<string>, up: Path)
    requires ValidNames(v) && UpArgument(v, up)
    ensures AfterArgs(v, {}, split, [up]) == UpItems(v, up)
  {
    var none: set<Path> := {};
    assert AfterArgs(v, none, split, []) == none;
    assert AfterArgs(v, none, split, [up]) == AfterArg(v, none, split, none, up);
    assert v.resolve(up)[1..] != "";
  }

  lemma UpIsDotted(v: View, d: string)
    requires ValidNames(v) && Word(d) && !IsAbsolute(d)
    ensures var items := UpItems(v, Inside(d, "..")); AllDotted(items) && d !in items
  {
    var up := Inside(d, "..");
    forall g | g in Below(v.fs, up) ensures g != d && UseAbsolutePath(g) {
      HoldersAreParents(g);
      ParentIsPrefix(up, g);
      assert g[|d|] == '/' && OccursAt(g, "..", |d| + 1);
    }
  }

  lemma BesideIsBelow(v: View, d: string)
    requires Word(d) && Beside(d, d) in v.fs
    ensures Beside(d, d) in Below(v.fs, Inside(d, ".."))
  {
    var up, q := Inside(d, ".."), Beside(d, d);
    ParentOfChild(up, d);
    assert q[|q| - 1] == d[|d| - 1] && d[|d| - 1] in d;
    assert !IsUp(q);
  }

  lemma WordIsOnePart(n: string)
    requires '/' !in n
    ensures Split(n, '/') == [n]
  {
    SplitThenJoin(n, '/');
  }

  lemma InsideIsNormal(d: string, n: string)
    requires Word(d) && Word(n)
    ensures var p := Inside(d, n);
      Normal(p) && !UseAbsolutePath(p) && ' ' !in p && Named(p) && Named(d) && Parent(p) == d && d in Ancestors(p)
  {
    var p := Inside(d, n);
    SplitAt(d, n, '/');
    WordIsOnePart(n);
    AllNamesIsNormal(p);
    ParentOfChild(d, n);
    assert forall c :: c in p ==> c in d || c == '/' || c in n;
    assert d in Parents(p);
    DotsHaveADot(p);
  }

  lemma DotsHaveADot(p: string)
    ensures Find(p, "..", 0).Some? ==> '.' in p
  {
    if Find(p, "..", 0).Some? {
      assert p[Find(p, "..", 0).value] == '.';
    }
  }

  lemma UpIsNormal(d: string)
    requires Word(d)
    ensures var up := Inside(d, ".."); Normal(up) && UseAbsolutePath(up) && Named(up) && !AllSlashes(up)
  {
    var up := Inside(d, "..");
    SplitAt(d, "..", '/');
    WordIsOnePart("..");
    AllNamesIsNormal(up);
    assert OccursAt(up, "..", |d| + 1);
    assert up[0] == d[0] && d[0] in d;
  }

  lemma BesideIsNormal(d: string, n: string)
    requires Word(d) && Word(n)
    ensures var q := Beside(d, n); Normal(q) && UseAbsolutePath(q) && Named(q) && '.' in q && d in Parents(q)
  {
    var up, q := Inside(d, ".."), Beside(d, n);
    SplitAt(d, "..", '/');
    WordIsOnePart("..");
    SplitConcat(up, n, '/');
    WordIsOnePart(n);
    AllNamesIsNormal(q);
    ParentOfChild(d, "..");
    ParentOfChild(up, n);
    assert q[|d| + 1] == '.' && q[|d| + 1] in q;
    assert OccursAt(q, "..", |d| + 1);
    assert d in Parents(up);
  }

  /** Resolves the command line and packs what it needs. */
  method Pack(resolver: FileResolver, digest: Digest, clock: Clock) returns (uploads: seq<Upload>, writer: TarWriter)
    requires ValidNames(resolver.view)
    modifies clock
    ensures fresh(writer) && writer.view == resolver.view
    ensures UploadsOf(resolver.view, Elements(resolver.hostFiles), resolver.outputDirs, uploads)
    ensures Packed(resolver.view, uploads, writer.tar, ArcAncestors(uploads))
    ensures Recorded(resolver.view, uploads, writer.stats, old(clock.time), clock.time)
    ensures writer.inFiles == InFiles(resolver.view, uploads, digest)
  {
    uploads := resolver.ResolveUploadFiles();
    writer := new TarWriter(resolver.view, digest);
    forall u | u in uploads ensures !IsAbsolute(u.arcName) {
      var f :| f in Detected(resolver.view.fs, Elements(resolver.hostFiles), resolver.outputDirs) && UploadOf(resolver.view, f) == u;
      ArchiveNamesAreRelative(resolver.view, f);
    }
    writer.CreateTar(uploads, clock);
  }
}
