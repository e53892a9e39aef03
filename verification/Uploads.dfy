/**
 Finding out from the command line which host files a tool needs, and packing them for the
 container.
 */
module Uploads {
  import opened Sequences
  import opened Text
  import opened Paths
  import opened Sorting
  import Matching
  import opened CommandLogs
  import opened HostFiles
  import opened Downloads

  /** The host as it is looked at: what exists by which name, in which order directories are
      listed, modification times, and absolute names. */
  datatype View = View(fs: Files, list: Path -> seq<Path>, mtime: Path -> real, resolve: Path -> Path)

  /** The name of the directory above, which no directory lists. */
  predicate IsUp(p: Path) {
    p == ".." || (|p| >= 3 && p[|p| - 3..] == "/..")
  }

  /** Resolved names are absolute and normal. */
  ghost predicate ValidNames(v: View) {
    forall p :: IsAbsolute(v.resolve(p)) && Normal(v.resolve(p))
  }

  /** What exists lies in directories, which list it unless it is "..". */
  ghost predicate ValidView(v: View) {
    && (forall p :: p in v.fs ==> Named(p) && Normal(p) && IsDirectory(v.fs, Parent(p)))
    && (forall p, q :: IsDirectory(v.fs, p) ==> (q in v.list(p) <==> q in v.fs && Parent(q) == p && !IsUp(q)))
    && ValidNames(v)
  }

  predicate UseAbsolutePath(file: Path) {
    IsAbsolute(file) || Find(file, "..", 0).Some?
  }

  /** The host file and its name in the archive. */
  function ArchiveNameFor(v: View, file: Path): (Path, string) {
    if UseAbsolutePath(file) then
      var h := v.resolve(file);
      (h, if IsAbsolute(h) then h[1..] else h)
    else (file, file)
  }

  function TrailingSlashes(path: string): string {
    if |path| <= 1 || path[|path| - 1] != '/' then "" else TrailingSlashes(path[..|path| - 1]) + "/"
  }

  /** The directories from which a path is reached by listing entries. */
  function Holders(p: Path): set<Path>
    decreases Depth(p)
  {
    if !Named(p) || IsUp(p) then {} else {Parent(p)} + Holders(Parent(p))
  }

  lemma {:induction false} HoldersAreParents(p: Path)
    ensures Holders(p) <= Parents(p)
    decreases Depth(p)
  {
    if Named(p) && !IsUp(p) {
      HoldersAreParents(Parent(p));
    }
  }

  lemma {:induction false} HoldersAreTransitive(a: Path, b: Path, c: Path)
    requires a in Holders(b) && b in Holders(c)
    ensures a in Holders(c)
    decreases Depth(c)
  {
    if b != Parent(c) {
      HoldersAreTransitive(a, b, Parent(c));
    }
  }

  ghost function Below(fs: Files, p: Path): set<Path> {
    set q | q in fs && p in Holders(q)
  }

  ghost predicate Under(q: Path, files: set<Path>) {
    exists f :: f in files && f in Holders(q)
  }

  ghost function WithBelow(fs: Files, files: set<Path>): set<Path> {
    files + set q | q in fs && Under(q, files)
  }

  class PathSet {
    var items: set<Path>

    constructor (items: set<Path>)
      ensures this.items == items
    {
      this.items := items;
    }
  }

  class FileResolver {
    const view: View
    const outputDirs: set<Path>
    var hostFiles: seq<Path>

    /** Output directories come first, without their contents; then what the arguments need;
        then the input filters choose. */
    constructor (view: View, args: seq<string>, split: string -> seq<string>, directories: seq<string>, doResolve: bool,
                 filters: seq<Matching.FileMatcher>)
      requires ValidView(view)
      ensures this.view == view && outputDirs == Elements(ParseAll(directories))
      ensures !doResolve ==> hostFiles == ParseAll(directories)
      ensures doResolve ==>
        (exists all :: Listing(view, directories, split, args, all) && hostFiles == Filter(all, f => PassesAll(filters, f)))
      ensures doResolve && filters == [] ==> Listing(view, directories, split, args, hostFiles)
      ensures forall f :: f in hostFiles ==> Normal(f)
    {
      this.view := view;
      outputDirs := Elements(ParseAll(directories));
      hostFiles := ParseAll(directories);
      new;
      ParseAllIsNormal(directories);
      if doResolve {
        var _ := Analyze(args, split);
        ghost var all := hostFiles;
        assert Listing(view, directories, split, args, all);
        ListedIsNormal(view, outputDirs, split, args);
        FilterInput(filters);
        if filters == [] {
          FilterEverything(all, f => PassesAll(filters, f));
        }
        FilterMembers(all, f => PassesAll(filters, f));
      }
    }

    /** The listed files are the elements of `listed`; if there are duplicates, they come
        from the output directories. */
    ghost predicate Lists(listed: PathSet, before: seq<Path>)
      reads this, listed
    {
      && Elements(hostFiles) == listed.items
      && before <= hostFiles
      && (NoDuplicates(before) ==> NoDuplicates(hostFiles))
    }

    /** Lists a file unless it is listed already. */
    method ListFile(f: Path, listed: PathSet, ghost before: seq<Path>)
      requires Lists(listed, before)
      modifies `hostFiles, listed
      ensures Lists(listed, before)
      ensures listed.items == old(listed.items) + {f}
    {
      if f !in listed.items {
        assert f !in hostFiles;
        hostFiles := hostFiles + [f];
        listed.items := listed.items + {f};
      }
    }

    /** Lists files and everything below them. */
    method IncludeSubDirs(files: seq<Path>, listed: PathSet, ghost before: seq<Path>, ghost bound: set<Path>)
      requires ValidView(view) && Lists(listed, before)
      requires forall f :: f in files ==> f in view.fs && f in bound && Below(view.fs, f) <= bound
      modifies `hostFiles, listed
      ensures Lists(listed, before)
      ensures listed.items == old(listed.items) + WithBelow(view.fs, Elements(files))
      decreases bound, 1
    {
      ghost var covered: set<Path> := {};
      assert covered == WithBelow(view.fs, Elements(files[..0]));
      for i := 0 to |files|
        invariant Lists(listed, before)
        invariant covered == WithBelow(view.fs, Elements(files[..i]))
        invariant listed.items == old(listed.items) + covered
      {
        OneMoreFile(view.fs, files[..i], files[i]);
        TakeOneMore(files, i);
        IncludeFile(files[i], listed, before, bound);
        ghost var added := {files[i]} + Below(view.fs, files[i]);
        assert old(listed.items) + covered + added == old(listed.items) + (covered + added);
        covered := covered + added;
      }
      assert files[..|files|] == files;
    }

    /** The body of that loop. */
    method IncludeFile(f: Path, listed: PathSet, ghost before: seq<Path>, ghost bound: set<Path>)
      requires ValidView(view) && Lists(listed, before)
      requires f in view.fs && f in bound && Below(view.fs, f) <= bound
      modifies `hostFiles, listed
      ensures Lists(listed, before)
      ensures listed.items == old(listed.items) + ({f} + Below(view.fs, f))
      decreases bound, 0
    {
      ListFile(f, listed, before);
      if !IsDirectory(view.fs, f) {
        NothingBelowFile(view, f);
      } else {
        ChildrenOf(view, f, bound);
        IncludeSubDirs(view.list(f), listed, before, bound - {f});
      }
    }

    /** Looks for a host file in a piece of the command line. */
    method FileExists(path: string, listed: PathSet, parentCheck: bool, ghost before: seq<Path>)
      returns (name: Option<string>)
      requires ValidView(view) && Lists(listed, before)
      modifies `hostFiles, listed
      ensures Lists(listed, before)
      ensures var f, found := Parse(path), Found(view, old(listed.items), path, parentCheck);
        && name == (if found then Some(NameFor(view, path)) else None)
        && listed.items == old(listed.items) +
             (if found then {ArchiveNameFor(view, f).0} else {}) +
             (if found && IsDirectory(view.fs, f) && f !in outputDirs then Below(view.fs, f) else {})
    {
      var oFile := Parse(path);
      var fileExists := Exists(view.fs, oFile) && !AllSlashes(path);
      if !fileExists && !parentCheck && ' ' !in path {
        return None;
      }
      if !fileExists && !IsAbsolute(oFile) && Find(oFile, "..", 0).None? {
        fileExists := FindDirectoryAbove(oFile);
      }
      if !fileExists {
        return None;
      }
      var (hFile, aName) := ArchiveNameFor(view, oFile);
      ListFile(hFile, listed, before);
      if IsDirectory(view.fs, oFile) && oFile !in outputDirs {
        ChildrenOf(view, oFile, Below(view.fs, oFile));
        IncludeSubDirs(view.list(oFile), listed, before, Below(view.fs, oFile));
      }
      name := Some(aName + TrailingSlashes(path));
    }

    /** Whether a directory on the way to a missing file exists and is not listed. */
    method FindDirectoryAbove(f: Path) returns (found: bool)
      requires !IsAbsolute(f)
      ensures found == DirectoryAbove(view, Elements(hostFiles), f)
      ensures found <==> exists a :: a in Ancestors(f) && a in view.fs && view.fs[a] == HostDirectory && a !in hostFiles
    {
      found := false;
      var parent := Parent(f);
      ParentIsRelative(f);
      AncestorsStep(f);
      while !found && parent != "."
        invariant !IsAbsolute(parent)
        invariant found ==> DirectoryAbove(view, Elements(hostFiles), f)
        invariant !found ==> forall a :: a in Ancestors(f) - WithAncestors(parent) ==>
          !(IsDirectory(view.fs, a) && a !in hostFiles)
        invariant WithAncestors(parent) <= Ancestors(f)
        decreases Depth(parent)
      {
        if IsDirectory(view.fs, parent) && parent !in hostFiles {
          found := true;
        }
        AncestorsStep(parent);
        ParentIsRelative(parent);
        parent := Parent(parent);
      }
    }

    /** Goes through the arguments: one that is no file is looked at piece by piece. */
    method Analyze(args: seq<string>, split: string -> seq<string>) returns (listed: PathSet)
      requires ValidView(view) && Elements(hostFiles) == outputDirs
      modifies `hostFiles
      ensures fresh(listed) && Lists(listed, old(hostFiles))
      ensures Elements(hostFiles) == AfterArgs(view, outputDirs, split, args)
      ensures AllIncluded(view, outputDirs, split, args, Elements(hostFiles))
    {
      listed := new PathSet(outputDirs);
      ghost var before := hostFiles;
      for i := 0 to |args|
        invariant fresh(listed) && Lists(listed, before)
        invariant listed.items == AfterArgs(view, outputDirs, split, args[..i])
      {
        assert args[..i + 1][..i] == args[..i];
        var name := FileExists(args[i], listed, false, before);
        if name.None? || name.value == "" {
          AnalyzeParts(split(args[i]), listed, before);
        }
      }
      assert args[..|args|] == args;
      ArgsAreIncluded(view, outputDirs, split, args);
    }

    method AnalyzeParts(parts: seq<string>, listed: PathSet, ghost before: seq<Path>)
      requires ValidView(view) && Lists(listed, before)
      modifies `hostFiles, listed
      ensures Lists(listed, before)
      ensures listed.items == AfterParts(view, outputDirs, old(listed.items), parts)
    {
      for i := 0 to |parts|
        invariant Lists(listed, before)
        invariant listed.items == AfterParts(view, outputDirs, old(listed.items), parts[..i])
      {
        assert parts[..i + 1][..i] == parts[..i];
        var _ := FileExists(parts[i], listed, true, before);
      }
      assert parts[..|parts|] == parts;
    }

    /** Applies the input filters, one after the other. */
    method FilterInput(filters: seq<Matching.FileMatcher>)
      modifies `hostFiles
      ensures hostFiles == Filter(old(hostFiles), f => PassesAll(filters, f))
      ensures forall f :: f in hostFiles <==>
        f in old(hostFiles) && forall m :: m in filters ==> (Matching.LeftmostGlob(m.matchString, f) <==> m.includes)
    {
      ghost var before := hostFiles;
      FilterMembers(before, f => PassesAll(filters, f));
      forall f, m | m in filters ensures Matching.KeepsUpload(m, f) <==> (Matching.LeftmostGlob(m.matchString, f) <==> m.includes) {
        Matching.AcceptsExactly(m.matchString, f);
      }
      FilterEverything(before, f => PassesAll(filters[..0], f));
      for i := 0 to |filters|
        invariant hostFiles == Filter(before, f => PassesAll(filters[..i], f))
      {
        var m := filters[i];
        TakeOneMore(filters, i);
        FilterTwice(before, f => PassesAll(filters[..i], f), f => Matching.KeepsUpload(m, f), f => PassesAll(filters[..i + 1], f));
        hostFiles := Matching.FilterUploadFiles(m, hostFiles);
      }
      assert filters[..|filters|] == filters;
    }

    /** `sorted` of paths. */
    function SortedFiles(): seq<Path>
      reads this
    {
      Sort(hostFiles, PathLe)
    }

    /** The files to upload: those that exist or are output directories, sorted, and then for each
        missing file its nearest directory that exists, unless the others lead through it anyway. */
    method DetectUploadFiles() returns (res: seq<Path>)
      ensures Elements(res) == Detected(view.fs, Elements(hostFiles), outputDirs)
      ensures forall p :: p in res <==> IsUploaded(hostFiles, p) || IsAdded(hostFiles, p)
      ensures exists n :: Arranged(hostFiles, res, n)
    {
      var files := SortedFiles();
      res := Filter(files, f => Exists(view.fs, f) || f in outputDirs);
      var missing := Filter(files, f => !Exists(view.fs, f));
      KeptInOrder();
      ghost var kept := res;
      var allDirs := set f, p | f in res && p in {f} + Parents(f) :: p;
      assert allDirs == LeadTo(Elements(kept));
      DetectedBy(view.fs, hostFiles, outputDirs, Elements(kept), Elements(missing));
      ghost var added;
      res, added := AddNearest(missing, allDirs, res);
      AddedExactly(hostFiles, kept, missing, allDirs);
      ArrangedAs(hostFiles, kept, added);
    }

    lemma KeptInOrder()
      ensures var kept := Filter(SortedFiles(), f => Exists(view.fs, f) || f in outputDirs);
        SortedBy(kept, PathLe) && forall p :: p in kept <==> IsUploaded(hostFiles, p)
      ensures forall f :: f in Filter(SortedFiles(), f => !Exists(view.fs, f)) <==> f in hostFiles && !Exists(view.fs, f)
    {
      var files := SortedFiles();
      SortMembers(hostFiles, PathLe);
      FilterMembers(files, f => Exists(view.fs, f) || f in outputDirs);
      FilterMembers(files, f => !Exists(view.fs, f));
      PathsAreOrdered();
      SortIsSorted(hostFiles, PathLe);
      FilterKeepsOrder(files, PathLe, f => Exists(view.fs, f) || f in outputDirs);
    }

    /** First the uploaded files, sorted, then the added directories. */
    ghost predicate Arranged(files: seq<Path>, res: seq<Path>, n: nat) {
      && n <= |res| && SortedBy(res[..n], PathLe)
      && (forall p :: p in res[..n] <==> IsUploaded(files, p)) && (forall p :: p in res[n..] <==> IsAdded(files, p))
    }

    lemma ArrangedAs(files: seq<Path>, kept: seq<Path>, added: seq<Path>)
      requires SortedBy(kept, PathLe) && forall p :: p in kept <==> IsUploaded(files, p)
      requires forall p :: p in added <==> IsAdded(files, p)
      ensures Arranged(files, kept + added, |kept|)
    {
      assert (kept + added)[..|kept|] == kept && (kept + added)[|kept|..] == added;
    }

    /** A listed file that exists or is an output directory. */
    ghost predicate IsUploaded(files: seq<Path>, p: Path) {
      p in files && (Exists(view.fs, p) || p in outputDirs)
    }

    /** The nearest existing directory of a missing file, unless an uploaded file is it or lies below it. */
    ghost predicate IsAdded(files: seq<Path>, p: Path) {
      && (exists f :: f in files && !Exists(view.fs, f) && IsNearest(view.fs, f, p))
      && forall g :: IsUploaded(files, g) ==> p != g && p !in Parents(g)
    }

    lemma AddedExactly(files: seq<Path>, kept: seq<Path>, missing: seq<Path>, allDirs: set<Path>)
      requires forall p :: p in kept <==> IsUploaded(files, p)
      requires forall f :: f in missing <==> f in files && !Exists(view.fs, f)
      requires allDirs == LeadTo(Elements(kept))
      ensures forall p :: p in NearestOutside(view.fs, Elements(missing), allDirs) <==> IsAdded(files, p)
    {
      forall p ensures p in NearestOutside(view.fs, Elements(missing), allDirs) <==> IsAdded(files, p) {
        assert p in allDirs <==> exists g :: g in kept && p in {g} + Parents(g);
        forall f | f in missing ensures p == Nearest(view.fs, f) <==> IsNearest(view.fs, f, p) {
          NearestExactly(view.fs, f, p);
        }
      }
    }

    /** Adds the nearest directories of missing files that nothing else leads through. */
    method AddNearest(missing: seq<Path>, allDirs: set<Path>, files: seq<Path>) returns (res: seq<Path>, ghost more: seq<Path>)
      ensures res == files + more
      ensures Elements(more) == NearestOutside(view.fs, Elements(missing), allDirs)
      ensures Elements(res) == Elements(files) + NearestOutside(view.fs, Elements(missing), allDirs)
    {
      res, more := files, [];
      assert Elements(more) == NearestOutside(view.fs, Elements(missing[..0]), allDirs);
      for i := 0 to |missing|
        invariant res == files + more
        invariant Elements(more) == NearestOutside(view.fs, Elements(missing[..i]), allDirs)
      {
        TakeOneMore(missing, i);
        OneMoreMissing(view.fs, missing[..i], missing[i], allDirs);
        var p := Nearest(view.fs, missing[i]);
        if p !in allDirs {
          OneMoreElement(more, p);
          res, more := res + [p], more + [p];
        }
      }
      assert missing[..|missing|] == missing;
    }

    /** What is uploaded, by host file; a later file of the same name replaces an earlier one. */
    method ResolveUploadFiles() returns (uploads: seq<Upload>)
      ensures forall u :: u in uploads <==>
        exists f :: f in Detected(view.fs, Elements(hostFiles), outputDirs) && UploadOf(view, f) == u
      ensures forall u :: u in uploads <==>
        exists f :: (IsUploaded(hostFiles, f) || IsAdded(hostFiles, f)) && UploadOf(view, f) == u
      ensures forall i, j :: 0 <= i < j < |uploads| ==> uploads[i].hostFile != uploads[j].hostFile
    {
      var files := DetectUploadFiles();
      uploads := [];
      for i := 0 to |files|
        invariant forall u :: u in uploads <==> exists f :: f in files[..i] && UploadOf(view, f) == u
        invariant forall j, k :: 0 <= j < k < |uploads| ==> uploads[j].hostFile != uploads[k].hostFile
      {
        TakeOneMore(files, i);
        var u := UploadOf(view, files[i]);
        if u !in uploads {
          OneNameEach(view, files[..i], uploads, files[i]);
          uploads := uploads + [u];
        }
      }
      assert files[..|files|] == files;
      assert forall f :: f in files <==> f in Elements(files);
    }
  }

  // ---------- what the arguments need ----------

  /** The name a piece of the command line gets in the container. */
  function NameFor(v: View, path: string): string {
    ArchiveNameFor(v, Parse(path)).1 + TrailingSlashes(path)
  }

  ghost function AfterPiece(v: View, outputDirs: set<Path>, items: set<Path>, path: string, parentCheck: bool): set<Path> {
    var f := Parse(path);
    if !Found(v, items, path, parentCheck) then items
    else items + {ArchiveNameFor(v, f).0} + if IsDirectory(v.fs, f) && f !in outputDirs then Below(v.fs, f) else {}
  }

  ghost function AfterParts(v: View, outputDirs: set<Path>, items: set<Path>, parts: seq<string>): set<Path> {
    if parts == [] then items
    else AfterPiece(v, outputDirs, AfterParts(v, outputDirs, items, parts[..|parts| - 1]), parts[|parts| - 1], true)
  }

  ghost function AfterArg(v: View, outputDirs: set<Path>, split: string -> seq<string>, items: set<Path>, arg: string): set<Path> {
    var whole := AfterPiece(v, outputDirs, items, arg, false);
    if Found(v, items, arg, false) && NameFor(v, arg) != "" then whole else AfterParts(v, outputDirs, whole, split(arg))
  }

  /** The files listed for a command line. */
  ghost function AfterArgs(v: View, outputDirs: set<Path>, split: string -> seq<string>, args: seq<string>): set<Path> {
    if args == [] then outputDirs
    else AfterArg(v, outputDirs, split, AfterArgs(v, outputDirs, split, args[..|args| - 1]), args[|args| - 1])
  }

  /** The list made of a command line, before the input filters. */
  ghost predicate Listing(v: View, directories: seq<string>, split: string -> seq<string>, args: seq<string>, all: seq<Path>) {
    var outputDirs := Elements(ParseAll(directories));
    && ParseAll(directories) <= all
    && (NoDuplicates(ParseAll(directories)) ==> NoDuplicates(all))
    && Elements(all) == AfterArgs(v, outputDirs, split, args)
    && AllIncluded(v, outputDirs, split, args, Elements(all))
  }

  /** The argument itself, undivided, counts as a file whatever else is listed, or may do so. */
  ghost predicate MayBeFile(v: View, arg: string) {
    Found(v, {}, arg, false)
  }

  /** A directory that is to be uploaded with its contents. */
  ghost predicate IsDirectoryArgument(v: View, outputDirs: set<Path>, path: string) {
    IsDirectory(v.fs, Parse(path)) && !AllSlashes(path) && Parse(path) !in outputDirs
  }

  ghost predicate ListsBelow(v: View, outputDirs: set<Path>, path: string, items: set<Path>) {
    IsDirectoryArgument(v, outputDirs, path) ==> Below(v.fs, Parse(path)) <= items
  }

  /** An argument that is a directory has its contents listed, and so have its pieces if it
      cannot be taken as a file itself. */
  ghost predicate Included(v: View, outputDirs: set<Path>, split: string -> seq<string>, arg: string, items: set<Path>) {
    && ListsBelow(v, outputDirs, arg, items)
    && (!MayBeFile(v, arg) ==> AllListBelow(v, outputDirs, split(arg), items))
  }

  lemma PieceIsIncluded(v: View, outputDirs: set<Path>, items: set<Path>, path: string, parentCheck: bool)
    ensures var after := AfterPiece(v, outputDirs, items, path, parentCheck);
      items <= after && ListsBelow(v, outputDirs, path, after)
  {
  }

  lemma StillLists(v: View, outputDirs: set<Path>, path: string, items: set<Path>, more: set<Path>)
    requires ListsBelow(v, outputDirs, path, items) && items <= more
    ensures ListsBelow(v, outputDirs, path, more)
  {
  }

  lemma PartsStep(v: View, outputDirs: set<Path>, items: set<Path>, parts: seq<string>, n: nat, before: set<Path>)
    requires |parts| == n + 1 && before == AfterParts(v, outputDirs, items, parts[..n])
    ensures AfterParts(v, outputDirs, items, parts) == AfterPiece(v, outputDirs, before, parts[n], true)
  {
  }

  lemma {:induction false} PartsGrow(v: View, outputDirs: set<Path>, items: set<Path>, parts: seq<string>)
    ensures items <= AfterParts(v, outputDirs, items, parts)
  {
    if parts != [] {
      var n := |parts| - 1;
      var before := AfterParts(v, outputDirs, items, parts[..n]);
      PartsGrow(v, outputDirs, items, parts[..n]);
      PartsStep(v, outputDirs, items, parts, n, before);
      PieceIsIncluded(v, outputDirs, before, parts[n], true);
    }
  }

  ghost predicate AllListBelow(v: View, outputDirs: set<Path>, parts: seq<string>, items: set<Path>) {
    forall part :: part in parts ==> ListsBelow(v, outputDirs, part, items)
  }

  lemma LastPartIsIncluded(v: View, outputDirs: set<Path>, parts: seq<string>, n: nat, before: set<Path>, after: set<Path>)
    requires |parts| == n + 1 && AllListBelow(v, outputDirs, parts[..n], before)
    requires after == AfterPiece(v, outputDirs, before, parts[n], true)
    ensures AllListBelow(v, outputDirs, parts, after)
  {
    PieceIsIncluded(v, outputDirs, before, parts[n], true);
    forall part | part in parts[..n] ensures ListsBelow(v, outputDirs, part, after) {
      StillLists(v, outputDirs, part, before, after);
    }
    AllOfLast(parts, n, part => ListsBelow(v, outputDirs, part, after));
  }

  lemma {:induction false} PartsAreIncluded(v: View, outputDirs: set<Path>, items: set<Path>, parts: seq<string>)
    ensures AllListBelow(v, outputDirs, parts, AfterParts(v, outputDirs, items, parts))
  {
    if parts != [] {
      var n := |parts| - 1;
      var before := AfterParts(v, outputDirs, items, parts[..n]);
      PartsAreIncluded(v, outputDirs, items, parts[..n]);
      PartsStep(v, outputDirs, items, parts, n, before);
      LastPartIsIncluded(v, outputDirs, parts, n, before, AfterParts(v, outputDirs, items, parts));
    }
  }

  lemma ArgIsIncluded(v: View, outputDirs: set<Path>, split: string -> seq<string>, items: set<Path>, arg: string)
    ensures items <= AfterArg(v, outputDirs, split, items, arg)
    ensures Included(v, outputDirs, split, arg, AfterArg(v, outputDirs, split, items, arg))
  {
    PieceIsIncluded(v, outputDirs, items, arg, false);
    var whole, after := AfterPiece(v, outputDirs, items, arg, false), AfterArg(v, outputDirs, split, items, arg);
    PartsGrow(v, outputDirs, whole, split(arg));
    StillLists(v, outputDirs, arg, whole, after);
    if !MayBeFile(v, arg) {
      NeverFound(v, items, arg);
      PartsAreIncluded(v, outputDirs, whole, split(arg));
    }
  }

  lemma NeverFound(v: View, items: set<Path>, arg: string)
    requires !MayBeFile(v, arg)
    ensures !Found(v, items, arg, false)
  {
  }

  lemma StaysIncluded(v: View, outputDirs: set<Path>, split: string -> seq<string>, arg: string, items: set<Path>, more: set<Path>)
    requires Included(v, outputDirs, split, arg, items) && items <= more
    ensures Included(v, outputDirs, split, arg, more)
  {
    StillLists(v, outputDirs, arg, items, more);
    forall part | part in split(arg) && ListsBelow(v, outputDirs, part, items) ensures ListsBelow(v, outputDirs, part, more) {
      StillLists(v, outputDirs, part, items, more);
    }
  }

  /** All of these arguments are included. */
  ghost predicate AllIncluded(v: View, outputDirs: set<Path>, split: string -> seq<string>, args: seq<string>, items: set<Path>) {
    forall arg :: arg in args ==> Included(v, outputDirs, split, arg, items)
  }

  lemma OneMoreIncluded(v: View, outputDirs: set<Path>, split: string -> seq<string>, args: seq<string>, n: nat,
                        items: set<Path>, more: set<Path>)
    requires |args| == n + 1 && AllIncluded(v, outputDirs, split, args[..n], items) && items <= more
    requires Included(v, outputDirs, split, args[n], more)
    ensures AllIncluded(v, outputDirs, split, args, more)
  {
    forall a | a in args[..n] ensures Included(v, outputDirs, split, a, more) {
      StaysIncluded(v, outputDirs, split, a, items, more);
    }
    AllOfLast(args, n, a => Included(v, outputDirs, split, a, more));
  }

  lemma ArgsStep(v: View, outputDirs: set<Path>, split: string -> seq<string>, args: seq<string>, n: nat, before: set<Path>)
    requires |args| == n + 1 && before == AfterArgs(v, outputDirs, split, args[..n])
    ensures AfterArgs(v, outputDirs, split, args) == AfterArg(v, outputDirs, split, before, args[n])
  {
  }

  lemma LastIsIncluded(v: View, outputDirs: set<Path>, split: string -> seq<string>, args: seq<string>, n: nat, before: set<Path>,
                       after: set<Path>)
    requires |args| == n + 1 && AllIncluded(v, outputDirs, split, args[..n], before)
    requires after == AfterArg(v, outputDirs, split, before, args[n])
    ensures AllIncluded(v, outputDirs, split, args, after)
  {
    ArgIsIncluded(v, outputDirs, split, before, args[n]);
    OneMoreIncluded(v, outputDirs, split, args, n, before, after);
  }

  lemma {:induction false} ArgsAreIncluded(v: View, outputDirs: set<Path>, split: string -> seq<string>, args: seq<string>)
    ensures AllIncluded(v, outputDirs, split, args, AfterArgs(v, outputDirs, split, args))
  {
    if args != [] {
      var n := |args| - 1;
      var before := AfterArgs(v, outputDirs, split, args[..n]);
      ArgsAreIncluded(v, outputDirs, split, args[..n]);
      ArgsStep(v, outputDirs, split, args, n, before);
      LastIsIncluded(v, outputDirs, split, args, n, before, AfterArgs(v, outputDirs, split, args));
    }
  }

  /** Without "..", everything in the directory by its text is below it. */
  lemma BelowInPlainText(fs: Files, p: Path, q: Path)
    requires Named(p) && p != "" && Find(q, "..", 0).None?
    ensures q in Below(fs, p) <==> q in fs && p + "/" <= q
  {
    HoldersWithoutDots(q);
    ParentIsPrefix(p, q);
  }

  lemma {:induction false} HoldersWithoutDots(q: Path)
    requires Find(q, "..", 0).None?
    ensures Holders(q) == Parents(q)
    decreases Depth(q)
  {
    UpHasDots(q);
    if Named(q) {
      if Find(Parent(q), "..", 0).Some? {
        assert OccursAt(q, "..", Find(Parent(q), "..", 0).value);
      }
      HoldersWithoutDots(Parent(q));
    }
  }

  lemma UpHasDots(q: Path)
    ensures IsUp(q) ==> Find(q, "..", 0).Some?
  {
    if IsUp(q) {
      TwoDots(q, |q| - 2);
    }
  }

  /** An argument that exists, without "..", is listed as it is, a directory with all that is below it, and
      nothing else is, whatever its pieces are. */
  lemma ArgumentInPlainText(v: View, outputDirs: set<Path>, split: string -> seq<string>, args: seq<string>, p: Path)
    requires |args| == 1 && args[0] == p && AllNames(p) && Find(p, "..", 0).None? && p in v.fs && p !in outputDirs
    ensures AfterArgs(v, outputDirs, split, args)
         == outputDirs + {p} + if v.fs[p] == HostDirectory then Below(v.fs, p) else {}
  {
    AllNamesIsNormal(p);
    ArgsStep(v, outputDirs, split, args, 0, outputDirs);
    assert p[0] != '/' && !AllSlashes(p);
    assert NameFor(v, p) != "";
  }

  /** Every listed path is normal. */
  ghost predicate AllNormal(files: set<Path>) {
    forall f :: f in files ==> Normal(f)
  }

  lemma ParseAllIsNormal(raws: seq<string>)
    ensures AllNormal(Elements(ParseAll(raws)))
  {
    forall f | f in ParseAll(raws) ensures Normal(f) {
      var i :| 0 <= i < |raws| && f == Parse(raws[i]);
      ParseIsNormal(raws[i]);
    }
  }

  lemma ArchivedIsNormal(v: View, path: string)
    requires ValidNames(v)
    ensures Normal(ArchiveNameFor(v, Parse(path)).0)
  {
    ParseIsNormal(path);
  }

  lemma BelowIsNormal(v: View, p: Path)
    requires ValidView(v)
    ensures AllNormal(Below(v.fs, p))
  {
  }

  lemma PieceIsNormal(v: View, outputDirs: set<Path>, items: set<Path>, path: string, parentCheck: bool)
    requires ValidView(v) && AllNormal(items)
    ensures AllNormal(AfterPiece(v, outputDirs, items, path, parentCheck))
  {
    ArchivedIsNormal(v, path);
    BelowIsNormal(v, Parse(path));
    var f := ArchiveNameFor(v, Parse(path)).0;
    BothNormal(items, {f});
    BothNormal(items + {f}, Below(v.fs, Parse(path)));
  }

  lemma BothNormal(a: set<Path>, b: set<Path>)
    requires AllNormal(a) && AllNormal(b)
    ensures AllNormal(a + b)
  {
  }

  lemma {:induction false} PartsAreNormal(v: View, outputDirs: set<Path>, items: set<Path>, parts: seq<string>)
    requires ValidView(v) && AllNormal(items)
    ensures AllNormal(AfterParts(v, outputDirs, items, parts))
  {
    if parts != [] {
      var n := |parts| - 1;
      PartsAreNormal(v, outputDirs, items, parts[..n]);
      PieceIsNormal(v, outputDirs, AfterParts(v, outputDirs, items, parts[..n]), parts[n], true);
    }
  }

  lemma {:induction false} ListedIsNormal(v: View, outputDirs: set<Path>, split: string -> seq<string>, args: seq<string>)
    requires ValidView(v) && AllNormal(outputDirs)
    ensures AllNormal(AfterArgs(v, outputDirs, split, args))
  {
    if args != [] {
      var n := |args| - 1;
      ListedIsNormal(v, outputDirs, split, args[..n]);
      var before := AfterArgs(v, outputDirs, split, args[..n]);
      PieceIsNormal(v, outputDirs, before, args[n], false);
      PartsAreNormal(v, outputDirs, AfterPiece(v, outputDirs, before, args[n], false), split(args[n]));
    }
  }

  predicate PassesAll(filters: seq<Matching.FileMatcher>, f: Path) {
    forall m :: m in filters ==> Matching.KeepsUpload(m, f)
  }

  /** `path.parts` */
  function PartsOf(p: Path): seq<string> {
    (if IsAbsolute(p) then ["/"] else []) + NamesOf(p)
  }

  /** Paths are ordered component by component. */
  predicate PathLe(a: Path, b: Path) {
    NamesLe(PartsOf(a), PartsOf(b))
  }

  predicate NamesLe(a: seq<string>, b: seq<string>) {
    if a == [] then true
    else if b == [] then false
    else if a[0] == b[0] then NamesLe(a[1..], b[1..])
    else StringLe(a[0], b[0])
  }

  /** The first difference decides. */
  lemma {:induction false} FirstPartDecides(w: seq<string>, x: string, y: string, s: seq<string>, t: seq<string>)
    requires x != y
    ensures NamesLe((w + [x]) + s, (w + [y]) + t) <==> StringLe(x, y)
  {
    if w == [] {
      assert w + [x] == [x] && w + [y] == [y];
    } else {
      SameHead(w, [x], s);
      SameHead(w, [y], t);
      FirstPartDecides(w[1..], x, y, s, t);
    }
  }

  lemma SameHead(w: seq<string>, x: seq<string>, s: seq<string>)
    requires w != []
    ensures var all := (w + x) + s; all != [] && all[0] == w[0] && all[1..] == (w[1..] + x) + s
  {
  }

  /** Without a difference the shorter comes first. */
  lemma {:induction false} ShorterComesFirst(w: seq<string>, s: seq<string>)
    ensures NamesLe(w, w + s) && (NamesLe(w + s, w) <==> s == [])
  {
    if w == [] {
      assert w + s == s;
    } else {
      assert (w + s)[1..] == w[1..] + s;
      ShorterComesFirst(w[1..], s);
    }
  }

  lemma {:induction false} NamesLeTotal(a: seq<string>, b: seq<string>)
    ensures NamesLe(a, b) || NamesLe(b, a)
  {
    if a != [] && b != [] {
      if a[0] == b[0] {
        NamesLeTotal(a[1..], b[1..]);
      } else {
        StringLeTotal(a[0], b[0]);
      }
    }
  }

  lemma {:induction false} NamesLeTransitive(a: seq<string>, b: seq<string>, c: seq<string>)
    requires NamesLe(a, b) && NamesLe(b, c)
    ensures NamesLe(a, c)
  {
    if a != [] && b != [] && c != [] {
      if a[0] == b[0] == c[0] {
        NamesLeTransitive(a[1..], b[1..], c[1..]);
      } else {
        StringLeTotal(a[0], b[0]);
        StringLeTotal(b[0], c[0]);
        StringLeTransitive(a[0], b[0], c[0]);
      }
    }
  }

  lemma PathsAreOrdered()
    ensures TotalPreorder(PathLe)
  {
    forall x, y ensures PathLe(x, y) || PathLe(y, x) {
      NamesLeTotal(PartsOf(x), PartsOf(y));
    }
    forall x, y, z | PathLe(x, y) && PathLe(y, z) ensures PathLe(x, z) {
      NamesLeTransitive(PartsOf(x), PartsOf(y), PartsOf(z));
    }
  }

  /** In plain text: a directory comes before what is in it, and what is in it is ordered by name. */
  lemma PathOrderInPlainText(d: Path, m: string, n: string)
    requires d != "" && IsName(m) && IsName(n) && '/' !in m && '/' !in n
    ensures PathLe(d, d + "/" + m) && !PathLe(d + "/" + m, d)
    ensures PathLe(d + "/" + m, d + "/" + n) <==> StringLe(m, n)
  {
    PartsInside(d, m);
    PartsInside(d, n);
    ShorterComesFirst(PartsOf(d), [m]);
    StringLeTotal(m, n);
    if m == n {
      NamesLeTotal(PartsOf(d) + [m], PartsOf(d) + [m]);
    } else {
      FirstPartDecides(PartsOf(d), m, n, [], []);
      assert (PartsOf(d) + [m]) + [] == PartsOf(d) + [m] && (PartsOf(d) + [n]) + [] == PartsOf(d) + [n];
    }
  }

  lemma PartsInside(d: Path, n: string)
    requires d != "" && IsName(n) && '/' !in n
    ensures PartsOf(d + "/" + n) == PartsOf(d) + [n]
  {
    NamesOfConcat(d, n);
    NamesOfOne(n);
    SameStart(d, "/" + n);
    assert d + ("/" + n) == d + "/" + n;
    Regroup(if IsAbsolute(d) then ["/"] else [], NamesOf(d), [n]);
  }

  lemma SameStart(d: Path, s: string)
    requires d != ""
    ensures IsAbsolute(d + s) == IsAbsolute(d)
  {
  }

  /** A path from the root comes before a relative one that begins with a later character. */
  lemma RootComesFirst(p: Path, q: Path)
    requires "/" <= p && q != "" && q[0] > '/' && q[0] != '.'
    ensures PathLe(p, q) && !PathLe(q, p)
  {
    FirstNameStarts(q);
  }

  lemma FirstNameStarts(q: Path)
    requires q != "" && q[0] != '/' && q[0] != '.'
    ensures NamesOf(q) != [] && NamesOf(q)[0] != "" && NamesOf(q)[0][0] == q[0]
  {
    var parts := Split(q, '/');
    assert parts[0][0] == q[0];
    FilterConcat([parts[0]], parts[1..], IsName);
    assert parts == [parts[0]] + parts[1..];
    assert Filter([parts[0]], IsName) == [parts[0]];
  }

  /** The nearest directory on the way to `p` that exists. */
  function Nearest(fs: Files, p: Path): (q: Path)
    ensures Exists(fs, q)
    decreases Depth(Parent(p))
  {
    var parent := Parent(p);
    if Exists(fs, parent) then parent else Nearest(fs, parent)
  }

  /** An existing directory on the way to `f`, with all other existing ones above it. */
  ghost predicate IsNearest(fs: Files, f: Path, p: Path) {
    && p in Parents(f) && Exists(fs, p)
    && forall a :: a in Parents(f) && Exists(fs, a) ==> a == p || a in Parents(p)
  }

  lemma {:induction false} NearestIsNearest(fs: Files, f: Path)
    requires Named(f)
    ensures IsNearest(fs, f, Nearest(fs, f))
    decreases Depth(f)
  {
    if !Exists(fs, Parent(f)) {
      NearestIsNearest(fs, Parent(f));
    }
  }

  lemma NearestExactly(fs: Files, f: Path, p: Path)
    requires Named(f)
    ensures p == Nearest(fs, f) <==> IsNearest(fs, f, p)
  {
    NearestIsNearest(fs, f);
    var q := Nearest(fs, f);
    if IsNearest(fs, f, p) && p != q {
      ParentsAreHigher(p, q);
      ParentsAreHigher(q, p);
    }
  }

  lemma OneMoreElement(s: seq<Path>, p: Path)
    ensures Elements(s + [p]) == Elements(s) + {p}
  {
  }

  ghost function Kept(fs: Files, files: set<Path>, outputDirs: set<Path>): set<Path> {
    set f | f in files && (Exists(fs, f) || f in outputDirs)
  }

  /** The files and everything on the way to them. */
  ghost function LeadTo(files: set<Path>): set<Path> {
    set f, p | f in files && p in {f} + Parents(f) :: p
  }

  ghost function NearestOutside(fs: Files, missing: set<Path>, dirs: set<Path>): set<Path> {
    set f | f in missing && Nearest(fs, f) !in dirs :: Nearest(fs, f)
  }

  ghost function Detected(fs: Files, files: set<Path>, outputDirs: set<Path>): set<Path> {
    var kept := Kept(fs, files, outputDirs);
    kept + NearestOutside(fs, (set f | f in files && !Exists(fs, f)), LeadTo(kept))
  }

  lemma DetectedBy(fs: Files, files: seq<Path>, outputDirs: set<Path>, kept: set<Path>, missing: set<Path>)
    requires forall f :: f in kept <==> f in files && (Exists(fs, f) || f in outputDirs)
    requires forall f :: f in missing <==> f in files && !Exists(fs, f)
    ensures Detected(fs, Elements(files), outputDirs) == kept + NearestOutside(fs, missing, LeadTo(kept))
  {
    assert kept == Kept(fs, Elements(files), outputDirs);
    assert missing == set f | f in Elements(files) && !Exists(fs, f);
  }

  lemma OneMoreMissing(fs: Files, missing: seq<Path>, f: Path, dirs: set<Path>)
    ensures NearestOutside(fs, Elements(missing + [f]), dirs)
         == NearestOutside(fs, Elements(missing), dirs) + if Nearest(fs, f) in dirs then {} else {Nearest(fs, f)}
  {
    assert Elements(missing + [f]) == Elements(missing) + {f};
  }

  datatype Upload = Upload(hostFile: Path, arcName: string)

  function UploadOf(v: View, f: Path): Upload {
    Upload(ArchiveNameFor(v, f).0, ArchiveNameFor(v, f).1)
  }

  /** In plain text: a path from the root or with ".." goes by its resolved name without the slash in front,
      any other by itself. */
  lemma UploadInPlainText(v: View, f: Path)
    requires ValidNames(v)
    ensures var u := UploadOf(v, f);
      if "/" <= f || exists k :: 0 <= k < |f| - 1 && f[k] == '.' && f[k + 1] == '.'
      then u.hostFile == v.resolve(f) && "/" + u.arcName == v.resolve(f)
      else u.hostFile == f && u.arcName == f
  {
    DotsInPlainText(f);
  }

  lemma DotsInPlainText(f: string)
    ensures Find(f, "..", 0).Some? <==> exists k :: 0 <= k < |f| - 1 && f[k] == '.' && f[k + 1] == '.'
  {
    if Find(f, "..", 0).Some? {
      TwoDots(f, Find(f, "..", 0).value);
    }
    if k :| 0 <= k < |f| - 1 && f[k] == '.' && f[k + 1] == '.' {
      TwoDots(f, k);
    }
  }

  lemma TwoDots(f: string, k: nat)
    ensures OccursAt(f, "..", k) <==> k < |f| - 1 && f[k] == '.' && f[k + 1] == '.'
  {
    if k < |f| - 1 {
      assert f[k..k + 2] == [f[k], f[k + 1]];
    }
  }

  /** The slashes at the end of an argument, but for its first character. */
  lemma {:induction false} TrailingExactly(path: string)
    ensures var t := TrailingSlashes(path);
      && |t| <= |path| && path[|path| - |t|..] == t && AllSlashes(t)
      && (|path| - |t| > 1 ==> path[|path| - |t| - 1] != '/') && (path != "" ==> |t| < |path|)
  {
    if |path| > 1 && path[|path| - 1] == '/' {
      TrailingExactly(path[..|path| - 1]);
      var t := TrailingSlashes(path[..|path| - 1]);
      assert path == path[..|path| - 1] + "/";
    }
  }

  /** A relative path without ".." is called in the container what the argument says, slashes at its end
      included. */
  lemma NameIsKept(v: View, p: Path, slashes: string)
    requires AllNames(p) && Find(p, "..", 0).None? && AllSlashes(slashes)
    ensures NameFor(v, p + slashes) == p + slashes
  {
    ParsedName(p, slashes);
    LastIsNoSlash(p);
    TrailingExactly(p + slashes);
    SameSlashes(p, slashes, TrailingSlashes(p + slashes));
  }

  lemma ParsedName(p: Path, slashes: string)
    requires AllNames(p) && AllSlashes(slashes)
    ensures Parse(p + slashes) == p && !IsAbsolute(p)
  {
    AllNamesIsNormal(p);
    ParseIgnoresSlashes(p, slashes);
  }

  lemma SameSlashes(p: string, slashes: string, t: string)
    requires p != "" && p[|p| - 1] != '/' && AllSlashes(slashes) && AllSlashes(t)
    requires |t| <= |p + slashes| && (p + slashes)[|p + slashes| - |t|..] == t
    requires |p + slashes| - |t| > 1 ==> (p + slashes)[|p + slashes| - |t| - 1] != '/'
    ensures t == slashes
  {
    var whole := p + slashes;
    var k := |whole| - |t|;
    assert whole[|p| - 1] == p[|p| - 1];
    forall j | k <= j < |whole| ensures whole[j] == '/' {
      assert whole[j] == t[j - k];
    }
    forall j | |p| <= j < |whole| ensures whole[j] == '/' {
      assert whole[j] == slashes[j - |p|];
    }
  }

  lemma LastIsNoSlash(p: Path)
    requires AllNames(p)
    ensures p != "" && p[|p| - 1] != '/'
  {
    AllNamesIsNormal(p);
    if p[|p| - 1] == '/' {
      SlashLeavesNothing(p);
    }
  }

  lemma SlashLeavesNothing(p: string)
    requires p != "" && p[|p| - 1] == '/'
    ensures "" in Split(p, '/')
  {
    assert p == p[..|p| - 1] + "/" + "";
    SplitConcat(p[..|p| - 1], "", '/');
    assert Split("", '/')[0] == "";
  }

  /** Directories that are written as `pathlib` writes them are taken as they are. */
  lemma NormalDirectories(raws: seq<string>)
    requires forall d :: d in raws ==> Normal(d)
    ensures ParseAll(raws) == raws
  {
    forall i | 0 <= i < |raws| ensures ParseAll(raws)[i] == raws[i] {
      assert raws[i] in raws;
    }
  }

  /** A host file is uploaded under one name. */
  lemma OneNameEach(v: View, files: seq<Path>, uploads: seq<Upload>, f: Path)
    requires forall u :: u in uploads <==> exists g :: g in files && UploadOf(v, g) == u
    requires UploadOf(v, f) !in uploads
    ensures forall u :: u in uploads ==> u.hostFile != UploadOf(v, f).hostFile
  {
    forall u | u in uploads ensures u.hostFile != UploadOf(v, f).hostFile {
      var g :| g in files && UploadOf(v, g) == u;
    }
  }

  predicate AllSlashes(path: string) {
    forall i :: 0 <= i < |path| ==> path[i] == '/'
  }

  ghost predicate DirectoryAbove(v: View, hostFiles: set<Path>, f: Path) {
    exists a :: a in Ancestors(f) && IsDirectory(v.fs, a) && a !in hostFiles
  }

  /** When a piece of the command line counts as a file: it exists, or it is a relative path
      without ".." to a file that may appear in a directory not yet listed. */
  ghost predicate Found(v: View, hostFiles: set<Path>, path: string, parentCheck: bool) {
    var f := Parse(path);
    || (Exists(v.fs, f) && !AllSlashes(path))
    || ((parentCheck || ' ' in path) && !IsAbsolute(f) && Find(f, "..", 0).None? && DirectoryAbove(v, hostFiles, f))
  }

  lemma FoundInPlainText(v: View, items: set<Path>, path: string, parentCheck: bool)
    ensures var f := Parse(path);
      Found(v, items, path, parentCheck) <==>
        || (Exists(v.fs, f) && exists i :: 0 <= i < |path| && path[i] != '/')
        || ((parentCheck || ' ' in path) && !("/" <= f) && Find(f, "..", 0).None? &&
            exists a :: a in Ancestors(f) && a in v.fs && v.fs[a] == HostDirectory && a !in items)
  {
  }

  lemma ParentIsRelative(p: Path)
    requires !IsAbsolute(p)
    ensures !IsAbsolute(Parent(p))
  {
  }

  /** Every directory on the way to what exists exists. */
  lemma {:induction false} ParentsAreDirectories(v: View, a: Path, q: Path)
    requires ValidView(v) && q in v.fs && a in Parents(q)
    ensures IsDirectory(v.fs, a)
    decreases Depth(q)
  {
    if a != Parent(q) {
      ParentsAreDirectories(v, a, Parent(q));
    }
  }

  /** The entry of a directory through which something below it is reached. */
  lemma {:induction false} EntryOnTheWay(v: View, p: Path, q: Path) returns (c: Path)
    requires ValidView(v) && q in v.fs && p in Holders(q)
    ensures c in v.list(p) && (c == q || c in Holders(q))
    decreases Depth(q)
  {
    if Parent(q) == p {
      c := q;
    } else {
      c := EntryOnTheWay(v, p, Parent(q));
    }
  }

  /** What lies below a directory is its entries and what lies below them. */
  lemma ChildrenOf(v: View, p: Path, bound: set<Path>)
    requires ValidView(v) && IsDirectory(v.fs, p) && Below(v.fs, p) <= bound
    ensures WithBelow(v.fs, Elements(v.list(p))) == Below(v.fs, p)
    ensures forall f :: f in v.list(p) ==> f in v.fs && f in bound - {p} && Below(v.fs, f) <= bound - {p}
  {
    var entries := Elements(v.list(p));
    forall f | f in v.list(p) ensures f in Below(v.fs, p) && Below(v.fs, f) <= Below(v.fs, p) {
      assert Parent(f) == p;
      forall q | q in Below(v.fs, f) ensures q in Below(v.fs, p) {
        HoldersAreTransitive(p, f, q);
      }
    }
    forall q | q in Below(v.fs, p) ensures q in WithBelow(v.fs, entries) && q != p {
      HoldersAreParents(q);
      ParentsAreHigher(p, q);
      var c := EntryOnTheWay(v, p, q);
      assert c in entries;
      assert c != q ==> Under(q, entries);
    }
    forall q | q in WithBelow(v.fs, entries) ensures q in Below(v.fs, p) {
      if q !in entries {
        var f :| f in entries && f in Holders(q);
        assert q in Below(v.fs, f);
      }
    }
  }

  lemma UnderOneMore(q: Path, files: seq<Path>, f: Path)
    ensures Under(q, Elements(files + [f])) <==> Under(q, Elements(files)) || f in Holders(q)
  {
    var all := files + [f];
    if Under(q, Elements(files)) {
      var g :| g in Elements(files) && g in Holders(q);
      assert g in all;
    }
    if f in Holders(q) {
      assert f in all;
    }
  }

  lemma OneMoreFile(fs: Files, files: seq<Path>, f: Path)
    requires f in fs
    ensures WithBelow(fs, Elements(files + [f])) == WithBelow(fs, Elements(files)) + ({f} + Below(fs, f))
  {
    var more, before := WithBelow(fs, Elements(files + [f])), WithBelow(fs, Elements(files));
    forall q ensures q in more <==> q in before || q == f || q in Below(fs, f) {
      UnderOneMore(q, files, f);
      assert q in files + [f] <==> q in files || q == f;
    }
  }

  lemma NothingBelowFile(v: View, f: Path)
    requires ValidView(v) && !IsDirectory(v.fs, f)
    ensures Below(v.fs, f) == {}
  {
    forall q | q in Below(v.fs, f) ensures false {
      HoldersAreParents(q);
      ParentsAreDirectories(v, f, q);
    }
  }

  function ParseAll(raws: seq<string>): seq<Path> {
    seq(|raws|, i requires 0 <= i < |raws| => Parse(raws[i]))
  }
}
