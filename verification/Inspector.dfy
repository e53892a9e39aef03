/**
 Where a file came from and what was made of it: a depth-limited search over the command
 log, with one set of covered files shared by all recursive calls.
 */
module Inspector {
  import opened Sequences
  import opened Paths
  import opened CommandLogs
  import Sorting

  datatype FileDependency = FileDependency(file: Path, digest: string, out: bool, next: seq<CommandDependency>)

  datatype CommandDependency = CommandDependency(command: CommandLog, out: bool, next: seq<FileDependency>)

  /** `FanIn` goes from outputs to inputs, `FanOut` from inputs to outputs. */
  datatype Direction = FanIn | FanOut {
    function Opposite(): Direction {
      if FanIn? then FanOut else FanIn
    }
  }

  /** What the search looks at: the log, the digests of files on the host ("" for no file)
      and how a path is shown relative to the working directory. */
  datatype View = View(log: seq<CommandLog>, hashOf: Path -> string, workPath: Path -> Path) {
    function Entries(): seq<CommandLog> {
      ListEntries(log, true)
    }
  }

  /** A file with the digest the search uses for it. */
  datatype Node = Node(path: Path, digest: string)

  function NodeOf(v: View, f: FileLog): Node {
    Node(f.path, if f.digest != "" then f.digest else v.hashOf(f.path))
  }

  function Key(n: Node): string {
    n.path + ":" + n.digest
  }

  /** The files a command is found by, and the files it leads to. */
  function Near(cmd: CommandLog, dir: Direction): seq<FileLog> {
    if dir.FanIn? then cmd.outFiles else cmd.inFiles
  }

  function Far(cmd: CommandLog, dir: Direction): seq<FileLog> {
    Near(cmd, dir.Opposite())
  }

  predicate Touches(cmd: CommandLog, dir: Direction, digest: string) {
    exists f :: f in Near(cmd, dir) && f.digest == digest
  }

  // ---------- the search as a function of the covered keys ----------

  datatype Found<+T> = Found(value: T, covered: set<string>)

  function Search(v: View, dir: Direction, n: Node, depth: int, covered: set<string>)
    : (r: Found<FileDependency>)
    ensures covered <= r.covered
    decreases if depth < 0 then 0 else depth, 0, 0
  {
    var leaf := FileDependency(v.workPath(n.path), n.digest, dir.FanOut?, []);
    if depth < 1 || Key(n) in covered then Found(leaf, covered)
    else
      var cmds := SearchCommands(v, dir, n.digest, v.Entries(), depth - 1, covered + {Key(n)});
      Found(leaf.(next := cmds.value), cmds.covered)
  }

  function SearchCommands(v: View, dir: Direction, digest: string, entries: seq<CommandLog>, depth: nat,
                          covered: set<string>)
    : (r: Found<seq<CommandDependency>>)
    ensures covered <= r.covered
    decreases depth, 2, |entries|
  {
    if entries == [] then Found([], covered)
    else
      var n := |entries| - 1;
      var before := SearchCommands(v, dir, digest, entries[..n], depth, covered);
      if !Touches(entries[n], dir, digest) then before
      else
        var files := SearchFiles(v, dir, Far(entries[n], dir), depth, before.covered);
        Found(before.value + [CommandDependency(entries[n], dir.FanOut?, files.value)], files.covered)
  }

  function SearchFiles(v: View, dir: Direction, files: seq<FileLog>, depth: nat, covered: set<string>)
    : (r: Found<seq<FileDependency>>)
    ensures |r.value| == |files| && covered <= r.covered
    decreases depth, 1, |files|
  {
    if files == [] then Found([], covered)
    else
      var n := |files| - 1;
      var before := SearchFiles(v, dir, files[..n], depth, covered);
      var last := Search(v, dir, NodeOf(v, files[n]), depth, before.covered);
      Found(before.value + [last.value], last.covered)
  }

  lemma CommandsStep(v: View, dir: Direction, digest: string, entries: seq<CommandLog>, i: nat, depth: nat,
                     covered: set<string>)
    requires i < |entries|
    ensures var before := SearchCommands(v, dir, digest, entries[..i], depth, covered);
      SearchCommands(v, dir, digest, entries[..i + 1], depth, covered) ==
      if !Touches(entries[i], dir, digest) then before
      else
        var files := SearchFiles(v, dir, Far(entries[i], dir), depth, before.covered);
        Found(before.value + [CommandDependency(entries[i], dir.FanOut?, files.value)], files.covered)
  {
    assert entries[..i + 1][..i] == entries[..i];
  }

  lemma FilesStep(v: View, dir: Direction, files: seq<FileLog>, j: nat, depth: nat, covered: set<string>)
    requires j < |files|
    ensures var before := SearchFiles(v, dir, files[..j], depth, covered);
      var last := Search(v, dir, NodeOf(v, files[j]), depth, before.covered);
      SearchFiles(v, dir, files[..j + 1], depth, covered) == Found(before.value + [last.value], last.covered)
  {
    assert files[..j + 1][..j] == files[..j];
  }

  // ---------- the program ----------

  class CoveredSet {
    var keys: set<string>

    constructor ()
      ensures keys == {}
    {
      keys := {};
    }
  }

  class CommandInspector {
    const view: View

    constructor (view: View)
      ensures this.view == view
    {
      this.view := view;
    }

    /** The search a call makes: an absent or empty digest is computed from the host file. */
    function Asked(dir: Direction, file: Path, depth: int, covered: set<string>, digest: Option<string>)
      : Found<FileDependency>
    {
      Search(view, dir, Root(file, digest), depth, covered)
    }

    function Root(file: Path, digest: Option<string>): Node {
      NodeOf(view, FileLog(file, digest.GetOr("")))
    }

    lemma AskedIsComplete(dir: Direction, file: Path, depth: int, digest: Option<string>)
      ensures DeepEnough(view, dir, Root(file, digest), depth) ==>
        Labels(Asked(dir, file, depth, {}, digest).value) == LabelsOf(view, ReachableNodes(view, dir, Root(file, digest)))
    {
      if DeepEnough(view, dir, Root(file, digest), depth) {
        SearchIsComplete(view, dir, Root(file, digest), depth);
      }
    }

    lemma AskedAnswers(dir: Direction, near: CommandLog -> seq<FileLog>, far: CommandLog -> seq<FileLog>, file: Path,
                       depth: int, covered: set<string>, digest: Option<string>)
      requires forall cmd :: near(cmd) == Near(cmd, dir) && far(cmd) == Far(cmd, dir)
      ensures Answers(view, near, far, dir.FanOut?, file, depth, covered, digest, Asked(dir, file, depth, covered, digest).value)
      ensures var r := Asked(dir, file, depth, covered, digest);
        if depth < 1 || file + ":" + r.value.digest in covered then r.covered == covered
        else covered + {file + ":" + r.value.digest} <= r.covered
    {
      var n := Root(file, digest);
      SearchIsFaithful(view, dir, n, depth, covered);
      var t := Search(view, dir, n, depth, covered).value;
      forall i | 0 <= i < |t.next| ensures t.next[i].out == dir.FanOut? && ShowsFiles(view, far(t.next[i].command), t.next[i].next) {
        assert FaithfulCommand(view, dir, t.next[i], depth - 1);
      }
      if depth >= 1 && Key(n) !in covered {
        CommandsAreFaithful(view, dir, n.digest, view.Entries(), depth - 1, covered + {Key(n)});
        FilterAgree(view.Entries(), cmd => Touches(cmd, dir, n.digest), (cmd: CommandLog) => exists f :: f in near(cmd) && f.digest == n.digest);
      }
    }

    /** The commands found by a digest, latest first. */
    method FanInCommands(fileDigest: string, depth: nat, covered: CoveredSet) returns (cmdDeps: seq<CommandDependency>)
      requires covered.keys != {}
      modifies covered
      ensures Found(cmdDeps, covered.keys)
           == SearchCommands(view, Direction.FanIn, fileDigest, view.Entries(), depth, old(covered.keys))
      decreases depth, 2
    {
      var entries := view.Entries();
      cmdDeps := [];
      for i := 0 to |entries|
        invariant covered.keys != {}
        invariant Found(cmdDeps, covered.keys)
               == SearchCommands(view, Direction.FanIn, fileDigest, entries[..i], depth, old(covered.keys))
      {
        var cmd := entries[i];
        CommandsStep(view, Direction.FanIn, fileDigest, entries, i, depth, old(covered.keys));
        var outputHere := exists f :: f in cmd.outFiles && f.digest == fileDigest;
        if outputHere {
          var fileDeps := FanInFiles(cmd.inFiles, depth, covered);
          cmdDeps := cmdDeps + [CommandDependency(cmd, false, fileDeps)];
        }
      }
      assert entries[..|entries|] == entries;
    }

    /** The files of one command, in order. */
    method FanInFiles(files: seq<FileLog>, depth: nat, covered: CoveredSet) returns (fileDeps: seq<FileDependency>)
      requires covered.keys != {}
      modifies covered
      ensures Found(fileDeps, covered.keys) == SearchFiles(view, Direction.FanIn, files, depth, old(covered.keys))
      decreases depth, 1
    {
      fileDeps := [];
      for j := 0 to |files|
        invariant covered.keys != {}
        invariant Found(fileDeps, covered.keys)
               == SearchFiles(view, Direction.FanIn, files[..j], depth, old(covered.keys))
      {
        FilesStep(view, Direction.FanIn, files, j, depth, old(covered.keys));
        var fileDep := FanIn(files[j].path, depth, covered, Some(files[j].digest));
        fileDeps := fileDeps + [fileDep];
      }
      assert files[..|files|] == files;
    }

    /** An empty set of the caller's is replaced by a fresh one and stays empty. */
    method FanIn(file: Path, depth: int, alreadyCovered: CoveredSet?, digest: Option<string>)
      returns (dep: FileDependency)
      modifies if alreadyCovered == null then {} else {alreadyCovered}
      ensures dep == Asked(Direction.FanIn, file, depth,
        if alreadyCovered == null then {} else old(alreadyCovered.keys), digest).value
      ensures alreadyCovered != null ==>
        (alreadyCovered.keys ==
         if old(alreadyCovered.keys) == {} then {}
         else Asked(Direction.FanIn, file, depth, old(alreadyCovered.keys), digest).covered)
      ensures Answers(view, (cmd: CommandLog) => cmd.outFiles, (cmd: CommandLog) => cmd.inFiles, false, file, depth,
        if alreadyCovered == null then {} else old(alreadyCovered.keys), digest, dep)
      ensures alreadyCovered != null && old(alreadyCovered.keys) != {} ==>
        if depth < 1 || file + ":" + dep.digest in old(alreadyCovered.keys) then alreadyCovered.keys == old(alreadyCovered.keys)
        else old(alreadyCovered.keys) + {file + ":" + dep.digest} <= alreadyCovered.keys
      ensures alreadyCovered == null && DeepEnough(view, Direction.FanIn, Root(file, digest), depth) ==>
        Labels(dep) == LabelsOf(view, ReachableNodes(view, Direction.FanIn, Root(file, digest)))
      decreases if depth < 0 then 0 else depth, 0
    {
      AskedIsComplete(Direction.FanIn, file, depth, digest);
      AskedAnswers(Direction.FanIn, (cmd: CommandLog) => cmd.outFiles, (cmd: CommandLog) => cmd.inFiles, file, depth,
        if alreadyCovered == null then {} else alreadyCovered.keys, digest);
      var fileDigest := if digest.Some? && digest.value != "" then digest.value else view.hashOf(file);
      var fileCheck := file + ":" + fileDigest;
      var covered := alreadyCovered;
      if covered == null || covered.keys == {} {
        covered := new CoveredSet();
      }
      dep := FileDependency(view.workPath(file), fileDigest, false, []);
      if depth < 1 || fileCheck in covered.keys {
        return;
      }
      covered.keys := covered.keys + {fileCheck};
      var cmdDeps := FanInCommands(fileDigest, depth - 1, covered);
      dep := dep.(next := cmdDeps);
    }

    /** The commands found by a digest, latest first. */
    method FanOutCommands(fileDigest: string, depth: nat, covered: CoveredSet) returns (cmdDeps: seq<CommandDependency>)
      requires covered.keys != {}
      modifies covered
      ensures Found(cmdDeps, covered.keys)
           == SearchCommands(view, Direction.FanOut, fileDigest, view.Entries(), depth, old(covered.keys))
      decreases depth, 2
    {
      var entries := view.Entries();
      cmdDeps := [];
      for i := 0 to |entries|
        invariant covered.keys != {}
        invariant Found(cmdDeps, covered.keys)
               == SearchCommands(view, Direction.FanOut, fileDigest, entries[..i], depth, old(covered.keys))
      {
        var cmd := entries[i];
        CommandsStep(view, Direction.FanOut, fileDigest, entries, i, depth, old(covered.keys));
        var inputHere := exists f :: f in cmd.inFiles && f.digest == fileDigest;
        if inputHere {
          var fileDeps := FanOutFiles(cmd.outFiles, depth, covered);
          cmdDeps := cmdDeps + [CommandDependency(cmd, true, fileDeps)];
        }
      }
      assert entries[..|entries|] == entries;
    }

    /** The files of one command, in order. */
    method FanOutFiles(files: seq<FileLog>, depth: nat, covered: CoveredSet) returns (fileDeps: seq<FileDependency>)
      requires covered.keys != {}
      modifies covered
      ensures Found(fileDeps, covered.keys) == SearchFiles(view, Direction.FanOut, files, depth, old(covered.keys))
      decreases depth, 1
    {
      fileDeps := [];
      for j := 0 to |files|
        invariant covered.keys != {}
        invariant Found(fileDeps, covered.keys)
               == SearchFiles(view, Direction.FanOut, files[..j], depth, old(covered.keys))
      {
        FilesStep(view, Direction.FanOut, files, j, depth, old(covered.keys));
        var fileDep := FanOut(files[j].path, depth, covered, Some(files[j].digest));
        fileDeps := fileDeps + [fileDep];
      }
      assert files[..|files|] == files;
    }

    /** The same from inputs to outputs. */
    method FanOut(file: Path, depth: int, alreadyCovered: CoveredSet?, digest: Option<string>)
      returns (dep: FileDependency)
      modifies if alreadyCovered == null then {} else {alreadyCovered}
      ensures dep == Asked(Direction.FanOut, file, depth,
        if alreadyCovered == null then {} else old(alreadyCovered.keys), digest).value
      ensures alreadyCovered != null ==>
        (alreadyCovered.keys ==
         if old(alreadyCovered.keys) == {} then {}
         else Asked(Direction.FanOut, file, depth, old(alreadyCovered.keys), digest).covered)
      ensures Answers(view, (cmd: CommandLog) => cmd.inFiles, (cmd: CommandLog) => cmd.outFiles, true, file, depth,
        if alreadyCovered == null then {} else old(alreadyCovered.keys), digest, dep)
      ensures alreadyCovered != null && old(alreadyCovered.keys) != {} ==>
        if depth < 1 || file + ":" + dep.digest in old(alreadyCovered.keys) then alreadyCovered.keys == old(alreadyCovered.keys)
        else old(alreadyCovered.keys) + {file + ":" + dep.digest} <= alreadyCovered.keys
      ensures alreadyCovered == null && DeepEnough(view, Direction.FanOut, Root(file, digest), depth) ==>
        Labels(dep) == LabelsOf(view, ReachableNodes(view, Direction.FanOut, Root(file, digest)))
      decreases if depth < 0 then 0 else depth, 0
    {
      AskedIsComplete(Direction.FanOut, file, depth, digest);
      AskedAnswers(Direction.FanOut, (cmd: CommandLog) => cmd.inFiles, (cmd: CommandLog) => cmd.outFiles, file, depth,
        if alreadyCovered == null then {} else alreadyCovered.keys, digest);
      var fileDigest := if digest.Some? && digest.value != "" then digest.value else view.hashOf(file);
      var fileCheck := file + ":" + fileDigest;
      var covered := alreadyCovered;
      if covered == null || covered.keys == {} {
        covered := new CoveredSet();
      }
      dep := FileDependency(view.workPath(file), fileDigest, true, []);
      if depth < 1 || fileCheck in covered.keys {
        return;
      }
      covered.keys := covered.keys + {fileCheck};
      var cmdDeps := FanOutCommands(fileDigest, depth - 1, covered);
      dep := dep.(next := cmdDeps);
    }
  }

  // ---------- chains of logged commands ----------

  /** `b` is one logged command away from `a`: one of its files has the digest of `a`,
      and on its other side stands `b`. */
  ghost predicate Follows(v: View, dir: Direction, a: Node, b: Node) {
    exists cmd :: cmd in v.log && Touches(cmd, dir, a.digest) && LeadsTo(v, dir, cmd, b)
  }

  ghost predicate LeadsTo(v: View, dir: Direction, cmd: CommandLog, b: Node) {
    exists f :: f in Far(cmd, dir) && NodeOf(v, f) == b
  }

  /** `b` is reached from `a` by a chain of exactly `k` logged commands. */
  ghost predicate Linked(v: View, dir: Direction, a: Node, b: Node, k: nat)
    decreases k
  {
    if k == 0 then a == b
    else exists c :: Follows(v, dir, a, c) && Linked(v, dir, c, b, k - 1)
  }

  ghost predicate Reachable(v: View, dir: Direction, a: Node, b: Node) {
    exists k: nat :: Linked(v, dir, a, b, k)
  }

  ghost function LoggedNodes(v: View, dir: Direction): set<Node> {
    set cmd, f | cmd in v.log && f in Far(cmd, dir) :: NodeOf(v, f)
  }

  ghost function ReachableNodes(v: View, dir: Direction, root: Node): set<Node> {
    set b | b in {root} + LoggedNodes(v, dir) && Reachable(v, dir, root, b)
  }

  lemma {:induction false} LinkedThenStep(v: View, dir: Direction, a: Node, b: Node, c: Node, k: nat)
    requires k > 0 && Linked(v, dir, a, b, k - 1) && Follows(v, dir, b, c)
    ensures Linked(v, dir, a, c, k)
    decreases k
  {
    if k == 1 {
      assert Linked(v, dir, c, c, 0);
    } else {
      var m := FirstStep(v, dir, a, b, k - 1);
      LinkedThenStep(v, dir, m, b, c, k - 1);
    }
  }

  lemma StepThenLinked(v: View, dir: Direction, a: Node, b: Node, c: Node, k: nat)
    requires k > 0 && Follows(v, dir, a, b) && Linked(v, dir, b, c, k - 1)
    ensures Linked(v, dir, a, c, k)
  {
  }

  lemma FirstStep(v: View, dir: Direction, a: Node, b: Node, k: nat) returns (c: Node)
    requires k > 0 && Linked(v, dir, a, b, k)
    ensures Follows(v, dir, a, c) && Linked(v, dir, c, b, k - 1)
  {
    c :| Follows(v, dir, a, c) && Linked(v, dir, c, b, k - 1);
  }

  ghost predicate Closed(v: View, dir: Direction, nodes: set<Node>) {
    forall a, b :: a in nodes && Follows(v, dir, a, b) ==> b in nodes
  }

  lemma FarIsClosed(v: View, dir: Direction, nodes: set<Node>, n: Node, cmd: CommandLog)
    requires Closed(v, dir, nodes) && n in nodes && cmd in v.log && Touches(cmd, dir, n.digest)
    ensures forall f :: f in Far(cmd, dir) ==> NodeOf(v, f) in nodes
  {
    forall f | f in Far(cmd, dir) ensures NodeOf(v, f) in nodes {
      assert LeadsTo(v, dir, cmd, NodeOf(v, f));
    }
  }

  lemma FollowsIsLogged(v: View, dir: Direction, a: Node, b: Node)
    requires Follows(v, dir, a, b)
    ensures b in LoggedNodes(v, dir)
  {
  }

  lemma ReachableNodesAreClosed(v: View, dir: Direction, root: Node)
    ensures root in ReachableNodes(v, dir, root) && Closed(v, dir, ReachableNodes(v, dir, root))
  {
    assert Linked(v, dir, root, root, 0) && Reachable(v, dir, root, root);
    forall a, b | a in ReachableNodes(v, dir, root) && Follows(v, dir, a, b)
      ensures b in ReachableNodes(v, dir, root)
    {
      var k: nat :| Linked(v, dir, root, a, k);
      LinkedThenStep(v, dir, root, a, b, k + 1);
      assert Reachable(v, dir, root, b);
      FollowsIsLogged(v, dir, a, b);
    }
  }

  /** A chain never leaves a closed set. */
  lemma {:induction false} ClosedUnderChains(v: View, dir: Direction, nodes: set<Node>, a: Node, b: Node, k: nat)
    requires Closed(v, dir, nodes) && a in nodes && Linked(v, dir, a, b, k)
    ensures b in nodes
    decreases k
  {
    if k > 0 {
      var c := FirstStep(v, dir, a, b, k);
      ClosedUnderChains(v, dir, nodes, c, b, k - 1);
    }
  }

  lemma EntriesAreTheLog(v: View)
    ensures forall cmd :: cmd in v.Entries() <==> cmd in v.log
  {
    Sorting.SortMembers(v.log, NotEarlier);
  }

  // ---------- the tree is made of logged commands ----------

  /** `t` shows `n`. Unless it shows nothing below, it lists every command found by the digest
      of `n`, latest first, and below each command all the files it leads to. At most `depth`
      commands lie on a path down the tree. */
  ghost predicate Faithful(v: View, dir: Direction, n: Node, t: FileDependency, depth: int)
    decreases t
  {
    && t.file == v.workPath(n.path) && t.digest == n.digest && t.out == dir.FanOut?
    && (t.next != [] ==> depth >= 1 && Commands(t.next) == Filter(v.Entries(), cmd => Touches(cmd, dir, n.digest)))
    && forall i :: 0 <= i < |t.next| ==> FaithfulCommand(v, dir, t.next[i], depth - 1)
  }

  /** The file nodes show these files: each as seen from the working directory, with the digest that was
      logged, or that of the host file if none was. */
  ghost predicate ShowsFiles(v: View, files: seq<FileLog>, ts: seq<FileDependency>) {
    && |ts| == |files|
    && forall j :: 0 <= j < |ts| ==>
         && ts[j].file == v.workPath(files[j].path)
         && ts[j].digest == if files[j].digest == "" then v.hashOf(files[j].path) else files[j].digest
  }

  /** What a call answers: the file with the given or else computed digest, and unless the depth is used
      up or the file was covered, all commands of the log with that digest on the near side, latest
      first, each with the files on its far side. */
  ghost predicate Answers(v: View, near: CommandLog -> seq<FileLog>, far: CommandLog -> seq<FileLog>, out: bool, file: Path,
                          depth: int, covered: set<string>, digest: Option<string>, dep: FileDependency)
  {
    && dep.file == v.workPath(file) && dep.out == out
    && dep.digest == (if digest == None || digest == Some("") then v.hashOf(file) else digest.value)
    && (if depth < 1 || file + ":" + dep.digest in covered then dep.next == []
        else Commands(dep.next) == Filter(ListEntries(v.log, true), (cmd: CommandLog) => exists f :: f in near(cmd) && f.digest == dep.digest))
    && forall i :: 0 <= i < |dep.next| ==> dep.next[i].out == out && ShowsFiles(v, far(dep.next[i].command), dep.next[i].next)
  }

  ghost predicate FaithfulCommand(v: View, dir: Direction, c: CommandDependency, depth: int)
    decreases c
  {
    && c.out == dir.FanOut? && |c.next| == |Far(c.command, dir)|
    && forall j :: 0 <= j < |c.next| ==> Faithful(v, dir, NodeOf(v, Far(c.command, dir)[j]), c.next[j], depth)
  }

  ghost function Commands(cs: seq<CommandDependency>): seq<CommandLog> {
    seq(|cs|, i requires 0 <= i < |cs| => cs[i].command)
  }

  lemma {:induction false} SearchIsFaithful(v: View, dir: Direction, n: Node, depth: int, covered: set<string>)
    ensures Faithful(v, dir, n, Search(v, dir, n, depth, covered).value, depth)
    decreases if depth < 0 then 0 else depth, 0, 0
  {
    if depth >= 1 && Key(n) !in covered {
      CommandsAreFaithful(v, dir, n.digest, v.Entries(), depth - 1, covered + {Key(n)});
    }
  }

  lemma {:induction false} CommandsAreFaithful(v: View, dir: Direction, digest: string, entries: seq<CommandLog>,
                                               depth: nat, covered: set<string>)
    ensures var cs := SearchCommands(v, dir, digest, entries, depth, covered).value;
      && Commands(cs) == Filter(entries, cmd => Touches(cmd, dir, digest))
      && forall i :: 0 <= i < |cs| ==> FaithfulCommand(v, dir, cs[i], depth)
    decreases depth, 2, |entries|
  {
    if entries != [] {
      var n := |entries| - 1;
      CommandsAreFaithful(v, dir, digest, entries[..n], depth, covered);
      var before := SearchCommands(v, dir, digest, entries[..n], depth, covered);
      if Touches(entries[n], dir, digest) {
        FilesAreFaithful(v, dir, Far(entries[n], dir), depth, before.covered);
        var files := SearchFiles(v, dir, Far(entries[n], dir), depth, before.covered);
        CommandsAppend(before.value, CommandDependency(entries[n], dir.FanOut?, files.value));
      }
    }
  }

  lemma CommandsAppend(cs: seq<CommandDependency>, c: CommandDependency)
    ensures Commands(cs + [c]) == Commands(cs) + [c.command]
  {
  }

  lemma {:induction false} FilesAreFaithful(v: View, dir: Direction, files: seq<FileLog>, depth: nat, covered: set<string>)
    ensures var ts := SearchFiles(v, dir, files, depth, covered).value;
      forall j :: 0 <= j < |ts| ==> Faithful(v, dir, NodeOf(v, files[j]), ts[j], depth)
    decreases depth, 1, |files|
  {
    if files != [] {
      var n := |files| - 1;
      FilesAreFaithful(v, dir, files[..n], depth, covered);
      SearchIsFaithful(v, dir, NodeOf(v, files[n]), depth, SearchFiles(v, dir, files[..n], depth, covered).covered);
    }
  }

  /** What a file node shows. */
  datatype Label = Label(file: Path, digest: string)

  function LabelOf(v: View, n: Node): Label {
    Label(v.workPath(n.path), n.digest)
  }

  /** A file node labelled `l` lies `k` commands below the root of `t`. */
  ghost predicate AtLevel(t: FileDependency, l: Label, k: nat)
    decreases k
  {
    if k == 0 then l == Label(t.file, t.digest)
    else exists i, j :: 0 <= i < |t.next| && 0 <= j < |t.next[i].next| && AtLevel(t.next[i].next[j], l, k - 1)
  }

  /** A file node at level `k` is linked to the root by exactly `k` logged commands,
      and the depth bounds the level. */
  lemma {:induction false} LevelIsDistance(v: View, dir: Direction, n: Node, t: FileDependency, depth: int, l: Label, k: nat)
    returns (m: Node)
    requires Faithful(v, dir, n, t, depth) && AtLevel(t, l, k)
    ensures k == 0 || k <= depth
    ensures LabelOf(v, m) == l && Linked(v, dir, n, m, k)
    decreases k
  {
    if k == 0 {
      m := n;
    } else {
      var child, below := NextLevel(v, dir, n, t, depth, l, k);
      m := LevelIsDistance(v, dir, child, below, depth - 1, l, k - 1);
      StepThenLinked(v, dir, n, child, m, k);
    }
  }

  lemma NextLevel(v: View, dir: Direction, n: Node, t: FileDependency, depth: int, l: Label, k: nat)
    returns (child: Node, below: FileDependency)
    requires k > 0 && Faithful(v, dir, n, t, depth) && AtLevel(t, l, k)
    ensures Follows(v, dir, n, child) && depth >= 1
    ensures Faithful(v, dir, child, below, depth - 1) && AtLevel(below, l, k - 1)
  {
    var i, j := OneLevelDown(t, l, k);
    child := ChildIsSuccessor(v, dir, n, t, depth, i, j);
    below := t.next[i].next[j];
  }

  lemma OneLevelDown(t: FileDependency, l: Label, k: nat) returns (i: nat, j: nat)
    requires k > 0 && AtLevel(t, l, k)
    ensures i < |t.next| && j < |t.next[i].next| && AtLevel(t.next[i].next[j], l, k - 1)
  {
    i, j :| 0 <= i < |t.next| && 0 <= j < |t.next[i].next| && AtLevel(t.next[i].next[j], l, k - 1);
  }

  lemma ChildIsSuccessor(v: View, dir: Direction, n: Node, t: FileDependency, depth: int, i: nat, j: nat)
    returns (child: Node)
    requires Faithful(v, dir, n, t, depth) && i < |t.next| && j < |t.next[i].next|
    ensures Follows(v, dir, n, child) && Faithful(v, dir, child, t.next[i].next[j], depth - 1) && depth >= 1
  {
    var c := t.next[i];
    assert FaithfulCommand(v, dir, c, depth - 1);
    var f := Far(c.command, dir)[j];
    ListedCommandTouches(v, dir, n, t, depth, i);
    child := NodeOf(v, f);
  }

  lemma ListedCommandTouches(v: View, dir: Direction, n: Node, t: FileDependency, depth: int, i: nat)
    requires Faithful(v, dir, n, t, depth) && i < |t.next|
    ensures var cmd := t.next[i].command; cmd in v.log && Touches(cmd, dir, n.digest)
  {
    var cmd := t.next[i].command;
    var touching := Filter(v.Entries(), c => Touches(c, dir, n.digest));
    assert cmd == Commands(t.next)[i];
    FilterMember(v.Entries(), c => Touches(c, dir, n.digest), cmd);
    EntriesAreTheLog(v);
  }

  // ---------- what the tree shows ----------

  ghost function Labels(t: FileDependency): set<Label>
    decreases t
  {
    {Label(t.file, t.digest)} + LabelsUnder(t.next)
  }

  ghost function LabelsUnder(cs: seq<CommandDependency>): set<Label>
    decreases cs
  {
    set i, l | 0 <= i < |cs| && l in LabelsIn(cs[i].next) :: l
  }

  ghost function LabelsIn(ts: seq<FileDependency>): set<Label>
    decreases ts
  {
    set j, l | 0 <= j < |ts| && l in Labels(ts[j]) :: l
  }

  lemma LabelsAppend(ts: seq<FileDependency>, t: FileDependency)
    ensures LabelsIn(ts + [t]) == LabelsIn(ts) + Labels(t)
  {
    var all := ts + [t];
    assert all[|ts|] == t;
    assert forall j :: 0 <= j < |ts| ==> all[j] == ts[j];
  }

  lemma LabelsUnderAppend(cs: seq<CommandDependency>, c: CommandDependency)
    ensures LabelsUnder(cs + [c]) == LabelsUnder(cs) + LabelsIn(c.next)
  {
    var all := cs + [c];
    assert all[|cs|] == c;
    assert forall i :: 0 <= i < |cs| ==> all[i] == cs[i];
  }

  lemma {:induction false} ShownAtSomeLevel(t: FileDependency, l: Label) returns (k: nat)
    requires l in Labels(t)
    ensures AtLevel(t, l, k)
    decreases t
  {
    if l == Label(t.file, t.digest) {
      k := 0;
    } else {
      var i :| 0 <= i < |t.next| && l in LabelsIn(t.next[i].next);
      var j :| 0 <= j < |t.next[i].next| && l in Labels(t.next[i].next[j]);
      k := ShownAtSomeLevel(t.next[i].next[j], l);
      k := k + 1;
    }
  }

  // ---------- completeness ----------

  /** Digests are hexadecimal, so a key tells path and digest apart. */
  ghost predicate HexDigests(nodes: set<Node>) {
    forall n :: n in nodes ==> ':' !in n.digest
  }

  lemma {:induction false} KeyIsInjective(a: Node, b: Node)
    requires ':' !in a.digest && ':' !in b.digest && Key(a) == Key(b)
    ensures a == b
  {
    var k := Key(a);
    assert k[|a.path|] == ':' && k[|b.path|] == ':';
    assert |a.path| == |b.path|;
    assert a.path == k[..|a.path|] && b.path == k[..|b.path|];
    assert a.digest == k[|a.path| + 1..] && b.digest == k[|b.path| + 1..];
  }

  ghost function Uncovered(nodes: set<Node>, covered: set<string>): set<Node> {
    set n | n in nodes && Key(n) !in covered
  }

  /** Every node that was not covered to begin with is shown. */
  ghost predicate Saturated(v: View, nodes: set<Node>, covered: set<string>, shown: set<Label>) {
    forall n :: n in Uncovered(nodes, covered) ==> LabelOf(v, n) in shown
  }

  /** What a part of the search does to the covered keys: the newly covered nodes are shown,
      and with them their successors are covered, unless the search has already shown
      everything there is. */
  ghost predicate Progress(v: View, dir: Direction, nodes: set<Node>, before: set<string>, after: set<string>,
                           shown: set<Label>)
  {
    && before <= after
    && (forall n :: n in Uncovered(nodes, before) && Key(n) in after ==> LabelOf(v, n) in shown)
    && (Saturated(v, nodes, before, shown) || CoversSuccessors(v, dir, nodes, before, after))
  }

  ghost predicate CoversSuccessors(v: View, dir: Direction, nodes: set<Node>, before: set<string>, after: set<string>) {
    forall n, m :: n in Uncovered(nodes, before) && Key(n) in after && Follows(v, dir, n, m) ==> Key(m) in after
  }

  lemma ProgressComposes(v: View, dir: Direction, nodes: set<Node>, a: set<string>, b: set<string>, c: set<string>,
                         shown: set<Label>, more: set<Label>)
    requires Progress(v, dir, nodes, a, b, shown) && Progress(v, dir, nodes, b, c, more)
    ensures Progress(v, dir, nodes, a, c, shown + more)
    ensures Saturated(v, nodes, a, shown) || Saturated(v, nodes, b, more) ==> Saturated(v, nodes, a, shown + more)
  {
  }

  ghost predicate Searchable(v: View, dir: Direction, nodes: set<Node>) {
    Closed(v, dir, nodes) && HexDigests(nodes)
  }

  /** One node: with at most one uncovered node per unit of depth left, and one more, the
      search covers the node and everything its coverage asks for, or has shown all. */
  lemma {:induction false} SearchProgress(v: View, dir: Direction, nodes: set<Node>, n: Node, depth: int, covered: set<string>)
    requires Searchable(v, dir, nodes) && n in nodes && |Uncovered(nodes, covered)| <= depth + 1
    ensures var r := Search(v, dir, n, depth, covered);
      && Progress(v, dir, nodes, covered, r.covered, Labels(r.value))
      && (Saturated(v, nodes, covered, Labels(r.value)) || Key(n) in r.covered)
      && LabelOf(v, n) in Labels(r.value)
    decreases if depth < 0 then 0 else depth, 0, 0
  {
    var r := Search(v, dir, n, depth, covered);
    if Key(n) in covered {
    } else if depth < 1 {
      assert n in Uncovered(nodes, covered);
      SubsetSize({n}, Uncovered(nodes, covered));
      OnlyMember(n, Uncovered(nodes, covered));
    } else {
      var now := covered + {Key(n)};
      assert n in Uncovered(nodes, covered) && n !in Uncovered(nodes, now);
      SubsetSize(Uncovered(nodes, now), Uncovered(nodes, covered) - {n});
      EntriesAreTheLog(v);
      CommandsProgress(v, dir, nodes, n, v.Entries(), depth - 1, now);
      ExpandedProgress(v, dir, nodes, n, covered, r.covered, LabelsUnder(r.value.next));
    }
  }

  lemma OnlyMember<T>(x: T, s: set<T>)
    requires x in s && |s| <= 1
    ensures s == {x}
  {
    if y :| y in s && y != x {
      SubsetSize({x, y}, s);
    }
  }

  lemma ExpandedProgress(v: View, dir: Direction, nodes: set<Node>, n: Node, covered: set<string>, after: set<string>,
                         below: set<Label>)
    requires Searchable(v, dir, nodes) && n in nodes && Key(n) !in covered
    requires Progress(v, dir, nodes, covered + {Key(n)}, after, below)
    requires Saturated(v, nodes, covered + {Key(n)}, below) || forall m :: Follows(v, dir, n, m) ==> Key(m) in after
    ensures Progress(v, dir, nodes, covered, after, {LabelOf(v, n)} + below)
  {
    var now := covered + {Key(n)};
    forall m | m in Uncovered(nodes, covered) && Key(m) in now ensures m == n {
      KeyIsInjective(m, n);
    }
    assert forall m :: m in Uncovered(nodes, covered) ==> m == n || m in Uncovered(nodes, now);
  }

  lemma {:induction false} CommandsProgress(v: View, dir: Direction, nodes: set<Node>, n: Node, entries: seq<CommandLog>,
                                            depth: nat, covered: set<string>)
    requires Searchable(v, dir, nodes) && n in nodes && |Uncovered(nodes, covered)| <= depth + 1
    requires forall cmd :: cmd in entries ==> cmd in v.log
    ensures var r := SearchCommands(v, dir, n.digest, entries, depth, covered);
      && Progress(v, dir, nodes, covered, r.covered, LabelsUnder(r.value))
      && (Saturated(v, nodes, covered, LabelsUnder(r.value)) ||
          forall cmd, f :: cmd in entries && Touches(cmd, dir, n.digest) && f in Far(cmd, dir) ==> Key(NodeOf(v, f)) in r.covered)
    decreases depth, 2, |entries|
  {
    if entries != [] {
      var k := |entries| - 1;
      var cmd := entries[k];
      CommandsProgress(v, dir, nodes, n, entries[..k], depth, covered);
      var before := SearchCommands(v, dir, n.digest, entries[..k], depth, covered);
      assert entries == entries[..k] + [cmd];
      if Touches(cmd, dir, n.digest) {
        SubsetSize(Uncovered(nodes, before.covered), Uncovered(nodes, covered));
        FarIsClosed(v, dir, nodes, n, cmd);
        FilesProgress(v, dir, nodes, Far(cmd, dir), depth, before.covered);
        var files := SearchFiles(v, dir, Far(cmd, dir), depth, before.covered);
        ProgressComposes(v, dir, nodes, covered, before.covered, files.covered, LabelsUnder(before.value), LabelsIn(files.value));
        LabelsUnderAppend(before.value, CommandDependency(cmd, dir.FanOut?, files.value));
      }
    }
  }

  lemma {:induction false} FilesProgress(v: View, dir: Direction, nodes: set<Node>, files: seq<FileLog>, depth: nat,
                                         covered: set<string>)
    requires Searchable(v, dir, nodes) && |Uncovered(nodes, covered)| <= depth + 1
    requires forall f :: f in files ==> NodeOf(v, f) in nodes
    ensures var r := SearchFiles(v, dir, files, depth, covered);
      && Progress(v, dir, nodes, covered, r.covered, LabelsIn(r.value))
      && (Saturated(v, nodes, covered, LabelsIn(r.value)) || forall f :: f in files ==> Key(NodeOf(v, f)) in r.covered)
    decreases depth, 1, |files|
  {
    if files != [] {
      var k := |files| - 1;
      FilesProgress(v, dir, nodes, files[..k], depth, covered);
      var before := SearchFiles(v, dir, files[..k], depth, covered);
      assert files == files[..k] + [files[k]];
      SubsetSize(Uncovered(nodes, before.covered), Uncovered(nodes, covered));
      var n := NodeOf(v, files[k]);
      SearchProgress(v, dir, nodes, n, depth, before.covered);
      var last := Search(v, dir, n, depth, before.covered);
      ProgressComposes(v, dir, nodes, covered, before.covered, last.covered, LabelsIn(before.value), Labels(last.value));
      LabelsAppend(before.value, last.value);
    }
  }

  ghost function LabelsOf(v: View, nodes: set<Node>): set<Label> {
    set n | n in nodes :: LabelOf(v, n)
  }

  /** Whatever the depth, the tree shows only files that chains of logged commands reach. */
  lemma SearchIsSound(v: View, dir: Direction, root: Node, depth: int, covered: set<string>)
    ensures Labels(Search(v, dir, root, depth, covered).value) <= LabelsOf(v, ReachableNodes(v, dir, root))
  {
    var t := Search(v, dir, root, depth, covered).value;
    SearchIsFaithful(v, dir, root, depth, covered);
    ReachableNodesAreClosed(v, dir, root);
    forall l | l in Labels(t) ensures l in LabelsOf(v, ReachableNodes(v, dir, root)) {
      var k := ShownAtSomeLevel(t, l);
      var m := LevelIsDistance(v, dir, root, t, depth, l, k);
      ClosedUnderChains(v, dir, ReachableNodes(v, dir, root), root, m, k);
    }
  }

  /** With a depth of at least the number of reachable files less one, the tree shows exactly
      the files that chains of logged commands reach, cycles or not. */
  lemma SearchIsComplete(v: View, dir: Direction, root: Node, depth: int)
    requires HexDigests(ReachableNodes(v, dir, root))
    requires depth >= |ReachableNodes(v, dir, root)| - 1
    ensures Labels(Search(v, dir, root, depth, {}).value) == LabelsOf(v, ReachableNodes(v, dir, root))
  {
    var nodes := ReachableNodes(v, dir, root);
    var r := Search(v, dir, root, depth, {});
    ReachableNodesAreClosed(v, dir, root);
    assert Uncovered(nodes, {}) == nodes;
    SearchProgress(v, dir, nodes, root, depth, {});
    SearchIsSound(v, dir, root, depth, {});
    forall n | n in nodes ensures LabelOf(v, n) in Labels(r.value) {
      if !Saturated(v, nodes, {}, Labels(r.value)) {
        var k: nat :| Linked(v, dir, root, n, k);
        CoverageSpreads(v, dir, nodes, r.covered, root, n, k);
        assert n in Uncovered(nodes, {});
      }
    }
  }

  lemma {:induction false} CoverageSpreads(v: View, dir: Direction, nodes: set<Node>, covered: set<string>, a: Node, b: Node, k: nat)
    requires Closed(v, dir, nodes) && CoversSuccessors(v, dir, nodes, {}, covered)
    requires a in nodes && Key(a) in covered && Linked(v, dir, a, b, k)
    ensures Key(b) in covered
    decreases k
  {
    if k > 0 {
      var c := FirstStep(v, dir, a, b, k);
      assert a in Uncovered(nodes, {});
      CoverageSpreads(v, dir, nodes, covered, c, b, k - 1);
    }
  }

  // ---------- cost ----------

  /** The keys of the file nodes that show commands below them, each as often as it does. */
  ghost function Expansions(v: View, dir: Direction, n: Node, t: FileDependency): multiset<string>
    decreases t
  {
    (if t.next == [] then multiset{} else multiset{Key(n)}) + ExpansionsUnder(v, dir, t.next)
  }

  ghost function ExpansionsUnder(v: View, dir: Direction, cs: seq<CommandDependency>): multiset<string>
    decreases cs
  {
    if cs == [] then multiset{}
    else
      var k := |cs| - 1;
      ExpansionsUnder(v, dir, cs[..k]) + ExpansionsIn(v, dir, Far(cs[k].command, dir), cs[k].next)
  }

  ghost function ExpansionsIn(v: View, dir: Direction, files: seq<FileLog>, ts: seq<FileDependency>): multiset<string>
    decreases ts
  {
    if ts == [] || |files| != |ts| then multiset{}
    else
      var k := |ts| - 1;
      ExpansionsIn(v, dir, files[..k], ts[..k]) + Expansions(v, dir, NodeOf(v, files[k]), ts[k])
  }

  ghost function CommandNodes(cs: seq<CommandDependency>): nat
    decreases cs
  {
    if cs == [] then 0
    else
      var k := |cs| - 1;
      CommandNodes(cs[..k]) + 1 + CommandNodesIn(cs[k].next)
  }

  ghost function CommandNodesIn(ts: seq<FileDependency>): nat
    decreases ts
  {
    if ts == [] then 0
    else
      var k := |ts| - 1;
      CommandNodesIn(ts[..k]) + CommandNodes(ts[k].next)
  }

  /** Only nodes are covered, nothing is expanded unless it is newly covered and then once,
      and below it there are no more commands than the log has. */
  ghost predicate Affordable(v: View, nodes: set<Node>, before: set<string>, after: set<string>,
                             expanded: multiset<string>, commands: int)
  {
    && before <= after
    && (forall k :: k in after - before ==> exists n :: n in nodes && Key(n) == k)
    && (forall k :: expanded[k] <= if k in after - before then 1 else 0)
    && commands <= |v.log| * |after - before|
  }

  lemma AffordableComposes(v: View, nodes: set<Node>, a: set<string>, b: set<string>, c: set<string>,
                           expanded: multiset<string>, more: multiset<string>, i: int, j: int)
    requires Affordable(v, nodes, a, b, expanded, i) && Affordable(v, nodes, b, c, more, j)
    ensures Affordable(v, nodes, a, c, expanded + more, i + j)
  {
    DifferenceSize(a, b, c, |v.log|);
    assert forall k :: k in c - a ==> k in c - b || k in b - a;
  }

  lemma DifferenceSize<T>(a: set<T>, b: set<T>, c: set<T>, factor: nat)
    requires a <= b <= c
    ensures factor * |c - a| == factor * |c - b| + factor * |b - a|
  {
    assert c - a == (c - b) + (b - a) && (c - b) !! (b - a);
  }

  lemma {:induction false} SearchIsAffordable(v: View, dir: Direction, nodes: set<Node>, n: Node, depth: int, covered: set<string>)
    requires Closed(v, dir, nodes) && n in nodes
    ensures var r := Search(v, dir, n, depth, covered);
      Affordable(v, nodes, covered, r.covered, Expansions(v, dir, n, r.value), CommandNodes(r.value.next))
    decreases if depth < 0 then 0 else depth, 0, 0
  {
    if depth >= 1 && Key(n) !in covered {
      var now := covered + {Key(n)};
      EntriesAreTheLog(v);
      Sorting.SortMembers(v.log, NotEarlier);
      CommandsAreAffordable(v, dir, nodes, n, v.Entries(), depth - 1, now);
      var r := SearchCommands(v, dir, n.digest, v.Entries(), depth - 1, now);
      ExpansionIsAffordable(v, nodes, n, covered, r.covered, ExpansionsUnder(v, dir, r.value), CommandNodes(r.value) - |v.log|);
    }
  }

  lemma ExpansionIsAffordable(v: View, nodes: set<Node>, n: Node, covered: set<string>, after: set<string>,
                              below: multiset<string>, deeper: int)
    requires n in nodes && Key(n) !in covered
    requires Affordable(v, nodes, covered + {Key(n)}, after, below, deeper)
    ensures Affordable(v, nodes, covered, after, multiset{Key(n)} + below, |v.log| + deeper)
  {
    var now := covered + {Key(n)};
    assert now - covered == {Key(n)};
    assert Affordable(v, nodes, covered, now, multiset{Key(n)}, |v.log|);
    AffordableComposes(v, nodes, covered, now, after, multiset{Key(n)}, below, |v.log|, deeper);
  }

  lemma AppendCommand(v: View, dir: Direction, cs: seq<CommandDependency>, c: CommandDependency)
    ensures ExpansionsUnder(v, dir, cs + [c]) == ExpansionsUnder(v, dir, cs) + ExpansionsIn(v, dir, Far(c.command, dir), c.next)
    ensures CommandNodes(cs + [c]) == CommandNodes(cs) + 1 + CommandNodesIn(c.next)
  {
    assert (cs + [c])[..|cs|] == cs;
  }

  lemma {:induction false} CommandsAreAffordable(v: View, dir: Direction, nodes: set<Node>, n: Node, entries: seq<CommandLog>,
                                                 depth: nat, covered: set<string>)
    requires Closed(v, dir, nodes) && n in nodes
    requires forall cmd :: cmd in entries ==> cmd in v.log
    ensures var r := SearchCommands(v, dir, n.digest, entries, depth, covered);
      Affordable(v, nodes, covered, r.covered, ExpansionsUnder(v, dir, r.value), CommandNodes(r.value) - |entries|)
    decreases depth, 2, |entries|
  {
    if entries != [] {
      var k := |entries| - 1;
      var cmd := entries[k];
      CommandsAreAffordable(v, dir, nodes, n, entries[..k], depth, covered);
      if Touches(cmd, dir, n.digest) {
        var before := SearchCommands(v, dir, n.digest, entries[..k], depth, covered);
        FarIsClosed(v, dir, nodes, n, cmd);
        FilesAreAffordable(v, dir, nodes, Far(cmd, dir), depth, before.covered);
        var files := SearchFiles(v, dir, Far(cmd, dir), depth, before.covered);
        AffordableComposes(v, nodes, covered, before.covered, files.covered,
          ExpansionsUnder(v, dir, before.value), ExpansionsIn(v, dir, Far(cmd, dir), files.value),
          CommandNodes(before.value) - k, CommandNodesIn(files.value));
        AppendCommand(v, dir, before.value, CommandDependency(cmd, dir.FanOut?, files.value));
      }
    }
  }

  lemma {:induction false} FilesAreAffordable(v: View, dir: Direction, nodes: set<Node>, files: seq<FileLog>, depth: nat,
                                              covered: set<string>)
    requires Closed(v, dir, nodes) && forall f :: f in files ==> NodeOf(v, f) in nodes
    ensures var r := SearchFiles(v, dir, files, depth, covered);
      Affordable(v, nodes, covered, r.covered, ExpansionsIn(v, dir, files, r.value), CommandNodesIn(r.value))
    decreases depth, 1, |files|
  {
    if files != [] {
      var k := |files| - 1;
      FilesAreAffordable(v, dir, nodes, files[..k], depth, covered);
      var before := SearchFiles(v, dir, files[..k], depth, covered);
      var n := NodeOf(v, files[k]);
      SearchIsAffordable(v, dir, nodes, n, depth, before.covered);
      var last := Search(v, dir, n, depth, before.covered);
      AffordableComposes(v, nodes, covered, before.covered, last.covered,
        ExpansionsIn(v, dir, files[..k], before.value), Expansions(v, dir, n, last.value),
        CommandNodesIn(before.value), CommandNodes(last.value.next));
      assert (before.value + [last.value])[..k] == before.value;
    }
  }

  lemma {:induction false} ImageSize(nodes: set<Node>, keys: set<string>)
    requires forall k :: k in keys ==> exists n :: n in nodes && Key(n) == k
    ensures |keys| <= |nodes|
  {
    if k :| k in keys {
      var n :| n in nodes && Key(n) == k;
      ImageSize(nodes - {n}, keys - {k});
    }
  }

  /** Whatever the depth: no key is expanded twice, and there are at most as many command
      nodes as reachable files times logged commands. */
  lemma SearchCost(v: View, dir: Direction, root: Node, depth: int)
    ensures var t := Search(v, dir, root, depth, {}).value;
      && (forall k :: Expansions(v, dir, root, t)[k] <= 1)
      && CommandNodes(t.next) <= |v.log| * |ReachableNodes(v, dir, root)|
  {
    var nodes := ReachableNodes(v, dir, root);
    var r := Search(v, dir, root, depth, {});
    ReachableNodesAreClosed(v, dir, root);
    SearchIsAffordable(v, dir, nodes, root, depth, {});
    assert r.covered - {} == r.covered;
    ImageSize(nodes, r.covered);
    MoreTimes(|v.log|, |r.covered|, |nodes|);
  }

  lemma MoreTimes(a: nat, b: int, c: int)
    requires b <= c
    ensures a * b <= a * c
  {
  }

  // ---------- fan-in and fan-out are converse ----------

  ghost predicate DigestsLogged(v: View) {
    forall cmd, f :: cmd in v.log && (f in cmd.inFiles || f in cmd.outFiles) ==> f.digest != ""
  }

  /** A chain read backwards. */
  lemma {:induction false} ChainReversed(v: View, dir: Direction, a: Node, b: Node, k: nat, start: Node)
    returns (end: Node)
    requires DigestsLogged(v) && Linked(v, dir, a, b, k) && start.digest == b.digest
    ensures end.digest == a.digest && Linked(v, dir.Opposite(), start, end, k)
    decreases k
  {
    if k == 0 {
      end := start;
    } else {
      var c := FirstStep(v, dir, a, b, k);
      var middle := ChainReversed(v, dir, c, b, k - 1, start);
      end := StepReversed(v, dir, a, c, middle);
      LinkedThenStep(v, dir.Opposite(), start, middle, end, k);
    }
  }

  lemma StepReversed(v: View, dir: Direction, a: Node, c: Node, from: Node) returns (end: Node)
    requires DigestsLogged(v) && Follows(v, dir, a, c) && from.digest == c.digest
    ensures end.digest == a.digest && Follows(v, dir.Opposite(), from, end)
  {
    var cmd :| cmd in v.log && Touches(cmd, dir, a.digest) && LeadsTo(v, dir, cmd, c);
    var f :| f in Far(cmd, dir) && NodeOf(v, f) == c;
    var g :| g in Near(cmd, dir) && g.digest == a.digest;
    end := NodeOf(v, g);
    assert Touches(cmd, dir.Opposite(), from.digest);
    assert LeadsTo(v, dir.Opposite(), cmd, end);
  }

  ghost predicate ShowsDigest(t: FileDependency, digest: string) {
    exists l :: l in Labels(t) && l.digest == digest
  }

  /** The depth is enough for the tree of `root`. */
  ghost predicate DeepEnough(v: View, dir: Direction, root: Node, depth: int) {
    HexDigests(ReachableNodes(v, dir, root)) && depth >= |ReachableNodes(v, dir, root)| - 1
  }

  lemma ShownBackwards(v: View, dir: Direction, a: Node, b: Node, depth: int, back: int)
    requires DigestsLogged(v) && DeepEnough(v, dir, a, depth) && DeepEnough(v, dir.Opposite(), b, back)
    requires ShowsDigest(Search(v, dir, a, depth, {}).value, b.digest)
    ensures ShowsDigest(Search(v, dir.Opposite(), b, back, {}).value, a.digest)
  {
    SearchIsComplete(v, dir, a, depth);
    SearchIsComplete(v, dir.Opposite(), b, back);
    var l :| l in LabelsOf(v, ReachableNodes(v, dir, a)) && l.digest == b.digest;
    var m :| m in ReachableNodes(v, dir, a) && LabelOf(v, m) == l;
    var k: nat :| Linked(v, dir, a, m, k);
    var end := ChainReversed(v, dir, a, m, k, b);
    ReachableNodesAreClosed(v, dir.Opposite(), b);
    ClosedUnderChains(v, dir.Opposite(), ReachableNodes(v, dir.Opposite(), b), b, end, k);
    assert LabelOf(v, end) in LabelsOf(v, ReachableNodes(v, dir.Opposite(), b));
  }

  /** The fan-in tree of a file shows a digest exactly when the fan-out tree of any file with
      that digest shows the digest of the first. */
  lemma FanInAndFanOutAreConverse(v: View, a: Node, b: Node, depth: int, back: int)
    requires DigestsLogged(v) && DeepEnough(v, FanIn, a, depth) && DeepEnough(v, FanOut, b, back)
    ensures ShowsDigest(Search(v, FanIn, a, depth, {}).value, b.digest)
       <==> ShowsDigest(Search(v, FanOut, b, back, {}).value, a.digest)
  {
    if ShowsDigest(Search(v, FanIn, a, depth, {}).value, b.digest) {
      ShownBackwards(v, FanIn, a, b, depth, back);
    }
    if ShowsDigest(Search(v, FanOut, b, back, {}).value, a.digest) {
      ShownBackwards(v, FanOut, b, a, back, depth);
    }
  }
}
