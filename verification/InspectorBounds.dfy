/**
 How deep the search has to go: to show everything that can be reached, and to show everything
 that lies within its depth. Both bounds are exact.
 */
module InspectorBounds {
  import opened CommandLogs
  import opened Inspector
  import Sorting

  /** The tree shows exactly what chains of logged commands reach. */
  ghost predicate Complete(v: View, dir: Direction, root: Node, depth: int) {
    Labels(Search(v, dir, root, depth, {}).value) == LabelsOf(v, ReachableNodes(v, dir, root))
  }

  ghost predicate Suffices(n: nat, depth: int) {
    forall v, dir, root ::
      HexDigests(ReachableNodes(v, dir, root)) && |ReachableNodes(v, dir, root)| == n ==> Complete(v, dir, root, depth)
  }

  /** For searches that can reach `n` files, a depth suffices exactly from `n - 1` on
      (a root from which nothing else is reached is shown at any depth). */
  lemma ExactDepthBound(n: nat, depth: int)
    requires n >= 1
    ensures Suffices(n, depth) <==> n == 1 || depth >= n - 1
  {
    if n == 1 || depth >= n - 1 {
      forall v, dir, root | HexDigests(ReachableNodes(v, dir, root)) && |ReachableNodes(v, dir, root)| == n
        ensures Complete(v, dir, root, depth)
      {
        if depth >= n - 1 {
          SearchIsComplete(v, dir, root, depth);
        } else {
          ReachableNodesAreClosed(v, dir, root);
          OnlyMember(root, ReachableNodes(v, dir, root));
        }
      }
    } else {
      LineIsMissed(n, depth);
      assert !Complete(Road(n, false), FanIn, Stop(0), depth);
    }
  }

  /** Every file within `depth` commands of the root is shown. */
  ghost predicate ShownWithin(v: View, dir: Direction, root: Node, depth: int) {
    forall m, k: nat :: k <= depth && Linked(v, dir, root, m, k) ==>
      LabelOf(v, m) in Labels(Search(v, dir, root, depth, {}).value)
  }

  ghost predicate DepthIsDistance(n: nat, depth: int) {
    forall v, dir, root ::
      HexDigests(ReachableNodes(v, dir, root)) && |ReachableNodes(v, dir, root)| == n ==> ShownWithin(v, dir, root, depth)
  }

  /** For searches that can reach `n` files, everything within the depth is shown exactly if the
      depth is at most 2 or everything is shown: in between, a file can be met first by a detour,
      with too little depth left, and is not looked at again. */
  lemma ExactDistanceBound(n: nat, depth: int)
    requires n >= 1
    ensures DepthIsDistance(n, depth) <==> depth <= 2 || depth >= n - 1
  {
    if depth <= 2 || depth >= n - 1 {
      forall v, dir, root | HexDigests(ReachableNodes(v, dir, root)) && |ReachableNodes(v, dir, root)| == n
        ensures ShownWithin(v, dir, root, depth)
      {
        if depth >= n - 1 {
          CompleteShowsWithin(v, dir, root, depth);
        } else {
          ShallowShowsWithin(v, dir, root, depth);
        }
      }
    } else {
      DetourIsMissed(n, depth);
      assert !ShownWithin(Road(n, true), FanIn, Stop(0), depth);
    }
  }

  lemma CompleteShowsWithin(v: View, dir: Direction, root: Node, depth: int)
    requires HexDigests(ReachableNodes(v, dir, root)) && depth >= |ReachableNodes(v, dir, root)| - 1
    ensures ShownWithin(v, dir, root, depth)
  {
    SearchIsComplete(v, dir, root, depth);
    ReachableNodesAreClosed(v, dir, root);
    forall m, k: nat | k <= depth && Linked(v, dir, root, m, k)
      ensures LabelOf(v, m) in Labels(Search(v, dir, root, depth, {}).value)
    {
      ClosedUnderChains(v, dir, ReachableNodes(v, dir, root), root, m, k);
    }
  }

  lemma ShallowShowsWithin(v: View, dir: Direction, root: Node, depth: int)
    requires HexDigests(ReachableNodes(v, dir, root)) && depth <= 2
    ensures ShownWithin(v, dir, root, depth)
  {
    var nodes := ReachableNodes(v, dir, root);
    ReachableNodesAreClosed(v, dir, root);
    SearchShowsNext(v, dir, nodes, root, depth, {});
    forall m, k: nat | k <= depth && Linked(v, dir, root, m, k)
      ensures LabelOf(v, m) in Labels(Search(v, dir, root, depth, {}).value)
    {
      if k > 0 {
        var c := FirstStep(v, dir, root, m, k);
        assert root in Uncovered(nodes, {}) && c in Uncovered(nodes, {});
        if k == 2 {
          var d := FirstStep(v, dir, c, m, 1);
        }
      }
    }
  }

  // ---------- what is looked at shows its neighbours ----------

  /** The successors of what is newly covered are shown. */
  ghost predicate ShowsNext(v: View, dir: Direction, nodes: set<Node>, before: set<string>, after: set<string>,
                            shown: set<Label>)
  {
    && before <= after
    && forall n, m :: n in Uncovered(nodes, before) && Key(n) in after && Follows(v, dir, n, m) ==> LabelOf(v, m) in shown
  }

  lemma ShowsNextComposes(v: View, dir: Direction, nodes: set<Node>, a: set<string>, b: set<string>, c: set<string>,
                          shown: set<Label>, more: set<Label>)
    requires ShowsNext(v, dir, nodes, a, b, shown) && ShowsNext(v, dir, nodes, b, c, more)
    ensures ShowsNext(v, dir, nodes, a, c, shown + more)
  {
  }

  /** At any depth; with depth left the node itself is covered, with more its successors are. */
  lemma {:induction false} SearchShowsNext(v: View, dir: Direction, nodes: set<Node>, n: Node, depth: int, covered: set<string>)
    requires Searchable(v, dir, nodes) && n in nodes
    ensures var r := Search(v, dir, n, depth, covered);
      && ShowsNext(v, dir, nodes, covered, r.covered, Labels(r.value))
      && LabelOf(v, n) in Labels(r.value)
      && (depth >= 1 ==> Key(n) in r.covered)
      && (depth >= 2 && Key(n) !in covered ==> forall m :: Follows(v, dir, n, m) ==> Key(m) in r.covered)
    decreases if depth < 0 then 0 else depth, 0, 0
  {
    if depth >= 1 && Key(n) !in covered {
      var now := covered + {Key(n)};
      EntriesAreTheLog(v);
      CommandsShowNext(v, dir, nodes, n, v.Entries(), depth - 1, now);
      var r := SearchCommands(v, dir, n.digest, v.Entries(), depth - 1, now);
      NextOfExpanded(v, dir, nodes, n, covered, r.covered, LabelsUnder(r.value));
    }
  }

  lemma NextOfExpanded(v: View, dir: Direction, nodes: set<Node>, n: Node, covered: set<string>, after: set<string>,
                       below: set<Label>)
    requires Searchable(v, dir, nodes) && n in nodes && Key(n) !in covered
    requires ShowsNext(v, dir, nodes, covered + {Key(n)}, after, below)
    requires forall m :: Follows(v, dir, n, m) ==> LabelOf(v, m) in below
    ensures ShowsNext(v, dir, nodes, covered, after, {LabelOf(v, n)} + below)
  {
    var now := covered + {Key(n)};
    forall m | m in Uncovered(nodes, covered) && Key(m) in now ensures m == n {
      KeyIsInjective(m, n);
    }
    assert forall m :: m in Uncovered(nodes, covered) ==> m == n || m in Uncovered(nodes, now);
  }

  lemma {:induction false} CommandsShowNext(v: View, dir: Direction, nodes: set<Node>, n: Node, entries: seq<CommandLog>,
                                            depth: nat, covered: set<string>)
    requires Searchable(v, dir, nodes) && n in nodes
    requires forall cmd :: cmd in entries ==> cmd in v.log
    ensures var r := SearchCommands(v, dir, n.digest, entries, depth, covered);
      && ShowsNext(v, dir, nodes, covered, r.covered, LabelsUnder(r.value))
      && forall cmd, f :: cmd in entries && Touches(cmd, dir, n.digest) && f in Far(cmd, dir) ==>
           LabelOf(v, NodeOf(v, f)) in LabelsUnder(r.value) && (depth >= 1 ==> Key(NodeOf(v, f)) in r.covered)
    decreases depth, 2, |entries|
  {
    if entries != [] {
      var k := |entries| - 1;
      var cmd := entries[k];
      CommandsShowNext(v, dir, nodes, n, entries[..k], depth, covered);
      var before := SearchCommands(v, dir, n.digest, entries[..k], depth, covered);
      assert entries == entries[..k] + [cmd];
      if Touches(cmd, dir, n.digest) {
        FarIsClosed(v, dir, nodes, n, cmd);
        FilesShowNext(v, dir, nodes, Far(cmd, dir), depth, before.covered);
        var files := SearchFiles(v, dir, Far(cmd, dir), depth, before.covered);
        ShowsNextComposes(v, dir, nodes, covered, before.covered, files.covered, LabelsUnder(before.value), LabelsIn(files.value));
        LabelsUnderAppend(before.value, CommandDependency(cmd, dir.FanOut?, files.value));
      }
    }
  }

  lemma {:induction false} FilesShowNext(v: View, dir: Direction, nodes: set<Node>, files: seq<FileLog>, depth: nat,
                                         covered: set<string>)
    requires Searchable(v, dir, nodes) && forall f :: f in files ==> NodeOf(v, f) in nodes
    ensures var r := SearchFiles(v, dir, files, depth, covered);
      && ShowsNext(v, dir, nodes, covered, r.covered, LabelsIn(r.value))
      && forall f :: f in files ==>
           LabelOf(v, NodeOf(v, f)) in LabelsIn(r.value) && (depth >= 1 ==> Key(NodeOf(v, f)) in r.covered)
    decreases depth, 1, |files|
  {
    if files != [] {
      var k := |files| - 1;
      FilesShowNext(v, dir, nodes, files[..k], depth, covered);
      var before := SearchFiles(v, dir, files[..k], depth, covered);
      assert files == files[..k] + [files[k]];
      var n := NodeOf(v, files[k]);
      SearchShowsNext(v, dir, nodes, n, depth, before.covered);
      var last := Search(v, dir, n, depth, before.covered);
      ShowsNextComposes(v, dir, nodes, covered, before.covered, last.covered, LabelsIn(before.value), Labels(last.value));
      LabelsAppend(before.value, last.value);
    }
  }

  // ---------- a line of commands, each reading what the next one wrote ----------

  function Name(i: nat): string {
    if i == 0 then "a" else "a" + Name(i - 1)
  }

  lemma {:induction false} NameLength(i: nat)
    ensures |Name(i)| == i + 1 && ':' !in Name(i)
  {
    if i > 0 {
      NameLength(i - 1);
    }
  }

  function File(i: nat): FileLog {
    FileLog(Name(i), Name(i))
  }

  function Stop(i: nat): Node {
    Node(Name(i), Name(i))
  }

  /** Command `i` made file `i` of file `i + 1`; with a detour, command 0 used file 2 besides. */
  function RoadCommand(detour: bool, i: nat): CommandLog {
    CommandLog([], 0, if detour && i == 0 then [File(1), File(2)] else [File(i + 1)], [File(i)])
  }

  function Road(n: nat, detour: bool): View {
    View(seq(if n == 0 then 0 else n - 1, i requires i >= 0 => RoadCommand(detour, i)), p => "", p => p)
  }

  lemma RoadTouches(detour: bool, i: nat, j: nat)
    ensures Touches(RoadCommand(detour, j), FanIn, Name(i)) <==> i == j
  {
    NameLength(i);
    NameLength(j);
    var near := Near(RoadCommand(detour, j), FanIn);
    assert near == [File(j)];
    assert File(j) in near;
  }

  lemma RoadNode(v: View, i: nat)
    ensures NodeOf(v, File(i)) == Stop(i)
  {
    NameLength(i);
  }

  lemma RoadLeadsTo(v: View, detour: bool, i: nat, b: Node)
    ensures LeadsTo(v, FanIn, RoadCommand(detour, i), b) <==> b == Stop(i + 1) || (detour && i == 0 && b == Stop(2))
  {
    var far := Far(RoadCommand(detour, i), FanIn);
    RoadNode(v, i + 1);
    RoadNode(v, 2);
    assert File(i + 1) in far;
    assert detour && i == 0 ==> File(2) in far;
  }

  lemma RoadFollows(n: nat, detour: bool, i: nat, b: Node)
    requires i < n
    ensures Follows(Road(n, detour), FanIn, Stop(i), b) <==>
      i + 1 < n && (b == Stop(i + 1) || (detour && i == 0 && b == Stop(2)))
  {
    var v := Road(n, detour);
    RoadLeadsTo(v, detour, i, b);
    forall cmd | cmd in v.log && Touches(cmd, FanIn, Stop(i).digest) ensures i + 1 < n && cmd == RoadCommand(detour, i) {
      var j :| 0 <= j < |v.log| && v.log[j] == cmd;
      RoadTouches(detour, i, j);
    }
    if i + 1 < n {
      assert v.log[i] == RoadCommand(detour, i) && v.log[i] in v.log;
      RoadTouches(detour, i, i);
    }
  }

  /** From stop `from` on there is one way only, and it ends before `n`. */
  ghost predicate OneWay(v: View, from: nat, n: nat) {
    forall i: nat, b :: from <= i < n && Follows(v, FanIn, Stop(i), b) ==> i + 1 < n && b == Stop(i + 1)
  }

  lemma RoadIsOneWay(n: nat, detour: bool)
    ensures OneWay(Road(n, detour), if detour then 1 else 0, n)
  {
    forall i: nat, b | (if detour then 1 else 0) <= i < n && Follows(Road(n, detour), FanIn, Stop(i), b)
      ensures i + 1 < n && b == Stop(i + 1)
    {
      RoadFollows(n, detour, i, b);
    }
  }

  lemma {:induction false} OneWayLinked(v: View, from: nat, n: nat, i: nat, b: Node, k: nat)
    requires OneWay(v, from, n) && from <= i < n && Linked(v, FanIn, Stop(i), b, k)
    ensures i + k < n && b == Stop(i + k)
    decreases k
  {
    if k > 0 {
      var c := FirstStep(v, FanIn, Stop(i), b, k);
      OneWayLinked(v, from, n, i + 1, b, k - 1);
    }
  }

  ghost predicate Onward(v: View, i: nat) {
    Follows(v, FanIn, Stop(i), Stop(i + 1))
  }

  lemma {:induction false} OnwardLinks(v: View, root: Node, i: nat, j: nat, k: nat)
    requires i <= j && Linked(v, FanIn, root, Stop(i), k)
    requires forall m: nat :: i <= m < j ==> Onward(v, m)
    ensures Linked(v, FanIn, root, Stop(j), k + j - i)
    decreases j
  {
    if i < j {
      OnwardLinks(v, root, i, j - 1, k);
      assert Onward(v, j - 1);
      LinkedThenStep(v, FanIn, root, Stop(j - 1), Stop(j), k + j - i);
    }
  }

  lemma RoadGoesOn(n: nat, detour: bool, i: nat)
    requires i + 1 < n
    ensures Onward(Road(n, detour), i)
  {
    RoadFollows(n, detour, i, Stop(i + 1));
  }

  lemma RoadLinks(n: nat, detour: bool, k: nat)
    requires k < n
    ensures Linked(Road(n, detour), FanIn, Stop(0), Stop(k), k)
  {
    forall m: nat | 0 <= m < k ensures Onward(Road(n, detour), m) {
      RoadGoesOn(n, detour, m);
    }
    OnwardLinks(Road(n, detour), Stop(0), 0, k, 0);
  }

  /** By way of file 2 everything behind it is a command nearer. */
  lemma ShortLinks(n: nat, k: nat)
    requires 2 <= k < n
    ensures Linked(Road(n, true), FanIn, Stop(0), Stop(k), k - 1)
  {
    var v := Road(n, true);
    RoadFollows(n, true, 0, Stop(2));
    OneStep(v, Stop(0), Stop(2));
    forall m: nat | 2 <= m < k ensures Onward(v, m) {
      RoadGoesOn(n, true, m);
    }
    OnwardLinks(v, Stop(0), 2, k, 1);
  }

  lemma OneStep(v: View, a: Node, b: Node)
    requires Follows(v, FanIn, a, b)
    ensures Linked(v, FanIn, a, b, 1)
  {
    assert Linked(v, FanIn, a, a, 0);
    LinkedThenStep(v, FanIn, a, a, b, 1);
  }

  ghost function Stops(n: nat): set<Node> {
    set i | 0 <= i < n :: Stop(i)
  }

  lemma {:induction false} CountStops(n: nat)
    ensures |Stops(n)| == n && HexDigests(Stops(n))
  {
    if n > 0 {
      CountStops(n - 1);
      NameLength(n - 1);
      forall i: nat | i < n - 1 ensures Stop(i) != Stop(n - 1) {
        NameLength(i);
      }
      assert Stops(n) == Stops(n - 1) + {Stop(n - 1)};
    }
  }

  lemma RoadIsClosed(n: nat, detour: bool)
    requires detour ==> n >= 3
    ensures Closed(Road(n, detour), FanIn, Stops(n))
  {
    forall a, b | a in Stops(n) && Follows(Road(n, detour), FanIn, a, b) ensures b in Stops(n) {
      var i: nat :| i < n && a == Stop(i);
      RoadFollows(n, detour, i, b);
    }
  }

  lemma RoadReaches(n: nat, detour: bool)
    requires n >= 1 && (detour ==> n >= 3)
    ensures ReachableNodes(Road(n, detour), FanIn, Stop(0)) == Stops(n)
  {
    var v := Road(n, detour);
    var nodes := ReachableNodes(v, FanIn, Stop(0));
    ReachableNodesAreClosed(v, FanIn, Stop(0));
    RoadIsClosed(n, detour);
    forall b | b in nodes ensures b in Stops(n) {
      var k: nat :| Linked(v, FanIn, Stop(0), b, k);
      ClosedUnderChains(v, FanIn, Stops(n), Stop(0), b, k);
    }
    forall b | b in Stops(n) ensures b in nodes {
      var i: nat :| i < n && b == Stop(i);
      RoadLinks(n, detour, i);
      ClosedUnderChains(v, FanIn, nodes, Stop(0), b, i);
    }
  }

  lemma RoadSize(n: nat, detour: bool)
    requires n >= 1 && (detour ==> n >= 3)
    ensures var nodes := ReachableNodes(Road(n, detour), FanIn, Stop(0)); |nodes| == n && HexDigests(nodes)
  {
    RoadReaches(n, detour);
    CountStops(n);
  }

  /** On one way, what is shown from a stop lies no further than the depth. */
  lemma ShownOnOneWay(v: View, from: nat, n: nat, i: nat, depth: int, covered: set<string>, j: nat)
    requires OneWay(v, from, n) && from <= i < n
    requires LabelOf(v, Stop(j)) in Labels(Search(v, FanIn, Stop(i), depth, covered).value)
    ensures j == i || j <= i + depth
  {
    var t := Search(v, FanIn, Stop(i), depth, covered).value;
    SearchIsFaithful(v, FanIn, Stop(i), depth, covered);
    var k := ShownAtSomeLevel(t, LabelOf(v, Stop(j)));
    var m := LevelIsDistance(v, FanIn, Stop(i), t, depth, LabelOf(v, Stop(j)), k);
    OneWayLinked(v, from, n, i, m, k);
    SameDigest(v, i + k, j);
  }

  lemma SameDigest(v: View, i: nat, j: nat)
    requires LabelOf(v, Stop(i)) == LabelOf(v, Stop(j))
    ensures i == j
  {
    NameLength(i);
    NameLength(j);
  }

  /** The last file of the road lies `n - 1` commands from the first. */
  lemma LineIsMissed(n: nat, depth: int)
    requires n >= 2 && depth < n - 1
    ensures var nodes := ReachableNodes(Road(n, false), FanIn, Stop(0)); |nodes| == n && HexDigests(nodes)
    ensures !Complete(Road(n, false), FanIn, Stop(0), depth)
  {
    RoadReaches(n, false);
    CountStops(n);
    assert LabelOf(Road(n, false), Stop(n - 1)) in LabelsOf(Road(n, false), Stops(n));
    if Complete(Road(n, false), FanIn, Stop(0), depth) {
      RoadIsOneWay(n, false);
      ShownOnOneWay(Road(n, false), 0, n, 0, depth, {}, n - 1);
    }
  }

  // ---------- the detour ----------

  /** If one entry only has the digest, that one command is listed. */
  lemma {:induction false} OneCommand(v: View, digest: string, entries: seq<CommandLog>, k: nat, depth: nat, covered: set<string>)
    requires k < |entries|
    requires forall i :: 0 <= i < |entries| ==> (Touches(entries[i], FanIn, digest) <==> i == k)
    ensures var files := SearchFiles(v, FanIn, Far(entries[k], FanIn), depth, covered);
      SearchCommands(v, FanIn, digest, entries, depth, covered)
      == Found([CommandDependency(entries[k], false, files.value)], files.covered)
  {
    var n := |entries| - 1;
    if k < n {
      OneCommand(v, digest, entries[..n], k, depth, covered);
    } else {
      NoCommand(v, digest, entries[..n], depth, covered);
      var files := SearchFiles(v, FanIn, Far(entries[n], FanIn), depth, covered);
      var cmd := CommandDependency(entries[n], false, files.value);
      assert [] + [cmd] == [cmd];
    }
  }

  lemma {:induction false} NoCommand(v: View, digest: string, entries: seq<CommandLog>, depth: nat, covered: set<string>)
    requires forall i :: 0 <= i < |entries| ==> !Touches(entries[i], FanIn, digest)
    ensures SearchCommands(v, FanIn, digest, entries, depth, covered) == Found([], covered)
  {
    if entries != [] {
      NoCommand(v, digest, entries[..|entries| - 1], depth, covered);
    }
  }

  lemma OneFile(v: View, i: nat, depth: nat, covered: set<string>)
    ensures var r := Search(v, FanIn, Stop(i), depth, covered);
      SearchFiles(v, FanIn, [File(i)], depth, covered) == Found([r.value], r.covered)
  {
    NameLength(i);
    var files := [File(i)];
    assert files[..0] == [];
    assert NodeOf(v, files[0]) == Stop(i);
    var r := Search(v, FanIn, Stop(i), depth, covered);
    assert [] + [r.value] == [r.value];
  }

  lemma TwoFiles(v: View, i: nat, j: nat, depth: nat, covered: set<string>)
    ensures var r := Search(v, FanIn, Stop(i), depth, covered);
      var q := Search(v, FanIn, Stop(j), depth, r.covered);
      SearchFiles(v, FanIn, [File(i), File(j)], depth, covered) == Found([r.value, q.value], q.covered)
  {
    OneFile(v, i, depth, covered);
    NameLength(j);
    var files := [File(i), File(j)];
    assert files[..1] == [File(i)];
    assert NodeOf(v, files[1]) == Stop(j);
    var r := Search(v, FanIn, Stop(i), depth, covered);
    var q := Search(v, FanIn, Stop(j), depth, r.covered);
    assert [r.value] + [q.value] == [r.value, q.value];
  }

  /** The tree of file 0: file 1, with all that the depth allows, and file 2, met before through
      file 1 and now a leaf. */
  lemma DetourTree(n: nat, depth: int)
    requires n >= 5 && depth >= 3
    ensures var v := Road(n, true);
      var one := Search(v, FanIn, Stop(1), depth - 1, {Key(Stop(0))}).value;
      Labels(Search(v, FanIn, Stop(0), depth, {}).value)
      == {LabelOf(v, Stop(0))} + Labels(one) + {LabelOf(v, Stop(2))}
  {
    var v := Road(n, true);
    var now := {Key(Stop(0))};
    assert {} + now == now;
    DetourCommand(n, depth - 1, now);
    TwoFiles(v, 1, 2, depth - 1, now);
    TwoIsCovered(n, depth - 1);
    var one := Search(v, FanIn, Stop(1), depth - 1, now);
    var two := Search(v, FanIn, Stop(2), depth - 1, one.covered).value;
    LabelsOfTwo(Search(v, FanIn, Stop(0), depth, {}).value, RoadCommand(true, 0), one.value, two);
  }

  lemma LabelsOfTwo(t: FileDependency, cmd: CommandLog, one: FileDependency, two: FileDependency)
    requires t.next == [CommandDependency(cmd, false, [one, two])]
    ensures Labels(t) == {Label(t.file, t.digest)} + Labels(one) + Labels(two)
  {
    LabelsUnderOne(t.next[0]);
    LabelsInTwo(one, two);
  }

  lemma LabelsUnderOne(c: CommandDependency)
    ensures LabelsUnder([c]) == LabelsIn(c.next)
  {
    LabelsUnderAppend([], c);
    assert [] + [c] == [c];
  }

  lemma LabelsInTwo(one: FileDependency, two: FileDependency)
    ensures LabelsIn([one, two]) == Labels(one) + Labels(two)
  {
    LabelsAppend([], one);
    LabelsAppend([one], two);
    assert [] + [one] == [one] && [one] + [two] == [one, two];
  }

  lemma DetourCommand(n: nat, depth: nat, covered: set<string>)
    requires n >= 2
    ensures var v := Road(n, true);
      var files := SearchFiles(v, FanIn, [File(1), File(2)], depth, covered);
      SearchCommands(v, FanIn, Name(0), v.Entries(), depth, covered)
      == Found([CommandDependency(RoadCommand(true, 0), false, files.value)], files.covered)
  {
    var v := Road(n, true);
    Sorting.SortOfSorted(v.log, NotEarlier);
    forall j | 0 <= j < |v.log| ensures Touches(v.log[j], FanIn, Name(0)) <==> j == 0 {
      RoadTouches(true, 0, j);
    }
    OneCommand(v, Name(0), v.log, 0, depth, covered);
  }

  lemma TwoIsCovered(n: nat, depth: int)
    requires n >= 3 && depth >= 2
    ensures Key(Stop(2)) in Search(Road(n, true), FanIn, Stop(1), depth, {Key(Stop(0))}).covered
  {
    var v := Road(n, true);
    RoadIsClosed(n, true);
    CountStops(n);
    NameLength(0);
    NameLength(1);
    assert Key(Stop(0)) != Key(Stop(1));
    assert Stop(1) in Stops(n);
    SearchShowsNext(v, FanIn, Stops(n), Stop(1), depth, {Key(Stop(0))});
    RoadFollows(n, true, 1, Stop(2));
  }

  /** File `depth + 1` lies `depth` commands from file 0, by way of file 2, and is missing. */
  lemma DetourIsMissed(n: nat, depth: int)
    requires 3 <= depth <= n - 2
    ensures var nodes := ReachableNodes(Road(n, true), FanIn, Stop(0)); |nodes| == n && HexDigests(nodes)
    ensures !ShownWithin(Road(n, true), FanIn, Stop(0), depth)
  {
    RoadSize(n, true);
    FarIsNear(n, depth);
  }

  lemma FarIsNear(n: nat, depth: int)
    requires 3 <= depth <= n - 2
    ensures !ShownWithin(Road(n, true), FanIn, Stop(0), depth)
  {
    ShortLinks(n, depth + 1);
    FarIsMissing(n, depth);
    MissingWithin(Road(n, true), Stop(0), depth, Stop(depth + 1));
  }

  lemma MissingWithin(v: View, root: Node, depth: nat, m: Node)
    requires Linked(v, FanIn, root, m, depth)
    requires LabelOf(v, m) !in Labels(Search(v, FanIn, root, depth, {}).value)
    ensures !ShownWithin(v, FanIn, root, depth)
  {
  }

  lemma FarIsMissing(n: nat, depth: int)
    requires 3 <= depth <= n - 2
    ensures var v := Road(n, true); LabelOf(v, Stop(depth + 1)) !in Labels(Search(v, FanIn, Stop(0), depth, {}).value)
  {
    var v := Road(n, true);
    DetourTree(n, depth);
    RoadIsOneWay(n, true);
    var far := LabelOf(v, Stop(depth + 1));
    if far in Labels(Search(v, FanIn, Stop(1), depth - 1, {Key(Stop(0))}).value) {
      ShownOnOneWay(v, 1, n, 1, depth - 1, {Key(Stop(0))}, depth + 1);
    } else if far == LabelOf(v, Stop(0)) {
      SameDigest(v, depth + 1, 0);
    } else if far == LabelOf(v, Stop(2)) {
      SameDigest(v, depth + 1, 2);
    }
  }
}
