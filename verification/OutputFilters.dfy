/**
 Choosing which of the container's changed paths to download: paths that lead to other
 candidates go, then paths outside the working directory, then what the filters reject.
 */
module OutputFilters {
  import opened Sequences
  import opened Text
  import opened Sorting
  import opened Paths
  import opened Matching

  const IGNORE_FILENAME := ".cincanignore"

  // ---------- splitting the filters ----------

  /** Whether filter `j` is popped by a comprehension that pops from the list it enumerates. */
  predicate Popped(fs: seq<FileMatcher>, j: nat)
    requires j < |fs|
  {
    fs[j].includes && (j == 0 || !Popped(fs, j - 1))
  }

  /** The first `n` filters that are popped, or that are not. */
  function Picked(fs: seq<FileMatcher>, popped: bool, n: nat): seq<FileMatcher>
    requires n <= |fs|
  {
    if n == 0 then []
    else Picked(fs, popped, n - 1) + if Popped(fs, n - 1) == popped then [fs[n - 1]] else []
  }

  /** `j` filters are decided: some were popped, the others stand before position `i`,
      the undecided ones after them. */
  ghost predicate Splitting(fs: seq<FileMatcher>, including: seq<FileMatcher>, excluding: seq<FileMatcher>, i: nat, j: nat) {
    && j <= |fs|
    && (0 < j < |fs| ==> !Popped(fs, j - 1))
    && including == Picked(fs, true, j)
    && excluding == Picked(fs, false, j) + fs[j..]
    && if j < |fs| then i == |Picked(fs, false, j)| else i >= |excluding|
  }

  method PopIncluding(fs: seq<FileMatcher>) returns (including: seq<FileMatcher>, excluding: seq<FileMatcher>)
    ensures including == Picked(fs, true, |fs|)
    ensures excluding == Picked(fs, false, |fs|)
  {
    including, excluding := [], fs;
    var i := 0;
    ghost var j := 0;
    while i < |excluding|
      invariant Splitting(fs, including, excluding, i, j)
      decreases |fs| - j
    {
      if excluding[i].includes {
        PopStep(fs, including, excluding, i, j);
        including := including + [excluding[i]];
        excluding := excluding[..i] + excluding[i + 1..];
        j := if j + 1 < |fs| then j + 2 else j + 1;
      } else {
        KeepStep(fs, including, excluding, i, j);
        j := j + 1;
      }
      i := i + 1;
    }
    assert excluding == Picked(fs, false, j);
  }

  lemma KeepStep(fs: seq<FileMatcher>, including: seq<FileMatcher>, excluding: seq<FileMatcher>, i: nat, j: nat)
    requires Splitting(fs, including, excluding, i, j) && i < |excluding| && !excluding[i].includes
    ensures Splitting(fs, including, excluding, i + 1, j + 1)
  {
    PickedStep(fs, j);
    Shift(Picked(fs, false, j), fs, j);
  }

  /** After a pop the next filter slips past the enumeration. */
  lemma PopStep(fs: seq<FileMatcher>, including: seq<FileMatcher>, excluding: seq<FileMatcher>, i: nat, j: nat)
    requires Splitting(fs, including, excluding, i, j) && i < |excluding| && excluding[i].includes
    ensures Splitting(fs, including + [excluding[i]], excluding[..i] + excluding[i + 1..], i + 1,
                      if j + 1 < |fs| then j + 2 else j + 1)
  {
    var kept := Picked(fs, false, j);
    RemoveBetween(kept, fs[j..]);
    assert fs[j..][1..] == fs[j + 1..] && fs[j..][0] == fs[j];
    PickedStep(fs, j);
    if j + 1 < |fs| {
      SlipPast(fs, including + [fs[j]], kept, j);
    }
  }

  lemma RemoveBetween(kept: seq<FileMatcher>, rest: seq<FileMatcher>)
    requires rest != []
    ensures var all := kept + rest;
      all[|kept|] == rest[0] && all[..|kept|] + all[|kept| + 1..] == kept + rest[1..]
  {
  }

  lemma SlipPast(fs: seq<FileMatcher>, including: seq<FileMatcher>, kept: seq<FileMatcher>, j: nat)
    requires j + 1 < |fs| && Popped(fs, j)
    requires including == Picked(fs, true, j + 1) && kept == Picked(fs, false, j + 1)
    ensures Splitting(fs, including, kept + fs[j + 1..], |kept| + 1, j + 2)
  {
    PickedStep(fs, j + 1);
    Shift(kept, fs, j + 1);
  }

  lemma Shift(kept: seq<FileMatcher>, fs: seq<FileMatcher>, j: nat)
    requires j < |fs|
    ensures kept + fs[j..] == (kept + [fs[j]]) + fs[j + 1..]
  {
    assert fs[j..] == [fs[j]] + fs[j + 1..];
    Regroup(kept, [fs[j]], fs[j + 1..]);
  }

  lemma PickedStep(fs: seq<FileMatcher>, j: nat)
    requires j < |fs|
    ensures Picked(fs, true, j + 1) == if Popped(fs, j) then Picked(fs, true, j) + [fs[j]] else Picked(fs, true, j)
    ensures Picked(fs, false, j + 1) == if Popped(fs, j) then Picked(fs, false, j) else Picked(fs, false, j) + [fs[j]]
  {
  }

  /** No filter is lost or doubled. */
  lemma PoppingConserves(fs: seq<FileMatcher>)
    ensures multiset(Picked(fs, true, |fs|)) + multiset(Picked(fs, false, |fs|)) == multiset(fs)
  {
    forall f ensures multiset(Picked(fs, true, |fs|))[f] + multiset(Picked(fs, false, |fs|))[f] == multiset(fs)[f] {
      PoppingConservesEach(fs, f);
    }
  }

  lemma PoppingConservesEach(fs: seq<FileMatcher>, f: FileMatcher)
    ensures multiset(Picked(fs, true, |fs|))[f] + multiset(Picked(fs, false, |fs|))[f] == multiset(fs)[f]
  {
    PoppingCounts(fs, |fs|, f);
    assert fs[..|fs|] == fs;
    CountIsMultiplicity(fs, f);
    CountIsMultiplicity(Picked(fs, true, |fs|), f);
    CountIsMultiplicity(Picked(fs, false, |fs|), f);
  }

  lemma {:induction false} PoppingCounts(fs: seq<FileMatcher>, n: nat, f: FileMatcher)
    requires n <= |fs|
    ensures Count(Picked(fs, true, n), f) + Count(Picked(fs, false, n), f) == Count(fs[..n], f)
  {
    if n > 0 {
      PoppingCounts(fs, n - 1, f);
      TakeOneMore(fs, n - 1);
      CountAppend(fs[..n - 1], fs[n - 1], f);
      var popped := Popped(fs, n - 1);
      CountAppend(Picked(fs, popped, n - 1), fs[n - 1], f);
      assert Picked(fs, !popped, n) == Picked(fs, !popped, n - 1) + [] == Picked(fs, !popped, n - 1);
    }
  }

  lemma {:induction false} PickedMembers(fs: seq<FileMatcher>, popped: bool, n: nat)
    requires n <= |fs|
    ensures forall f :: f in Picked(fs, popped, n) <==> exists j :: 0 <= j < n && Popped(fs, j) == popped && fs[j] == f
  {
    if n > 0 {
      PickedMembers(fs, popped, n - 1);
    }
  }

  /** In a run of include filters every second one is popped, the first one first: two
      neighbouring include filters are never both applied. */
  lemma {:induction false} EverySecondOfARun(fs: seq<FileMatcher>, first: nat, k: nat)
    requires first + k < |fs|
    requires forall j :: first <= j <= first + k ==> fs[j].includes
    requires first == 0 || !fs[first - 1].includes
    ensures Popped(fs, first + k) <==> k % 2 == 0
  {
    if k > 0 {
      EverySecondOfARun(fs, first, k - 1);
    }
  }

  ghost predicate Neighbours(fs: seq<FileMatcher>, j: nat) {
    0 < j < |fs| && fs[j - 1].includes && fs[j].includes
  }

  /** So no include filter is left among the others exactly if no two neighbours both include. */
  lemma NoneLeftExactly(fs: seq<FileMatcher>)
    ensures (forall f :: f in Picked(fs, false, |fs|) ==> !f.includes) <==> forall j :: !Neighbours(fs, j)
  {
    if j :| Neighbours(fs, j) {
      OneOfTwoIsLeft(fs, j);
    } else {
      forall f | f in Picked(fs, false, |fs|) ensures !f.includes {
        LeftHasNeighbour(fs, f);
      }
    }
  }

  lemma OneOfTwoIsLeft(fs: seq<FileMatcher>, j: nat)
    requires Neighbours(fs, j)
    ensures exists f :: f in Picked(fs, false, |fs|) && f.includes
  {
    PickedMembers(fs, false, |fs|);
    var k := if Popped(fs, j - 1) then j else j - 1;
    assert !Popped(fs, k) && fs[k] in Picked(fs, false, |fs|);
  }

  lemma LeftHasNeighbour(fs: seq<FileMatcher>, f: FileMatcher)
    requires f in Picked(fs, false, |fs|)
    ensures f.includes ==> exists j :: Neighbours(fs, j)
  {
    PickedMembers(fs, false, |fs|);
    var j :| 0 <= j < |fs| && !Popped(fs, j) && fs[j] == f;
    if f.includes {
      assert Popped(fs, j - 1);
      assert Neighbours(fs, j);
    }
  }

  /** If there is an include filter, one is popped. */
  lemma SomeIncludeIsPopped(fs: seq<FileMatcher>, j: nat)
    requires j < |fs| && fs[j].includes
    ensures Picked(fs, true, |fs|) != []
  {
    PickedMembers(fs, true, |fs|);
    var k := if Popped(fs, j) then j else j - 1;
    assert Popped(fs, k);
    assert fs[k] in Picked(fs, true, |fs|);
  }

  lemma NothingPopped(fs: seq<FileMatcher>)
    requires forall f :: f in fs ==> !f.includes
    ensures Picked(fs, true, |fs|) == [] && Picked(fs, false, |fs|) == fs
  {
    NothingPoppedUpTo(fs, |fs|);
    assert fs[..|fs|] == fs;
  }

  lemma {:induction false} NothingPoppedUpTo(fs: seq<FileMatcher>, n: nat)
    requires n <= |fs| && forall f :: f in fs ==> !f.includes
    ensures Picked(fs, true, n) == [] && Picked(fs, false, n) == fs[..n]
  {
    if n > 0 {
      NothingPoppedUpTo(fs, n - 1);
      assert fs[n - 1] in fs;
      assert fs[..n] == fs[..n - 1] + [fs[n - 1]];
    }
  }

  // ---------- paths that lead to other candidates ----------

  /** `c` is a directory on the way to another candidate. The root never counts as one. */
  ghost predicate LeadsToOther(candidates: seq<Path>, c: Path) {
    Named(c) && exists d :: d in candidates && c in Parents(d)
  }

  ghost function AllAncestors(candidates: seq<Path>): set<Path> {
    set d, c | d in candidates && c in Ancestors(d) :: c
  }

  method AddAncestors(c: Path, skipSet: set<Path>) returns (all: set<Path>)
    ensures all == skipSet + Ancestors(c)
  {
    all := skipSet;
    var parent := Parent(c);
    AncestorsStep(c);
    while Named(parent)
      invariant all + WithAncestors(parent) == skipSet + Ancestors(c)
      decreases Depth(parent)
    {
      AncestorsStep(parent);
      all := all + {parent};
      parent := Parent(parent);
    }
  }

  /** One pass over the candidates, longer names before their prefixes. A candidate that is
      dropped adds no ancestors: those that lie below it have added them. */
  method RemoveLeadingPaths(candidates: seq<Path>) returns (leaves: seq<Path>)
    requires SortedBy(candidates, (a, b) => StringLe(b, a))
    ensures leaves == Filter(candidates, c => c != "" && !LeadsToOther(candidates, c))
  {
    var slots: seq<Option<Path>> := seq(|candidates|, i requires 0 <= i < |candidates| => Some(candidates[i]));
    var skipSet: set<Path> := {};
    for i := 0 to |candidates|
      invariant |slots| == |candidates|
      invariant skipSet == AllAncestors(candidates[..i])
      invariant forall j :: 0 <= j < |slots| ==>
        slots[j] == if j < i && LeadsToOther(candidates, candidates[j]) then None else Some(candidates[j])
    {
      var c := candidates[i];
      NothingBelowComesLater(candidates, i);
      assert candidates[..i + 1] == candidates[..i] + [c];
      if c in skipSet {
        slots := slots[i := None];
        AncestorsOfAncestor(candidates[..i], c);
        continue;
      }
      skipSet := AddAncestors(c, skipSet);
    }
    leaves := Present(slots);
    PresentIsFilter(candidates, slots, c => c != "" && !LeadsToOther(candidates, c));
  }

  /** What lies below a candidate has a greater name, so it was met before. */
  lemma NothingBelowComesLater(candidates: seq<Path>, i: nat)
    requires i < |candidates| && SortedBy(candidates, (a, b) => StringLe(b, a))
    ensures candidates[i] in AllAncestors(candidates[..i]) <==> LeadsToOther(candidates, candidates[i])
  {
    var c := candidates[i];
    if LeadsToOther(candidates, c) {
      var d :| d in candidates && c in Parents(d);
      var j :| 0 <= j < |candidates| && candidates[j] == d;
      BelowComesBefore(candidates, i, j);
      assert candidates[..i][j] == d;
      assert d in candidates[..i] && c in Ancestors(d);
    }
    if c in AllAncestors(candidates[..i]) {
      var d :| d in candidates[..i] && c in Ancestors(d);
      assert d in candidates;
    }
  }

  lemma BelowComesBefore(candidates: seq<Path>, i: nat, j: nat)
    requires i < |candidates| && j < |candidates| && SortedBy(candidates, (a, b) => StringLe(b, a))
    requires Named(candidates[i]) && candidates[i] in Parents(candidates[j])
    ensures j < i
  {
    var c, d := candidates[i], candidates[j];
    ParentsAreNonempty(d);
    ParentIsPrefix(c, d);
    PrefixIsLess(c, d);
    ParentsAreHigher(c, d);
    StringLeTotal(c, d);
  }

  lemma AncestorsOfAncestor(seen: seq<Path>, c: Path)
    requires c in AllAncestors(seen)
    ensures AllAncestors(seen + [c]) == AllAncestors(seen)
  {
    var d :| d in seen && c in Ancestors(d);
    forall a | a in Ancestors(c) ensures a in AllAncestors(seen) {
      ParentsAreTransitive(a, c, d);
      assert a in Ancestors(d);
    }
  }

  /** `list(filter(lambda s: s, slots))`: empty slots and empty names go. */
  function Present(slots: seq<Option<Path>>): seq<Path> {
    if slots == [] then []
    else
      var last := slots[|slots| - 1];
      Present(slots[..|slots| - 1]) + if last.Some? && last.value != "" then [last.value] else []
  }

  lemma {:induction false} PresentIsFilter(candidates: seq<Path>, slots: seq<Option<Path>>, p: Path -> bool)
    requires |slots| == |candidates|
    requires forall j :: 0 <= j < |slots| ==> slots[j].None? || slots[j] == Some(candidates[j])
    requires forall j :: 0 <= j < |slots| ==> (p(candidates[j]) <==> slots[j].Some? && candidates[j] != "")
    ensures Present(slots) == Filter(candidates, p)
  {
    if slots != [] {
      var n := |slots| - 1;
      PresentIsFilter(candidates[..n], slots[..n], p);
    }
  }

  // ---------- the ignore file ----------

  predicate IsBlank(c: char) {
    c in {' ', '\t', '\n', '\r'}
  }

  predicate IsComment(line: string) {
    line != "" && if IsBlank(line[0]) then IsComment(line[1..]) else line[0] == '#'
  }

  /** The entries of an ignore file; the ignore file itself is always one. */
  function IgnoreEntries(lines: seq<string>): seq<string> {
    Filter(lines, line => line != "" && !IsComment(line)) + [IGNORE_FILENAME]
  }

  function FiltersOfEntry(entry: string): seq<FileMatcher> {
    if entry != "" && entry[|entry| - 1] == '/' then [FileMatcher(entry + "*", false)]
    else if entry == "" || entry[|entry| - 1] != '*' then
      [FileMatcher(entry, false), FileMatcher(entry + "/*", false)]
    else [FileMatcher(entry, false)]
  }

  function IgnoreFilters(entries: seq<string>): seq<FileMatcher> {
    if entries == [] then []
    else IgnoreFilters(entries[..|entries| - 1]) + FiltersOfEntry(entries[|entries| - 1])
  }

  /** The name a filter looks at. */
  function FilteredName(absolute: bool, workDir: string, file: Path): Option<Path> {
    if absolute then Some(file) else RelativeTo(file, workDir)
  }

  /** A star-free entry removes exactly the path it names and everything below it;
      with a slash at its end, only what is below. */
  lemma StarFreeEntry(entry: string, workDir: string, file: Path)
    requires entry != "" && '*' !in entry
    requires FilteredName(IsAbsolute(entry), workDir, file).Some?
    ensures var name := FilteredName(IsAbsolute(entry), workDir, file).value;
      KeepsAll(FiltersOfEntry(entry), workDir, file) <==>
        if entry[|entry| - 1] == '/' then !(entry <= name)
        else name != entry && !(entry + "/" <= name)
  {
    var name := FilteredName(IsAbsolute(entry), workDir, file).value;
    var fs := FiltersOfEntry(entry);
    if entry[|entry| - 1] == '/' {
      var x := entry[..|entry| - 1];
      assert x + "/" == entry && x + "/*" == entry + "*";
      AcceptsBelow(x, name);
      assert fs[0] in fs;
    } else {
      AcceptsBelow(entry, name);
      assert fs[0] in fs && fs[1] in fs;
    }
  }

  /** The whole path that an entry names. */
  function Whole(workDir: string, entry: string): Path {
    if "/" <= entry then entry else workDir + entry
  }

  /** In plain text: an entry without stars removes its path, from the root or in the working
      directory, and what is below; with a slash at its end, only what is below. */
  lemma EntryInPlainText(entry: string, workDir: string, file: Path)
    requires entry != "" && '*' !in entry && workDir <= file && file != workDir
    ensures KeepsAll(FiltersOfEntry(entry), workDir, file) <==> !Removes(workDir, entry, file)
  {
    StarFreeEntry(entry, workDir, file);
    if !("/" <= entry) {
      var rel := file[|workDir|..];
      assert FilteredName(IsAbsolute(entry), workDir, file) == Some(rel);
      assert file == workDir + rel;
      PrefixCancels(workDir, entry, rel);
      PrefixCancels(workDir, entry + "/", rel);
      assert workDir + (entry + "/") == workDir + entry + "/";
    }
  }

  lemma PrefixCancels(w: string, a: string, b: string)
    ensures w + a <= w + b <==> a <= b
    ensures w + a == w + b <==> a == b
  {
    assert a == (w + a)[|w|..] && b == (w + b)[|w|..];
    if w + a <= w + b {
      assert (w + b)[..|w + a|][|w|..] == b[..|a|];
    }
  }

  ghost predicate Removes(workDir: string, entry: string, file: Path) {
    var whole := Whole(workDir, entry);
    entry != "" && if entry[|entry| - 1] == '/' then whole <= file else file == whole || whole + "/" <= file
  }

  /** Entries with stars, by the glob language: with a star at its end, an entry removes what it
      matches; with a slash at its end, what begins with a match; otherwise what it accepts and what
      begins with a match and a slash. */
  lemma EntryByGlob(entry: string, workDir: string, file: Path)
    requires entry != "" && FilteredName(IsAbsolute(entry), workDir, file).Some?
    ensures var name := FilteredName(IsAbsolute(entry), workDir, file).value;
      var last := entry[|entry| - 1];
      KeepsAll(FiltersOfEntry(entry), workDir, file) <==>
        if last == '*' then !Glob(entry, name)
        else if last == '/' then !BeginsWith(entry, name)
        else !LeftmostGlob(entry, name) && !BeginsWith(entry + "/", name)
  {
    var name := FilteredName(IsAbsolute(entry), workDir, file).value;
    var last := entry[|entry| - 1];
    if last == '*' {
      KeepsOne(FileMatcher(entry, false), entry, workDir, file);
      AcceptsExactly(entry, name);
    } else if last == '/' {
      KeepsOne(FileMatcher(entry + "*", false), entry, workDir, file);
      BeginsExactly(entry, name);
    } else {
      KeepsTwo(entry, workDir, file);
      AcceptsExactly(entry, name);
      BeginsExactly(entry + "/", name);
    }
  }

  lemma KeepsTwo(entry: string, workDir: string, file: Path)
    requires entry != "" && FilteredName(IsAbsolute(entry), workDir, file).Some?
    ensures var name := FilteredName(IsAbsolute(entry), workDir, file).value;
      KeepsAll([FileMatcher(entry, false), FileMatcher(entry + "/*", false)], workDir, file)
      <==> !Accepts(entry, name) && !Accepts(entry + "/" + "*", name)
  {
    var a, b := FileMatcher(entry, false), FileMatcher(entry + "/*", false);
    assert entry + "/" + "*" == entry + "/*" && [a, b] == [a] + [b];
    KeepsOne(a, entry, workDir, file);
    KeepsOne(b, entry, workDir, file);
    KeepsBoth([a], [b], workDir, file);
  }

  lemma KeepsOne(f: FileMatcher, entry: string, workDir: string, file: Path)
    requires entry != "" && entry <= f.matchString && !f.includes
    requires FilteredName(IsAbsolute(entry), workDir, file).Some?
    ensures KeepsAll([f], workDir, file) <==> !Accepts(f.matchString, FilteredName(IsAbsolute(entry), workDir, file).value)
  {
    assert f in [f];
  }

  ghost predicate BeginsWith(pattern: string, v: string) {
    exists k :: 0 <= k <= |v| && Glob(pattern, v[..k])
  }

  lemma BeginsExactly(pattern: string, v: string)
    ensures Accepts(pattern + "*", v) <==> BeginsWith(pattern, v)
  {
    AcceptsExactly(pattern + "*", v);
    GlobThenAnything(pattern, v);
  }

  /** A line is a comment exactly if the first character that is no blank is a '#'. */
  ghost predicate CommentLine(line: string) {
    exists k :: 0 <= k < |line| && line[k] == '#' && forall i :: 0 <= i < k ==> line[i] in " \t\n\r"
  }

  lemma {:induction false} CommentExactly(line: string)
    ensures IsComment(line) <==> CommentLine(line)
  {
    if line != "" && IsBlank(line[0]) {
      CommentExactly(line[1..]);
      if k :| 0 <= k < |line[1..]| && line[1..][k] == '#' && forall i :: 0 <= i < k ==> line[1..][i] in " \t\n\r" {
        assert line[k + 1] == '#';
        forall i | 0 <= i < k + 1 ensures line[i] in " \t\n\r" {
          assert i > 0 ==> line[i] == line[1..][i - 1];
        }
      }
      if k :| 0 <= k < |line| && line[k] == '#' && forall i :: 0 <= i < k ==> line[i] in " \t\n\r" {
        assert line[1..][k - 1] == '#';
        forall i | 0 <= i < k - 1 ensures line[1..][i] in " \t\n\r" {
          assert line[1..][i] == line[i + 1];
        }
      }
    }
  }

  /** An entry is a line that is neither empty nor a comment, or the ignore file itself. */
  ghost predicate IsEntry(lines: seq<string>, entry: string) {
    (entry in lines && entry != "" && !CommentLine(entry)) || entry == ".cincanignore"
  }

  lemma EntriesExactly(lines: seq<string>)
    ensures forall entry :: entry in IgnoreEntries(lines) <==> IsEntry(lines, entry)
  {
    FilterMembers(lines, line => line != "" && !IsComment(line));
    forall entry ensures entry in IgnoreEntries(lines) <==> IsEntry(lines, entry) {
      CommentExactly(entry);
    }
  }

  lemma {:induction false} KeepsByEntry(entries: seq<string>, workDir: string, file: Path)
    ensures KeepsAll(IgnoreFilters(entries), workDir, file) <==>
      forall e :: e in entries ==> KeepsAll(FiltersOfEntry(e), workDir, file)
  {
    if entries != [] {
      var n := |entries| - 1;
      KeepsByEntry(entries[..n], workDir, file);
      assert entries == entries[..n] + [entries[n]];
      KeepsBoth(IgnoreFilters(entries[..n]), FiltersOfEntry(entries[n]), workDir, file);
    }
  }

  lemma KeepsBoth(a: seq<FileMatcher>, b: seq<FileMatcher>, workDir: string, file: Path)
    ensures KeepsAll(a + b, workDir, file) <==> KeepsAll(a, workDir, file) && KeepsAll(b, workDir, file)
  {
    assert forall f :: f in a + b <==> f in a || f in b;
  }

  // ---------- applying filters ----------

  predicate KeepsAll(fs: seq<FileMatcher>, workDir: string, file: Path) {
    forall f :: f in fs ==> KeepsDownload(f, workDir, file)
  }

  predicate KeepsEach(fs: set<FileMatcher>, workDir: string, file: Path) {
    forall f :: f in fs ==> KeepsDownload(f, workDir, file)
  }

  method ApplyAll(fs: seq<FileMatcher>, candidates: seq<Path>, workDir: string) returns (res: seq<Path>)
    ensures res == Filter(candidates, c => KeepsAll(fs, workDir, c))
  {
    res := candidates;
    FilterEverything(candidates, c => KeepsAll([], workDir, c));
    assert fs[..0] == [];
    for i := 0 to |fs|
      invariant res == Filter(candidates, c => KeepsAll(fs[..i], workDir, c))
    {
      var f := fs[i];
      assert fs[..i + 1] == fs[..i] + [f];
      FilterTwice(candidates, c => KeepsAll(fs[..i], workDir, c), c => KeepsDownload(f, workDir, c),
        c => KeepsAll(fs[..i + 1], workDir, c));
      res := FilterDownloadFiles(f, res, workDir);
    }
    assert fs[..|fs|] == fs;
  }

  /** The same for a set, whatever the order in which it is gone through. */
  method ApplyEach(fs: set<FileMatcher>, candidates: seq<Path>, workDir: string) returns (res: seq<Path>)
    ensures res == Filter(candidates, c => KeepsEach(fs, workDir, c))
  {
    res := candidates;
    var todo := fs;
    FilterEverything(candidates, c => KeepsEach({}, workDir, c));
    assert fs - todo == {};
    while todo != {}
      invariant todo <= fs
      invariant res == Filter(candidates, c => KeepsEach(fs - todo, workDir, c))
      decreases |todo|
    {
      var f :| f in todo;
      ghost var done := fs - todo;
      todo := todo - {f};
      assert fs - todo == done + {f};
      FilterTwice(candidates, c => KeepsEach(done, workDir, c), c => KeepsDownload(f, workDir, c),
        c => KeepsEach(fs - todo, workDir, c));
      res := FilterDownloadFiles(f, res, workDir);
    }
    assert fs - todo == fs;
  }

  /** Merging the user's exclusions with the ignore filters. An ignore filter is added when one
      of the user's filters before the first with its pattern has another pattern. */
  method MergeExclusions(user: seq<FileMatcher>, ignored: seq<FileMatcher>) returns (merged: set<FileMatcher>)
    requires user != []
    ensures merged == (set f | f in user) + set f | f in ignored && f.matchString != user[0].matchString
  {
    merged := set f | f in user;
    for i := 0 to |ignored|
      invariant merged == (set f | f in user) + set f | f in ignored[..i] && f.matchString != user[0].matchString
    {
      var ignore := ignored[i];
      ghost var before := merged;
      for j := 0 to |user|
        invariant merged == before + if j > 0 then {ignore} else {}
        invariant j > 0 ==> user[0].matchString != ignore.matchString
      {
        if ignore.matchString == user[j].matchString {
          break;
        }
        merged := merged + {ignore};
      }
      assert ignored[..i + 1] == ignored[..i] + [ignore];
    }
    assert ignored[..|ignored|] == ignored;
  }

  lemma MergedKeepsAll(user: seq<FileMatcher>, ignored: seq<FileMatcher>, merged: set<FileMatcher>,
                       workDir: string, file: Path)
    requires user != []
    requires forall f :: f in user + ignored ==> !f.includes
    requires merged == (set f | f in user) + set f | f in ignored && f.matchString != user[0].matchString
    ensures KeepsEach(merged, workDir, file) <==> KeepsAll(user + ignored, workDir, file)
  {
    assert user[0] in user + ignored && user[0] in merged;
    forall f | f in ignored && f.matchString == user[0].matchString ensures f == user[0] {
      assert f in user + ignored;
    }
    forall f | f in user + ignored ensures f in merged {
      assert f in user || f in ignored;
    }
    forall f | f in merged ensures f in user + ignored {
    }
  }

  method CollectIgnoreFilters(entries: seq<string>) returns (ignored: seq<FileMatcher>)
    ensures ignored == IgnoreFilters(entries)
  {
    ignored := [];
    for i := 0 to |entries|
      invariant ignored == IgnoreFilters(entries[..i])
    {
      assert entries[..i + 1][..i] == entries[..i];
      var file := entries[i];
      if file != "" && file[|file| - 1] == '/' {
        ignored := ignored + [FileMatcher(file + "*", false)];
        continue;
      }
      if file == "" || file[|file| - 1] != '*' {
        ignored := ignored + [FileMatcher(file, false)];
        ignored := ignored + [FileMatcher(file + "/*", false)];
        continue;
      }
      ignored := ignored + [FileMatcher(file, false)];
    }
    assert entries[..|entries|] == entries;
  }

  // ---------- the whole choice ----------

  /** What the filters keep. Without filters the ignore file decides; `noDefaults` leaves it
      out; popped include filters stand alone; exclusions join the ignore file. */
  ghost predicate PassesFilters(filters: seq<FileMatcher>, noDefaults: bool, ignored: seq<FileMatcher>,
                                workDir: string, c: Path)
  {
    if filters == [] then noDefaults || KeepsAll(ignored, workDir, c)
    else if noDefaults then KeepsAll(filters, workDir, c)
    else if exists f :: f in filters && f.includes then KeepsAll(Picked(filters, true, |filters|), workDir, c)
    else KeepsAll(filters + ignored, workDir, c)
  }

  ghost predicate Chosen(candidates: seq<Path>, filters: seq<FileMatcher>, noDefaults: bool, lines: seq<string>,
                         workDir: string, c: Path)
  {
    && c in candidates
    && c != "" && !LeadsToOther(candidates, c)
    && workDir <= c
    && PassesFilters(filters, noDefaults, IgnoreFilters(IgnoreEntries(lines)), workDir, c)
  }

  /** The choice by default, in plain text: what is no directory on the way to another candidate, in the
      working directory, and neither named by a star-free line of the ignore file nor below such a name,
      nor the ignore file itself. */
  lemma DefaultChoice(candidates: seq<Path>, lines: seq<string>, workDir: string, c: Path)
    requires forall line :: line in lines ==> '*' !in line
    requires c != workDir
    ensures Chosen(candidates, [], false, lines, workDir, c) <==>
      && c in candidates && c != "" && !LeadsToOther(candidates, c) && workDir <= c
      && forall e :: IsEntry(lines, e) ==> !Removes(workDir, e, c)
  {
    if workDir <= c {
      KeptByDefault(lines, workDir, c);
    }
  }

  lemma KeptByDefault(lines: seq<string>, workDir: string, c: Path)
    requires forall line :: line in lines ==> '*' !in line
    requires workDir <= c && c != workDir
    ensures KeepsAll(IgnoreFilters(IgnoreEntries(lines)), workDir, c) <==> forall e :: IsEntry(lines, e) ==> !Removes(workDir, e, c)
  {
    EntriesExactly(lines);
    KeptByPlainEntries(IgnoreEntries(lines), workDir, c);
  }

  lemma KeptByPlainEntries(entries: seq<string>, workDir: string, c: Path)
    requires forall e :: e in entries ==> e != "" && '*' !in e
    requires workDir <= c && c != workDir
    ensures KeepsAll(IgnoreFilters(entries), workDir, c) <==> forall e :: e in entries ==> !Removes(workDir, e, c)
  {
    KeepsByEntry(entries, workDir, c);
    forall e | e in entries ensures KeepsAll(FiltersOfEntry(e), workDir, c) <==> !Removes(workDir, e, c) {
      EntryInPlainText(e, workDir, c);
    }
  }

  /** The ignore file itself comes home only if it is asked for: by leaving out the defaults or by filters
      that include. */
  lemma IgnoreFileStays(candidates: seq<Path>, filters: seq<FileMatcher>, lines: seq<string>, workDir: string)
    requires forall f :: f in filters ==> !f.includes
    ensures !Chosen(candidates, filters, false, lines, workDir, workDir + ".cincanignore")
  {
    var c, entries := workDir + ".cincanignore", IgnoreEntries(lines);
    EntriesExactly(lines);
    assert IsEntry(lines, ".cincanignore");
    EntryInPlainText(".cincanignore", workDir, c);
    KeepsByEntry(entries, workDir, c);
    KeepsBoth(filters, IgnoreFilters(entries), workDir, c);
  }

  /** Without defaults the ignore file does not count, and filters all apply as they are. */
  lemma ChoiceWithoutDefaults(candidates: seq<Path>, filters: seq<FileMatcher>, lines: seq<string>, workDir: string, c: Path)
    ensures Chosen(candidates, filters, true, lines, workDir, c) <==>
      && c in candidates && c != "" && !LeadsToOther(candidates, c) && workDir <= c
      && forall f :: f in filters ==> KeepsDownload(f, workDir, c)
  {
  }

  /** A filter that includes and is the only one to do so stands alone: exclusions after it and the ignore
      file do not count. */
  lemma IncludeStandsAlone(candidates: seq<Path>, f: FileMatcher, rest: seq<FileMatcher>, lines: seq<string>, workDir: string,
                           c: Path)
    requires f.includes && forall g :: g in rest ==> !g.includes
    ensures Chosen(candidates, [f] + rest, false, lines, workDir, c) <==>
      && c in candidates && c != "" && !LeadsToOther(candidates, c) && workDir <= c && KeepsDownload(f, workDir, c)
  {
    var filters := [f] + rest;
    assert filters[0] == f && f in filters;
    PickedMembers(filters, true, |filters|);
    assert Popped(filters, 0);
    forall j | 1 <= j < |filters| ensures !Popped(filters, j) {
      assert filters[j] == rest[j - 1];
    }
    forall g ensures g in Picked(filters, true, |filters|) <==> g == f {
    }
  }

  /** Exclusions are joined by the ignore file. */
  lemma ExclusionsJoin(candidates: seq<Path>, filters: seq<FileMatcher>, lines: seq<string>, workDir: string, c: Path)
    requires forall f :: f in filters ==> !f.includes
    requires forall line :: line in lines ==> '*' !in line
    requires c != workDir
    ensures Chosen(candidates, filters, false, lines, workDir, c) <==>
      && c in candidates && c != "" && !LeadsToOther(candidates, c) && workDir <= c
      && (forall f :: f in filters ==> KeepsDownload(f, workDir, c))
      && forall e :: IsEntry(lines, e) ==> !Removes(workDir, e, c)
  {
    KeepsBoth(filters, IgnoreFilters(IgnoreEntries(lines)), workDir, c);
    if workDir <= c {
      KeptByDefault(lines, workDir, c);
    }
  }

  /** A named path leads to another candidate if that continues it with a slash. */
  lemma LeadsInPlainText(candidates: seq<Path>, c: Path)
    requires Named(c) && c != ""
    ensures LeadsToOther(candidates, c) <==> exists d :: d in candidates && c + "/" <= d
  {
    forall d ensures c in Parents(d) <==> c + "/" <= d {
      ParentIsPrefix(c, d);
    }
  }

  /** The filter part, on what is left of the candidates. */
  method ApplyFilters(filters: seq<FileMatcher>, noDefaults: bool, ignored: seq<FileMatcher>, workDir: string,
                      candidates: seq<Path>)
    returns (res: seq<Path>)
    requires forall f :: f in ignored ==> !f.includes
    ensures res == Filter(candidates, c => PassesFilters(filters, noDefaults, ignored, workDir, c))
  {
    var including, excluding := [], filters;
    if filters != [] {
      including, excluding := PopIncluding(filters);
    }
    WhatIsPopped(filters);
    ghost var applied: Path -> bool;
    if filters == [] && !noDefaults {
      res := ApplyAll(ignored, candidates, workDir);
      applied := c => KeepsAll(ignored, workDir, c);
    } else if filters != [] {
      if noDefaults {
        res := ApplyAll(filters, candidates, workDir);
        applied := c => KeepsAll(filters, workDir, c);
      } else if including != [] {
        res := ApplyAll(including, candidates, workDir);
        applied := c => KeepsAll(including, workDir, c);
      } else {
        var merged := MergeExclusions(excluding, ignored);
        res := ApplyEach(merged, candidates, workDir);
        applied := c => KeepsEach(merged, workDir, c);
        forall c ensures applied(c) <==> KeepsAll(filters + ignored, workDir, c) {
          MergedKeepsAll(filters, ignored, merged, workDir, c);
        }
      }
    } else {
      res := candidates;
      applied := c => true;
      FilterEverything(candidates, applied);
    }
    FilterAgree(candidates, applied, c => PassesFilters(filters, noDefaults, ignored, workDir, c));
  }

  lemma WhatIsPopped(fs: seq<FileMatcher>)
    ensures Picked(fs, true, |fs|) != [] <==> exists f :: f in fs && f.includes
    ensures Picked(fs, true, |fs|) == [] ==> Picked(fs, false, |fs|) == fs
  {
    PickedMembers(fs, true, |fs|);
    if f :| f in fs && f.includes {
      var j :| 0 <= j < |fs| && fs[j] == f;
      SomeIncludeIsPopped(fs, j);
    } else {
      NothingPopped(fs);
    }
    if Picked(fs, true, |fs|) != [] {
      assert Picked(fs, true, |fs|)[0] in Picked(fs, true, |fs|);
    }
  }

  lemma {:induction false} IgnoreFiltersExclude(entries: seq<string>)
    ensures forall f :: f in IgnoreFilters(entries) ==> !f.includes
  {
    if entries != [] {
      IgnoreFiltersExclude(entries[..|entries| - 1]);
    }
  }

  method FilterFiles(candidates: seq<Path>, filters: seq<FileMatcher>, noDefaults: bool, lines: seq<string>,
                     workDir: string)
    returns (res: seq<Path>)
    requires SortedBy(candidates, (a, b) => StringLe(b, a))
    ensures forall c :: c in res <==> Chosen(candidates, filters, noDefaults, lines, workDir, c)
    ensures SortedBy(res, StringLe)
    ensures NoDuplicates(candidates) ==> NoDuplicates(res)
  {
    var ignorePaths := IgnoreEntries(lines);
    var leaves := RemoveLeadingPaths(candidates);
    var within := Filter(leaves, c => workDir <= c);
    var sorted := SortStrings(within);
    var ignored := CollectIgnoreFilters(ignorePaths);
    IgnoreFiltersExclude(ignorePaths);
    res := ApplyFilters(filters, noDefaults, ignored, workDir, sorted);

    ghost var passes := c => PassesFilters(filters, noDefaults, ignored, workDir, c);
    ghost var isLeaf := c => c != "" && !LeadsToOther(candidates, c);
    ghost var isWithin := c => workDir <= c;
    forall c ensures c in res <==> Chosen(candidates, filters, noDefaults, lines, workDir, c) {
      FilterMember(sorted, passes, c);
      SortMembers(within, StringLe);
      FilterMember(leaves, isWithin, c);
      FilterMember(candidates, isLeaf, c);
    }
    StringsAreOrdered();
    SortIsSorted(within, StringLe);
    FilterKeepsOrder(sorted, StringLe, passes);
    if NoDuplicates(candidates) {
      FilterNoDuplicates(candidates, isLeaf);
      FilterNoDuplicates(leaves, isWithin);
      SortKeepsDistinct(within, StringLe);
      FilterNoDuplicates(sorted, passes);
    }
  }
}
