/**
 Posix paths as `pathlib` renders them: "." is the current directory, "/" the root,
 and no other path ends with a slash.
 */
module Paths {
  import opened Sequences
  import Text

  type Path = string

  predicate IsAbsolute(p: Path) {
    p != "" && p[0] == '/'
  }

  /** A path that has a last component: `path.name != ''`. */
  predicate Named(p: Path) {
    p != "." && p != "/"
  }

  function LastSlash(p: Path): (k: int)
    ensures -1 <= k < |p|
    ensures k >= 0 ==> p[k] == '/'
    ensures forall j :: k < j < |p| ==> p[j] != '/'
  {
    if p == "" then -1
    else if p[|p| - 1] == '/' then |p| - 1
    else LastSlash(p[..|p| - 1])
  }

  /** `path.parent` */
  function Parent(p: Path): Path {
    var k := LastSlash(p);
    if k < 0 then "." else if k == 0 then "/" else p[..k]
  }

  /** Goes down when the parent is taken of anything but "." and "/". */
  function Depth(p: Path): nat {
    if p == "." then 0 else |p| + 1
  }

  /** `path.parents`, up to and including "." or "/". */
  function Parents(p: Path): set<Path>
    decreases Depth(p)
  {
    if !Named(p) then {} else {Parent(p)} + Parents(Parent(p))
  }

  /** The directories on the way to `p`, without "." and "/". */
  function Ancestors(p: Path): set<Path> {
    set a | a in Parents(p) && Named(a)
  }

  /** `p` itself and the directories on the way to it. */
  function WithAncestors(p: Path): set<Path> {
    Ancestors(p) + if Named(p) then {p} else {}
  }

  /** What a loop over the parents goes by. */
  lemma AncestorsStep(p: Path)
    ensures Ancestors(p) == WithAncestors(Parent(p))
  {
  }

  predicate IsName(name: string) {
    name != "" && name != "."
  }

  function NamesOf(raw: string): seq<string> {
    Filter(Text.Split(raw, '/'), IsName)
  }

  /** `pathlib.Path(raw).as_posix()`: empty and "." components vanish. */
  function Parse(raw: string): Path {
    var names := NamesOf(raw);
    if IsAbsolute(raw) then (if names == [] then "/" else "/" + Text.Join(names, '/'))
    else if names == [] then "." else Text.Join(names, '/')
  }

  /** As `pathlib` would write it. */
  predicate Normal(p: Path) {
    Parse(p) == p
  }

  /** `directory / name` for a relative `name` */
  function Child(directory: Path, name: string): Path {
    if directory == "." then name
    else if directory == "/" then "/" + name
    else directory + "/" + name
  }

  /** A named path is a parent exactly when what follows it in the text is a slash. */
  lemma {:induction false} ParentIsPrefix(a: Path, p: Path)
    requires Named(a) && a != ""
    ensures a in Parents(p) <==> a + "/" <= p
    decreases Depth(p)
  {
    if Named(p) {
      var q, k := Parent(p), LastSlash(p);
      ParentIsPrefix(a, q);
      if a + "/" <= p {
        assert p[|a|] == '/';
        assert |a| <= k;
        assert a == p[..|a|];
        if |a| < k {
          assert a + "/" <= q;
        }
      }
    }
  }

  /** The same relation seen from the root. */
  lemma RootedParents(a: Path, p: Path)
    requires Named(a) && a != ""
    ensures "/" + a in Parents("/" + p) <==> a in Parents(p)
  {
    ParentIsPrefix(a, p);
    var b, q := "/" + a, "/" + p;
    ParentIsPrefix(b, q);
    assert b + "/" == "/" + (a + "/");
    SlashBefore(a + "/", p);
  }

  lemma SlashBefore(s: string, t: string)
    ensures "/" + s <= "/" + t <==> s <= t
  {
    if "/" + s <= "/" + t {
      assert t[..|s|] == ("/" + t)[1..|s| + 1];
    }
  }

  lemma {:induction false} ParentsAreNonempty(p: Path)
    ensures "" !in Parents(p)
    decreases Depth(p)
  {
    if Named(p) {
      ParentsAreNonempty(Parent(p));
    }
  }

  lemma ParentOfChild(p: Path, name: string)
    requires p != "" && '/' !in name
    ensures Parent(p + "/" + name) == p
  {
    var q := p + "/" + name;
    var k := LastSlash(q);
    assert q[|p|] == '/';
    assert k <= |p|;
  }

  lemma {:induction false} ParentsAreTransitive(a: Path, b: Path, c: Path)
    requires a in Parents(b) && b in Parents(c)
    ensures a in Parents(c)
    decreases Depth(c)
  {
    if b != Parent(c) {
      ParentsAreTransitive(a, b, Parent(c));
    }
  }

  /** Parents are shorter, so no path is its own parent. */
  lemma {:induction false} ParentsAreHigher(a: Path, p: Path)
    requires a in Parents(p)
    ensures Depth(a) < Depth(p)
    decreases Depth(p)
  {
    if a != Parent(p) {
      ParentsAreHigher(a, Parent(p));
    }
  }

  /** The parents of a relative path are relative, those of an absolute one absolute. */
  lemma {:induction false} ParentsKeepKind(a: Path, p: Path)
    requires a in Parents(p)
    ensures IsAbsolute(a) <==> IsAbsolute(p)
    decreases Depth(p)
  {
    if a != Parent(p) {
      ParentsKeepKind(a, Parent(p));
    }
  }

  /** Taking parents of a relative path ends at ".". */
  lemma {:induction false} RelativeEndsAtHere(p: Path)
    requires !IsAbsolute(p) && p != "."
    ensures "." in Parents(p)
    decreases Depth(p)
  {
    if Parent(p) != "." {
      RelativeEndsAtHere(Parent(p));
    }
  }

  lemma NamesOfJoin(names: seq<string>)
    requires names != [] && forall n :: n in names ==> IsName(n) && '/' !in n
    ensures NamesOf(Text.Join(names, '/')) == names && NamesOf("/" + Text.Join(names, '/')) == names
    ensures !IsAbsolute(Text.Join(names, '/'))
  {
    var joined := Text.Join(names, '/');
    Text.JoinThenSplit(names, '/');
    FilterEverything(names, IsName);
    Text.SplitAt("", joined, '/');
    assert "" + "/" + joined == "/" + joined;
    FilterConcat([""], names, IsName);
    assert Filter([""], IsName) == [];
    assert names[0] in names;
    assert joined[0] == names[0][0];
  }

  /** Parsing a path again changes nothing. */
  lemma ParseIsNormal(raw: string)
    ensures Normal(Parse(raw))
  {
    var names := NamesOf(raw);
    Text.SplitThenJoin(raw, '/');
    FilterMembers(Text.Split(raw, '/'), IsName);
    if names != [] {
      NamesOfJoin(names);
    } else {
      HereHasNoNames();
      RootHasNoNames();
    }
  }

  /** A relative path that is a name or several names with slashes between. */
  ghost predicate AllNames(p: Path) {
    forall n :: n in Text.Split(p, '/') ==> IsName(n)
  }

  lemma AllNamesIsNormal(p: Path)
    requires AllNames(p)
    ensures Normal(p) && p != "" && Named(p) && !IsAbsolute(p)
  {
    FilterEverything(Text.Split(p, '/'), IsName);
    Text.SplitThenJoin(p, '/');
    NamesOfJoin(Text.Split(p, '/'));
    HereHasNoNames();
  }

  lemma NormalHasNames(p: Path)
    requires Normal(p) && Named(p)
    ensures AllNames(if IsAbsolute(p) then p[1..] else p)
  {
    var names := NamesOf(p);
    Text.SplitThenJoin(p, '/');
    FilterMembers(Text.Split(p, '/'), IsName);
    NamesOfJoin(names);
    Text.JoinThenSplit(names, '/');
  }

  /** What follows a slash in a normal path is a normal relative path. */
  lemma TailIsNormal(w: string, x: string)
    requires w != "" && w[|w| - 1] == '/' && Normal(w + x) && Named(w + x)
    ensures AllNames(x)
  {
    NormalHasNames(w + x);
    var u := w[..|w| - 1];
    if IsAbsolute(w + x) {
      if |w| == 1 {
        assert (w + x)[1..] == x;
      } else {
        assert (w + x)[1..] == u[1..] + "/" + x;
        Text.SplitConcat(u[1..], x, '/');
      }
    } else {
      assert w + x == u + "/" + x;
      Text.SplitConcat(u, x, '/');
    }
  }

  /** The parents of a normal path are normal. */
  lemma ParentsAreNormal(a: Path, p: Path)
    requires Normal(p) && a in Parents(p)
    ensures Normal(a)
  {
    if Named(a) {
      var x := Behind(a, p);
      NormalHasNames(p);
      HeadIsNormal(a, x);
    } else {
      HereHasNoNames();
      RootHasNoNames();
    }
  }

  lemma Behind(a: Path, p: Path) returns (x: string)
    requires a in Parents(p) && Named(a)
    ensures p == a + "/" + x && a != ""
  {
    ParentsAreNonempty(p);
    ParentIsPrefix(a, p);
    x := p[|a| + 1..];
  }

  lemma HeadIsNormal(a: Path, x: string)
    requires a != ""
    requires AllNames(if IsAbsolute(a) then (a + "/" + x)[1..] else a + "/" + x)
    ensures Normal(a)
  {
    if IsAbsolute(a) {
      assert (a + "/" + x)[1..] == a[1..] + "/" + x;
      HeadHasNames(a[1..], x);
      RootedIsNormal(a[1..]);
      assert a == "/" + a[1..];
    } else {
      HeadHasNames(a, x);
      AllNamesIsNormal(a);
    }
  }

  lemma HeadHasNames(a: Path, x: string)
    requires AllNames(a + "/" + x)
    ensures AllNames(a)
  {
    Text.SplitConcat(a, x, '/');
  }

  lemma RootedIsNormal(x: Path)
    requires AllNames(x)
    ensures Normal("/" + x)
  {
    NamesOfAbsolute(x);
    AllNamesIsNormal(x);
  }

  lemma NamesOfAbsolute(x: Path)
    ensures NamesOf("/" + x) == NamesOf(x)
  {
    Text.SplitAt("", x, '/');
    assert "" + "/" + x == "/" + x;
    FilterConcat([""], Text.Split(x, '/'), IsName);
    assert Filter([""], IsName) == [];
  }

  /** Slashes divide names; nothing and "." are no names, whatever else stands between slashes is one. */
  lemma NamesOfConcat(a: string, b: string)
    ensures NamesOf(a + "/" + b) == NamesOf(a) + NamesOf(b)
  {
    Text.SplitConcat(a, b, '/');
    FilterConcat(Text.Split(a, '/'), Text.Split(b, '/'), IsName);
  }

  lemma NamesOfOne(n: string)
    requires '/' !in n
    ensures NamesOf(n) == if n == "" || n == "." then [] else [n]
  {
    Text.SplitThenJoin(n, '/');
    assert Text.Split(n, '/') == [n];
    assert Filter([n], IsName) == if IsName(n) then [n] else [];
  }

  lemma ParseByNames(p: string, q: string)
    requires NamesOf(p) == NamesOf(q) && IsAbsolute(p) == IsAbsolute(q)
    ensures Parse(p) == Parse(q)
  {
  }

  /** What is no name between two slashes makes no difference to a path: nothing, or ".". */
  lemma ParseIgnores(a: string, n: string, b: string)
    requires n == "" || n == "."
    ensures Parse(a + "/" + n + "/" + b) == Parse(a + "/" + b)
  {
    NamesIgnore(a, n, b);
    StartsAlike(a, "/" + n + "/" + b, "/" + b);
    Regroup3(a, n, b);
    ParseByNames(a + "/" + n + "/" + b, a + "/" + b);
  }

  lemma Regroup3(a: string, n: string, b: string)
    ensures a + ("/" + n + "/" + b) == a + "/" + n + "/" + b && a + ("/" + b) == a + "/" + b
  {
  }

  lemma NamesIgnore(a: string, n: string, b: string)
    requires n == "" || n == "."
    ensures NamesOf(a + "/" + n + "/" + b) == NamesOf(a + "/" + b)
  {
    NamesOfOne(n);
    NamesOfConcat(a, n);
    NamesOfConcat(a, b);
    NamesOfConcat(a + "/" + n, b);
  }

  lemma StartsAlike(a: string, s: string, t: string)
    requires IsAbsolute(s) && IsAbsolute(t)
    ensures IsAbsolute(a + s) == IsAbsolute(a + t)
  {
  }

  /** Nor do slashes at its end. */
  lemma {:induction false} ParseIgnoresSlashes(p: string, slashes: string)
    requires p != "" && forall i :: 0 <= i < |slashes| ==> slashes[i] == '/'
    ensures Parse(p + slashes) == Parse(p)
  {
    if slashes == "" {
      assert p + slashes == p;
    } else {
      var n := |slashes| - 1;
      ParseIgnoresSlashes(p, slashes[..n]);
      SlashAtEnd(p + slashes[..n]);
      assert slashes == slashes[..n] + "/" && p + slashes == (p + slashes[..n]) + "/";
    }
  }

  lemma SlashAtEnd(p: string)
    requires p != ""
    ensures Parse(p + "/") == Parse(p)
  {
    NamesOfOne("");
    NamesOfConcat(p, "");
    assert p + "/" + "" == p + "/";
    ParseByNames(p + "/", p);
  }

  lemma HereHasNoNames()
    ensures NamesOf(".") == []
  {
    Text.SplitThenJoin(".", '/');
    assert Text.Split(".", '/') == ["."];
  }

  lemma RootHasNoNames()
    ensures NamesOf("/") == []
  {
    var parts := Text.Split("/", '/');
    Text.SplitAt("", "", '/');
    assert "" + "/" + "" == "/";
    assert parts == ["", ""];
    FilterMembers(parts, IsName);
    FilterNothing(parts, IsName);
  }
}
