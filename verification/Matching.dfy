/**
 Wildcard patterns: the matcher places the text between the stars leftmost, one piece
 after the other, and never goes back. Its language is compared with that of the glob.
 */
module Matching {
  import opened Sequences
  import opened Text
  import opened Paths

  datatype FileMatcher = FileMatcher(matchString: string, includes: bool) {
    predicate Exact() {
      '*' !in matchString
    }

    predicate AbsolutePath() {
      IsAbsolute(matchString)
    }
  }

  /** Each piece leftmost after the one before it; the offset after the last one. */
  function Place(pieces: seq<string>, v: string, off: nat): Option<nat> {
    if pieces == [] then Some(off)
    else if pieces[0] == "" then Place(pieces[1..], v, off)
    else
      var at := Find(v, pieces[0], off);
      if at.None? then None else Place(pieces[1..], v, at.value + |pieces[0]|)
  }

  /** The language of the matcher, as its loop computes it. */
  predicate Accepts(pattern: string, v: string) {
    if '*' !in pattern then pattern == v
    else
      var pieces := Split(pattern, '*');
      AcceptsPieces(pieces, v)
  }

  predicate AcceptsPieces(pieces: seq<string>, v: string)
    requires |pieces| >= 1
  {
    && pieces[0] <= v
    && var end := Place(pieces[1..], v, |pieces[0]|);
      end.Some? && (pieces[|pieces| - 1] == "" || end.value == |v|)
  }

  method Match(m: FileMatcher, value: string) returns (matched: bool)
    ensures matched == Accepts(m.matchString, value)
    ensures matched <==> LeftmostGlob(m.matchString, value)
  {
    AcceptsExactly(m.matchString, value);
    if m.Exact() {
      return m.matchString == value;
    }
    var pieces := Split(m.matchString, '*');
    matched := MatchPieces(pieces, value);
  }

  /** The loop of `Match`. */
  method MatchPieces(pieces: seq<string>, value: string) returns (matched: bool)
    requires |pieces| >= 1
    ensures matched == AcceptsPieces(pieces, value)
  {
    ghost var end := Place(pieces[1..], value, |pieces[0]|);
    var i, off: nat := 0, 0;
    var s := pieces[0];
    if |s| > 0 {
      if |value| < i + |s| || value[i..i + |s|] != s {
        return false;
      }
      off := off + |s|;
      i := i + 1;
    } else {
      assert pieces[0..] == pieces;
    }
    while i < |pieces|
      invariant 0 <= i <= |pieces|
      invariant Place(pieces[i..], value, off) == end
    {
      s := pieces[i];
      assert pieces[i..][0] == s && pieces[i..][1..] == pieces[i + 1..];
      if |s| > 0 {
        var at := Find(value, s, off);
        if at.None? {
          return false;
        }
        off := at.value;
      }
      i := i + 1;
      off := off + |s|;
    }
    assert end == Some(off);
    if pieces[|pieces| - 1] != "" && off != |value| {
      return false;
    }
    return true;
  }

  // ---------- the glob language ----------

  /** '*' stands for any text, every other character for itself. */
  ghost predicate Glob(p: string, v: string) {
    if p == "" then v == ""
    else if p[0] == '*' then exists k :: 0 <= k <= |v| && Glob(p[1..], v[k..])
    else v != "" && v[0] == p[0] && Glob(p[1..], v[1..])
  }

  /** A pattern ending in '*' means its glob language. Any other pattern with a star means
      exactly the members of the language of which no proper prefix is a member. */
  ghost predicate LeftmostGlob(pattern: string, v: string) {
    && Glob(pattern, v)
    && ('*' in pattern && pattern[|pattern| - 1] != '*' ==> forall n :: 0 <= n < |v| ==> !Glob(pattern, v[..n]))
  }

  /** The pieces can be placed in order, anywhere from `off` on, the last one ending at `end`. */
  ghost predicate Fits(pieces: seq<string>, v: string, off: nat, end: nat) {
    if pieces == [] then off == end
    else exists k: nat :: off <= k && OccursAt(v, pieces[0], k) && Fits(pieces[1..], v, k + |pieces[0]|, end)
  }

  ghost predicate StarFree(pieces: seq<string>) {
    forall i :: 0 <= i < |pieces| ==> '*' !in pieces[i]
  }

  lemma {:induction false} GlobLiteral(s: string, p: string, v: string)
    requires '*' !in s
    ensures Glob(s + p, v) <==> s <= v && Glob(p, v[|s|..])
  {
    if s == "" {
      assert s + p == p && v[0..] == v;
    } else {
      assert (s + p)[1..] == s[1..] + p;
      if v != "" {
        GlobLiteral(s[1..], p, v[1..]);
        assert |s| <= |v| ==> v[1..][|s| - 1..] == v[|s|..];
      }
    }
  }

  lemma GlobStar(p: string, v: string, off: nat)
    requires off <= |v|
    ensures Glob("*" + p, v[off..]) <==> exists k :: off <= k <= |v| && Glob(p, v[k..])
  {
    var w := v[off..];
    assert ("*" + p)[1..] == p;
    if Glob("*" + p, w) {
      var j :| 0 <= j <= |w| && Glob(p, w[j..]);
      assert w[j..] == v[off + j..];
    }
    if k :| off <= k <= |v| && Glob(p, v[k..]) {
      assert w[k - off..] == v[k..];
    }
  }

  lemma {:induction false} GlobPieces(pieces: seq<string>, v: string, off: nat)
    requires |pieces| >= 1 && StarFree(pieces) && off <= |v|
    ensures Glob("*" + Join(pieces, '*'), v[off..]) <==> Fits(pieces, v, off, |v|)
    decreases |pieces|, 1
  {
    var p := Join(pieces, '*');
    GlobStar(p, v, off);
    if Fits(pieces, v, off, |v|) {
      var k: nat :| off <= k && OccursAt(v, pieces[0], k) && Fits(pieces[1..], v, k + |pieces[0]|, |v|);
      GlobFrom(pieces, v, k);
      assert Glob(p, v[k..]);
    }
    if k :| off <= k <= |v| && Glob(p, v[k..]) {
      GlobFrom(pieces, v, k);
    }
  }

  /** The pieces from one occurrence of the first on. */
  lemma {:induction false} GlobFrom(pieces: seq<string>, v: string, k: nat)
    requires |pieces| >= 1 && StarFree(pieces) && k <= |v|
    ensures Glob(Join(pieces, '*'), v[k..]) <==>
      OccursAt(v, pieces[0], k) && Fits(pieces[1..], v, k + |pieces[0]|, |v|)
    decreases |pieces|, 0
  {
    GlobFirstPiece(pieces, v, k);
    if OccursAt(v, pieces[0], k) && |pieces| > 1 {
      GlobPieces(pieces[1..], v, k + |pieces[0]|);
    }
  }

  lemma GlobFirstPiece(pieces: seq<string>, v: string, k: nat)
    requires |pieces| >= 1 && StarFree(pieces) && k <= |v|
    ensures var s, rest := pieces[0], pieces[1..];
      Glob(Join(pieces, '*'), v[k..]) <==>
        && OccursAt(v, s, k)
        && if rest == [] then k + |s| == |v| else Glob("*" + Join(rest, '*'), v[k + |s|..])
  {
    var s := pieces[0];
    var rest := if |pieces| == 1 then "" else "*" + Join(pieces[1..], '*');
    assert Join(pieces, '*') == s + rest;
    GlobLiteral(s, rest, v[k..]);
    assert s <= v[k..] <==> OccursAt(v, s, k);
    if OccursAt(v, s, k) {
      assert v[k..][|s|..] == v[k + |s|..];
    }
  }

  lemma {:induction false} FitsGoesForward(pieces: seq<string>, v: string, off: nat, end: nat)
    requires Fits(pieces, v, off, end) && off <= |v|
    ensures off <= end <= |v|
  {
    if pieces != [] {
      var k: nat :| off <= k && OccursAt(v, pieces[0], k) && Fits(pieces[1..], v, k + |pieces[0]|, end);
      FitsGoesForward(pieces[1..], v, k + |pieces[0]|, end);
    }
  }

  /** Nothing after the end of the last piece matters. */
  lemma {:induction false} FitsInPrefix(pieces: seq<string>, v: string, off: nat, end: nat)
    requires off <= end <= |v|
    ensures Fits(pieces, v[..end], off, end) <==> Fits(pieces, v, off, end)
  {
    if pieces != [] {
      var s := pieces[0];
      forall k: nat | off <= k && k + |s| <= end
        ensures OccursAt(v[..end], s, k) <==> OccursAt(v, s, k)
        ensures Fits(pieces[1..], v[..end], k + |s|, end) <==> Fits(pieces[1..], v, k + |s|, end)
      {
        FitsInPrefix(pieces[1..], v, k + |s|, end);
      }
      forall k: nat | OccursAt(v, s, k) && Fits(pieces[1..], v, k + |s|, end) ensures k + |s| <= end {
        FitsGoesForward(pieces[1..], v, k + |s|, end);
      }
      if Fits(pieces, v, off, end) {
        var k: nat :| off <= k && OccursAt(v, s, k) && Fits(pieces[1..], v, k + |s|, end);
        assert OccursAt(v[..end], s, k);
      }
    }
  }

  /** An empty last piece can be placed at the very end. */
  lemma {:induction false} EmptyPieceReachesEnd(pieces: seq<string>, v: string, off: nat, end: nat)
    requires pieces != [] && pieces[|pieces| - 1] == ""
    requires Fits(pieces, v, off, end) && off <= |v|
    ensures Fits(pieces, v, off, |v|)
  {
    var k: nat :| off <= k && OccursAt(v, pieces[0], k) && Fits(pieces[1..], v, k + |pieces[0]|, end);
    if |pieces| == 1 {
      assert OccursAt(v, pieces[0], |v|);
      assert Fits(pieces[1..], v, |v|, |v|);
    } else {
      EmptyPieceReachesEnd(pieces[1..], v, k + |pieces[0]|, end);
    }
  }

  /** Leftmost placement succeeds whenever any placement does, and ends no later. */
  lemma {:induction false} LeftmostEndsFirst(pieces: seq<string>, v: string, off: nat, from: nat, end: nat)
    requires off <= from && Fits(pieces, v, from, end)
    ensures Place(pieces, v, off).Some? && Place(pieces, v, off).value <= end
  {
    if pieces != [] {
      var s := pieces[0];
      var k: nat :| from <= k && OccursAt(v, s, k) && Fits(pieces[1..], v, k + |s|, end);
      var next := if s == "" then off else Find(v, s, off).value + |s|;
      assert next <= k + |s|;
      LeftmostEndsFirst(pieces[1..], v, next, k + |s|, end);
      assert Place(pieces, v, off) == Place(pieces[1..], v, next);
    }
  }

  /** What leftmost placement finds is a placement. */
  lemma {:induction false} LeftmostFits(pieces: seq<string>, v: string, off: nat)
    requires off <= |v| && Place(pieces, v, off).Some?
    ensures Fits(pieces, v, off, Place(pieces, v, off).value)
  {
    if pieces != [] {
      var s := pieces[0];
      var k := if s == "" then off else Find(v, s, off).value;
      LeftmostFits(pieces[1..], v, k + |s|);
      assert OccursAt(v, s, k);
    }
  }

  lemma {:induction false} LastPieceIsEmpty(pattern: string)
    requires '*' in pattern
    ensures var pieces := Split(pattern, '*');
      pieces[|pieces| - 1] == "" <==> pattern[|pattern| - 1] == '*'
  {
    var pieces, rest := Split(pattern, '*'), Split(pattern[1..], '*');
    SplitThenJoin(pattern[1..], '*');
    if '*' in pattern[1..] {
      LastPieceIsEmpty(pattern[1..]);
      assert |rest| > 1 && pieces[|pieces| - 1] == rest[|rest| - 1];
    } else {
      assert pieces == ["", pattern[1..]];
    }
  }

  /** The glob of a pattern with stars, piece by piece. */
  lemma GlobByPieces(pattern: string, v: string)
    requires '*' in pattern
    ensures var pieces := Split(pattern, '*');
      Glob(pattern, v) <==> pieces[0] <= v && Fits(pieces[1..], v, |pieces[0]|, |v|)
  {
    SplitThenJoin(pattern, '*');
    var pieces := Split(pattern, '*');
    GlobLiteral(pieces[0], "*" + Join(pieces[1..], '*'), v);
    assert pattern == pieces[0] + ("*" + Join(pieces[1..], '*'));
    if pieces[0] <= v {
      GlobPieces(pieces[1..], v, |pieces[0]|);
    }
  }

  lemma AcceptsExactly(pattern: string, v: string)
    ensures Accepts(pattern, v) <==> LeftmostGlob(pattern, v)
  {
    if '*' !in pattern {
      GlobLiteral(pattern, "", v);
      assert pattern + "" == pattern;
    } else {
      var pieces := Split(pattern, '*');
      SplitThenJoin(pattern, '*');
      var off, rest := |pieces[0]|, pieces[1..];
      GlobByPieces(pattern, v);
      LastPieceIsEmpty(pattern);
      if pieces[0] <= v {
        var end := Place(rest, v, off);
        if Fits(rest, v, off, |v|) {
          LeftmostEndsFirst(rest, v, off, off, |v|);
        }
        if end.Some? {
          LeftmostFits(rest, v, off);
          FitsGoesForward(rest, v, off, end.value);
          if pieces[|pieces| - 1] == "" {
            EmptyPieceReachesEnd(rest, v, off, end.value);
          }
          ShorterMember(pattern, v, end.value);
        }
        NoShorterMember(pattern, v);
      }
    }
  }

  /** The text up to where leftmost placement ends is in the language. */
  lemma ShorterMember(pattern: string, v: string, end: nat)
    requires '*' in pattern
    requires var pieces := Split(pattern, '*');
      pieces[0] <= v && |pieces[0]| <= end <= |v| && Fits(pieces[1..], v, |pieces[0]|, end)
    ensures Glob(pattern, v[..end])
  {
    var pieces := Split(pattern, '*');
    FitsInPrefix(pieces[1..], v, |pieces[0]|, end);
    GlobByPieces(pattern, v[..end]);
    assert pieces[0] <= v[..end];
  }

  /** No shorter text is. */
  lemma NoShorterMember(pattern: string, v: string)
    requires '*' in pattern && Split(pattern, '*')[0] <= v
    ensures var pieces := Split(pattern, '*');
      forall n :: 0 <= n <= |v| && Glob(pattern, v[..n]) ==>
        var end := Place(pieces[1..], v, |pieces[0]|); end.Some? && end.value <= n
  {
    var pieces := Split(pattern, '*');
    var off := |pieces[0]|;
    forall n | 0 <= n <= |v| && Glob(pattern, v[..n])
      ensures var end := Place(pieces[1..], v, off); end.Some? && end.value <= n
    {
      GlobByPieces(pattern, v[..n]);
      FitsInPrefix(pieces[1..], v, off, n);
      LeftmostEndsFirst(pieces[1..], v, off, off, n);
    }
  }

  /** Leftmost placement misses members of the language: `*a` is the least such pattern. */
  lemma LeftmostIsIncomplete()
    ensures Glob("*a", "aba") && !Accepts("*a", "aba")
  {
    assert Glob("*a"[1..], "aba"[2..]);
    assert Glob("*a", "aba"[..1]) by { assert Glob("*a"[1..], "aba"[..1][0..]); }
    AcceptsExactly("*a", "aba");
  }

  /** The pattern of a directory, `x/` followed by a star, accepts what lies below `x`. */
  lemma AcceptsBelow(x: string, v: string)
    requires '*' !in x
    ensures Accepts(x + "/*", v) <==> x + "/" <= v
  {
    var prefix := x + "/";
    assert x + "/*" == prefix + "*";
    AcceptsExactly(prefix + "*", v);
    GlobLiteral(prefix, "*", v);
    if prefix <= v {
      var w := v[|prefix|..];
      assert Glob("*"[1..], w[|w|..]);
    }
  }

  /** A star at the end of a pattern lets anything follow. */
  lemma {:induction false} GlobThenAnything(p: string, v: string)
    ensures Glob(p + "*", v) <==> exists k :: 0 <= k <= |v| && Glob(p, v[..k])
  {
    if p == "" {
      assert p + "*" == "*" && "*"[1..] == "" && v[|v|..] == "" && v[..0] == "";
    } else if p[0] == '*' {
      assert (p + "*")[1..] == p[1..] + "*";
      if Glob(p + "*", v) {
        var j := StarSplits(p + "*", v);
        GlobThenAnything(p[1..], v[j..]);
        var k :| 0 <= k <= |v[j..]| && Glob(p[1..], v[j..][..k]);
        assert v[..j + k][j..] == v[j..][..k];
        assert Glob(p, v[..j + k]);
      }
      if k :| 0 <= k <= |v| && Glob(p, v[..k]) {
        var j := StarSplits(p, v[..k]);
        assert v[..k][j..] == v[j..][..k - j];
        GlobThenAnything(p[1..], v[j..]);
      }
    } else {
      assert (p + "*")[1..] == p[1..] + "*";
      if v != "" {
        GlobThenAnything(p[1..], v[1..]);
        forall k | 1 <= k <= |v| ensures Glob(p, v[..k]) <==> v[0] == p[0] && Glob(p[1..], v[1..][..k - 1]) {
          assert v[..k][1..] == v[1..][..k - 1];
        }
        if k :| 0 <= k <= |v[1..]| && Glob(p[1..], v[1..][..k]) && v[0] == p[0] {
          assert Glob(p, v[..k + 1]);
        }
      }
    }
  }

  lemma StarSplits(p: string, v: string) returns (j: nat)
    requires p != "" && p[0] == '*' && Glob(p, v)
    ensures j <= |v| && Glob(p[1..], v[j..])
  {
    j :| 0 <= j <= |v| && Glob(p[1..], v[j..]);
  }

  // ---------- filtering file lists ----------

  /** `Path(file).relative_to(workDir)` for a `workDir` that ends with a slash. */
  function RelativeTo(file: Path, workDir: string): Option<Path> {
    if workDir <= file && file != workDir then Some(file[|workDir|..])
    else if file == workDir || file + "/" == workDir then Some(".")
    else None
  }

  predicate KeepsUpload(m: FileMatcher, file: Path) {
    Accepts(m.matchString, file) == m.includes
  }

  predicate KeepsDownload(m: FileMatcher, workDir: string, file: Path) {
    if m.AbsolutePath() then Accepts(m.matchString, file) == m.includes
    else
      var rel := RelativeTo(file, workDir);
      if rel.None? then !m.includes else Accepts(m.matchString, rel.value) == m.includes
  }

  lemma UploadFilter(m: FileMatcher, files: seq<Path>)
    ensures forall f :: f in Filter(files, f => KeepsUpload(m, f)) <==>
      f in files && (LeftmostGlob(m.matchString, f) <==> m.includes)
  {
    FilterMembers(files, f => KeepsUpload(m, f));
    forall f ensures KeepsUpload(m, f) <==> (LeftmostGlob(m.matchString, f) <==> m.includes) {
      AcceptsExactly(m.matchString, f);
    }
  }

  /** A pattern from the root looks at the whole path, any other at what follows the working directory. */
  lemma KeepsInPlainText(m: FileMatcher, workDir: string, f: Path)
    ensures "/" <= m.matchString ==>
      (KeepsDownload(m, workDir, f) <==> (LeftmostGlob(m.matchString, f) <==> m.includes))
    ensures !("/" <= m.matchString) ==>
      && (workDir <= f && f != workDir ==>
            (KeepsDownload(m, workDir, f) <==> (LeftmostGlob(m.matchString, f[|workDir|..]) <==> m.includes)))
      && (f == workDir || f + "/" == workDir ==> (KeepsDownload(m, workDir, f) <==> (LeftmostGlob(m.matchString, ".") <==> m.includes)))
      && (!(workDir <= f) && f + "/" != workDir ==> (KeepsDownload(m, workDir, f) <==> !m.includes))
  {
    AcceptsExactly(m.matchString, f);
    AcceptsExactly(m.matchString, ".");
    if workDir <= f {
      AcceptsExactly(m.matchString, f[|workDir|..]);
    }
  }

  lemma DownloadFilter(m: FileMatcher, files: seq<Path>, workDir: string)
    ensures var res := Filter(files, f => KeepsDownload(m, workDir, f));
      && ("/" <= m.matchString ==>
            forall f :: f in res <==> f in files && (LeftmostGlob(m.matchString, f) <==> m.includes))
      && (!("/" <= m.matchString) ==>
            && (forall f, rel :: f == workDir + rel && rel != "" ==>
                  (f in res <==> f in files && (LeftmostGlob(m.matchString, rel) <==> m.includes)))
            && (forall f :: !(workDir <= f) && f + "/" != workDir ==> (f in res <==> f in files && !m.includes)))
  {
    FilterMembers(files, f => KeepsDownload(m, workDir, f));
    var res := Filter(files, f => KeepsDownload(m, workDir, f));
    forall f, rel | f == workDir + rel && rel != "" && !("/" <= m.matchString)
      ensures f in res <==> f in files && (LeftmostGlob(m.matchString, rel) <==> m.includes)
    {
      KeepsInPlainText(m, workDir, f);
      assert f[|workDir|..] == rel;
    }
    forall f | !("/" <= m.matchString) && !(workDir <= f) && f + "/" != workDir
      ensures f in res <==> f in files && !m.includes
    {
      KeepsInPlainText(m, workDir, f);
    }
    forall f | "/" <= m.matchString
      ensures f in res <==> f in files && (LeftmostGlob(m.matchString, f) <==> m.includes)
    {
      KeepsInPlainText(m, workDir, f);
    }
  }

  method FilterUploadFiles(m: FileMatcher, files: seq<Path>) returns (res: seq<Path>)
    ensures res == Filter(files, f => KeepsUpload(m, f))
    ensures forall f :: f in res <==> f in files && (LeftmostGlob(m.matchString, f) <==> m.includes)
  {
    UploadFilter(m, files);
    res := [];
    for i := 0 to |files|
      invariant res == Filter(files[..i], f => KeepsUpload(m, f))
    {
      TakeOneMore(files, i);
      FilterAppend(files[..i], files[i], f => KeepsUpload(m, f));
      var matched := Match(m, files[i]);
      if matched == m.includes {
        res := res + [files[i]];
      }
    }
    assert files[..|files|] == files;
  }

  method FilterDownloadFiles(m: FileMatcher, files: seq<Path>, workDir: string) returns (res: seq<Path>)
    ensures res == Filter(files, f => KeepsDownload(m, workDir, f))
    ensures "/" <= m.matchString ==>
      forall f :: f in res <==> f in files && (LeftmostGlob(m.matchString, f) <==> m.includes)
    ensures !("/" <= m.matchString) ==>
      && (forall f, rel :: f == workDir + rel && rel != "" ==>
            (f in res <==> f in files && (LeftmostGlob(m.matchString, rel) <==> m.includes)))
      && (forall f :: !(workDir <= f) && f + "/" != workDir ==> (f in res <==> f in files && !m.includes))
  {
    DownloadFilter(m, files, workDir);
    res := [];
    for i := 0 to |files|
      invariant res == Filter(files[..i], f => KeepsDownload(m, workDir, f))
    {
      var file := files[i];
      TakeOneMore(files, i);
      FilterAppend(files[..i], file, f => KeepsDownload(m, workDir, f));
      if m.AbsolutePath() {
        var matched := Match(m, file);
        if matched == m.includes {
          res := res + [file];
        }
      } else {
        var rel := RelativeTo(file, workDir);
        if rel.None? {
          if !m.includes {
            res := res + [file];
          }
          continue;
        }
        var matched := Match(m, rel.value);
        if matched == m.includes {
          res := res + [file];
        }
      }
    }
    assert files[..|files|] == files;
  }
}
