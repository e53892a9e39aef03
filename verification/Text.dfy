/**
 The parts of Python's string library that the program's logic rests on:
 `str.split` with a one-character separator, its inverse `str.join`, `str.find`, and
 the order of strings by code point.
 */
module Text {
  import opened Sequences

  function Split(s: string, sep: char): (parts: seq<string>)
    ensures |parts| >= 1
  {
    if s == "" then [""]
    else
      var rest := Split(s[1..], sep);
      if s[0] == sep then [""] + rest else [[s[0]] + rest[0]] + rest[1..]
  }

  function Join(parts: seq<string>, sep: char): string
    requires |parts| >= 1
  {
    if |parts| == 1 then parts[0] else parts[0] + [sep] + Join(parts[1..], sep)
  }

  /** Splitting loses nothing and leaves no separator in a part. */
  lemma {:induction false} SplitThenJoin(s: string, sep: char)
    ensures Join(Split(s, sep), sep) == s
    ensures forall i :: 0 <= i < |Split(s, sep)| ==> sep !in Split(s, sep)[i]
    ensures |Split(s, sep)| == 1 <==> sep !in s
  {
    if s != "" {
      SplitThenJoin(s[1..], sep);
      assert s == [s[0]] + s[1..];
      var rest := Split(s[1..], sep);
      var parts := Split(s, sep);
      if s[0] == sep {
        assert parts[1..] == rest;
      } else {
        assert parts[1..] == rest[1..];
        assert forall i :: 1 <= i < |parts| ==> parts[i] == rest[i];
      }
    }
  }

  lemma {:induction false} SplitAt(s: string, t: string, sep: char)
    requires sep !in s
    ensures Split(s + [sep] + t, sep) == [s] + Split(t, sep)
  {
    if s == "" {
      assert s + [sep] + t == [sep] + t;
      assert ([sep] + t)[1..] == t;
    } else {
      SplitAt(s[1..], t, sep);
      assert (s + [sep] + t)[1..] == s[1..] + [sep] + t;
      assert [s[0]] + s[1..] == s;
    }
  }

  /** Splitting goes through both sides of a separator. */
  lemma {:induction false} SplitConcat(s: string, t: string, sep: char)
    ensures Split(s + [sep] + t, sep) == Split(s, sep) + Split(t, sep)
  {
    if s == "" {
      assert s + [sep] + t == [sep] + t;
      assert ([sep] + t)[1..] == t;
    } else {
      SplitConcat(s[1..], t, sep);
      assert (s + [sep] + t)[1..] == s[1..] + [sep] + t;
      var before, after := Split(s[1..], sep), Split(t, sep);
      assert (before + after)[1..] == before[1..] + after;
      Regroup([""], before, after);
    }
  }

  /** Joining loses nothing when no part has the separator. */
  lemma {:induction false} JoinThenSplit(parts: seq<string>, sep: char)
    requires |parts| >= 1 && forall i :: 0 <= i < |parts| ==> sep !in parts[i]
    ensures Split(Join(parts, sep), sep) == parts
  {
    if |parts| == 1 {
      SplitThenJoin(parts[0], sep);
    } else {
      JoinThenSplit(parts[1..], sep);
      SplitAt(parts[0], Join(parts[1..], sep), sep);
    }
  }

  /** `s` occurs in `v` at offset `k`. */
  predicate OccursAt(v: string, s: string, k: nat) {
    k + |s| <= |v| && v[k..k + |s|] == s
  }

  /** `v.find(s, off)`: the leftmost occurrence of `s` at or after `off`. */
  function Find(v: string, s: string, off: nat): (r: Option<nat>)
    ensures r.Some? ==> off <= r.value && OccursAt(v, s, r.value)
    ensures r.Some? ==> forall k :: off <= k < r.value ==> !OccursAt(v, s, k)
    ensures r.None? ==> forall k :: off <= k ==> !OccursAt(v, s, k)
    decreases |v| - off
  {
    if OccursAt(v, s, off) then Some(off)
    else if off >= |v| then None
    else Find(v, s, off + 1)
  }

  /** The order of strings by code point, as Python compares them. */
  predicate StringLe(a: string, b: string) {
    if a == "" then true
    else if b == "" then false
    else a[0] < b[0] || (a[0] == b[0] && StringLe(a[1..], b[1..]))
  }

  lemma {:induction false} StringLeTotal(a: string, b: string)
    ensures StringLe(a, b) || StringLe(b, a)
    ensures StringLe(a, b) && StringLe(b, a) ==> a == b
  {
    if a != "" && b != "" && a[0] == b[0] {
      StringLeTotal(a[1..], b[1..]);
      assert a == [a[0]] + a[1..] && b == [b[0]] + b[1..];
    }
  }

  lemma {:induction false} StringLeTransitive(a: string, b: string, c: string)
    requires StringLe(a, b) && StringLe(b, c)
    ensures StringLe(a, c)
  {
    if a != "" && b != "" && c != "" && a[0] == b[0] == c[0] {
      StringLeTransitive(a[1..], b[1..], c[1..]);
    }
  }

  /** The first difference decides. */
  lemma {:induction false} FirstDifference(w: string, x: char, y: char, s: string, t: string)
    ensures x < y ==> StringLe(w + [x] + s, w + [y] + t) && !StringLe(w + [y] + t, w + [x] + s)
  {
    var a, b := w + [x] + s, w + [y] + t;
    if w != "" {
      FirstDifference(w[1..], x, y, s, t);
      assert a[1..] == w[1..] + [x] + s && b[1..] == w[1..] + [y] + t;
    }
  }

  /** A prefix comes first. */
  lemma {:induction false} PrefixIsLess(a: string, b: string)
    requires a <= b
    ensures StringLe(a, b)
  {
    if a != "" {
      assert a[0] == b[0];
      PrefixIsLess(a[1..], b[1..]);
    }
  }
}
