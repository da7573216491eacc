/**
 * The handful of Python `str` operations the modelled code relies on:
 * `split(sep)`, `sep.join(parts)`, `rsplit(sep, 1)`, `strip()`,
 * `endswith(suffix)`, `replace(c, '')` and `lower()`.
 */
module Strings {
  import opened Wrappers

  /** `p` occurs in `s` starting at index `k`. */
  predicate OccursAt(s: string, p: string, k: int) {
    0 <= k && k + |p| <= |s| && s[k..k + |p|] == p
  }

  /** Python's `p in s` for a string `p`. */
  predicate Contains(s: string, p: string) {
    exists k :: 0 <= k <= |s| && OccursAt(s, p, k)
  }

  /** Python's `s.startswith(p)`. */
  predicate StartsWith(s: string, p: string) {
    |p| <= |s| && s[..|p|] == p
  }

  /** Python's `s.endswith(p)`. */
  predicate EndsWith(s: string, p: string) {
    |p| <= |s| && s[|s| - |p|..] == p
  }

  function Last<T>(xs: seq<T>): T
    requires |xs| > 0
  {
    xs[|xs| - 1]
  }

  /**
   * Python's `s.split(sep)` for a non-empty separator: scanning from the left,
   * each occurrence of `sep` ends one piece; occurrences do not overlap.
   */
  function Split(s: string, sep: string): (parts: seq<string>)
    requires |sep| > 0
    ensures |parts| >= 1
    decreases |s|
  {
    if |s| < |sep| then [s]
    else if s[..|sep|] == sep then [""] + Split(s[|sep|..], sep)
    else
      var rest := Split(s[1..], sep);
      [[s[0]] + rest[0]] + rest[1..]
  }

  /** Python's `sep.join(parts)`. */
  function Join(parts: seq<string>, sep: string): string {
    if |parts| == 0 then ""
    else if |parts| == 1 then parts[0]
    else parts[0] + sep + Join(parts[1..], sep)
  }

  lemma {:induction false} JoinPrepend(c: char, parts: seq<string>, sep: string)
    requires |parts| >= 1
    ensures Join([[c] + parts[0]] + parts[1..], sep) == [c] + Join(parts, sep)
  {
    var q := [[c] + parts[0]] + parts[1..];
    if |parts| > 1 {
      assert q[1..] == parts[1..];
    }
  }

  /** Joining the pieces of a split with the same separator gives back the string. */
  lemma {:induction false} JoinSplit(s: string, sep: string)
    requires |sep| > 0
    ensures Join(Split(s, sep), sep) == s
    decreases |s|
  {
    if |s| < |sep| {
    } else if s[..|sep|] == sep {
      var rest := Split(s[|sep|..], sep);
      JoinSplit(s[|sep|..], sep);
      assert ([""] + rest)[1..] == rest;
      assert s == sep + s[|sep|..];
    } else {
      var rest := Split(s[1..], sep);
      JoinSplit(s[1..], sep);
      JoinPrepend(s[0], rest, sep);
      assert s == [s[0]] + s[1..];
    }
  }

  /** A split yields a single piece exactly when the separator does not occur. */
  lemma {:induction false} SplitSingle(s: string, sep: string)
    requires |sep| > 0
    ensures |Split(s, sep)| == 1 <==> !Contains(s, sep)
    ensures |Split(s, sep)| == 1 ==> Split(s, sep) == [s]
    decreases |s|
  {
    if |s| < |sep| {
    } else if s[..|sep|] == sep {
      assert OccursAt(s, sep, 0);
    } else {
      SplitSingle(s[1..], sep);
      if Contains(s, sep) {
        var k :| OccursAt(s, sep, k);
        assert OccursAt(s, sep, k);
        assert k != 0;
        assert s[1..][k - 1..k - 1 + |sep|] == s[k..k + |sep|];
        assert OccursAt(s[1..], sep, k - 1);
      }
      if Contains(s[1..], sep) {
        var k :| OccursAt(s[1..], sep, k);
        assert OccursAt(s[1..], sep, k);
        assert s[k + 1..k + 1 + |sep|] == s[1..][k..k + |sep|];
        assert OccursAt(s, sep, k + 1);
      }
      if |Split(s, sep)| == 1 {
        JoinSplit(s, sep);
      }
    }
  }

  /** The first piece of a split is a prefix of the string. */
  lemma {:induction false} SplitHeadIsPrefix(s: string, sep: string)
    requires |sep| > 0
    ensures StartsWith(s, Split(s, sep)[0])
    decreases |s|
  {
    if |s| < |sep| {
    } else if s[..|sep|] == sep {
    } else {
      SplitHeadIsPrefix(s[1..], sep);
      var h := Split(s[1..], sep)[0];
      assert s[..1 + |h|] == [s[0]] + s[1..][..|h|];
    }
  }

  /** The last piece of a split is a suffix of the string. */
  lemma SplitLastIsSuffix(s: string, sep: string)
    requires |sep| > 0
    ensures EndsWith(s, Last(Split(s, sep)))
  {
    var parts := Split(s, sep);
    JoinSplit(s, sep);
    if |parts| >= 2 {
      JoinLast(parts, sep);
      var prefix := Join(parts[..|parts| - 1], sep) + sep;
      assert s == prefix + Last(parts);
      assert s[|prefix|..] == Last(parts);
    }
  }

  /** No piece of a split contains the separator. */
  lemma {:induction false} SplitPiecesLackSeparator(s: string, sep: string)
    requires |sep| > 0
    ensures forall i :: 0 <= i < |Split(s, sep)| ==> !Contains(Split(s, sep)[i], sep)
    decreases |s|
  {
    var parts := Split(s, sep);
    if |s| < |sep| {
      assert !Contains(s, sep);
    } else if s[..|sep|] == sep {
      SplitPiecesLackSeparator(s[|sep|..], sep);
      var rest := Split(s[|sep|..], sep);
      assert !Contains("", sep);
      forall i | 1 <= i < |parts| ensures !Contains(parts[i], sep) {
        assert parts[i] == rest[i - 1];
      }
    } else {
      var rest := Split(s[1..], sep);
      SplitPiecesLackSeparator(s[1..], sep);
      SplitHeadIsPrefix(s[1..], sep);
      var head := [s[0]] + rest[0];
      assert head == s[..|head|];
      if Contains(head, sep) {
        var k :| OccursAt(head, sep, k);
        assert OccursAt(head, sep, k);
        if k == 0 {
          assert false;
        } else {
          assert rest[0][k - 1..k - 1 + |sep|] == head[k..k + |sep|];
          assert OccursAt(rest[0], sep, k - 1);
          assert false;
        }
      }
      forall i | 1 <= i < |parts| ensures !Contains(parts[i], sep) {
        assert parts[i] == rest[i];
      }
    }
  }

  /** For a single-character separator, containment is character membership. */
  lemma ContainsChar(s: string, c: char)
    ensures Contains(s, [c]) <==> c in s
  {
    if c in s {
      var k :| 0 <= k < |s| && s[k] == c;
      assert s[k..k + 1] == [c];
      assert OccursAt(s, [c], k);
    }
    if Contains(s, [c]) {
      var k :| OccursAt(s, [c], k);
      assert OccursAt(s, [c], k);
      assert s[k] == s[k..k + 1][0];
    }
  }

  /** Splitting a string that starts with no occurrence of `sep` before `|p|` keeps `p` in the head. */
  lemma {:induction false} SplitAfterPrefix(p: string, t: string, sep: string)
    requires |sep| > 0
    requires forall k :: 0 <= k < |p| ==> !OccursAt(p + t, sep, k)
    ensures Split(p + t, sep) == [p + Split(t, sep)[0]] + Split(t, sep)[1..]
    decreases |p|
  {
    var s := p + t;
    if |p| == 0 {
      assert s == t && p + Split(t, sep)[0] == Split(t, sep)[0];
    } else if |s| < |sep| {
      SplitSingle(t, sep);
    } else {
      assert !OccursAt(s, sep, 0);
      assert s[1..] == p[1..] + t;
      forall k | 0 <= k < |p[1..]| ensures !OccursAt(p[1..] + t, sep, k) {
        if OccursAt(p[1..] + t, sep, k) {
          assert (p[1..] + t)[k..k + |sep|] == s[k + 1..k + 1 + |sep|];
          assert OccursAt(s, sep, k + 1);
          assert false;
        }
      }
      SplitAfterPrefix(p[1..], t, sep);
      assert [s[0]] + (p[1..] + Split(t, sep)[0]) == p + Split(t, sep)[0];
    }
  }

  /** Name parts that `"__".join` can join without the split losing track of them. */
  predicate SplittableParts(parts: seq<string>) {
    forall i :: 0 <= i < |parts| ==>
      !Contains(parts[i], "__") && (i < |parts| - 1 ==> !EndsWith(parts[i], "_"))
  }

  /** A part without `__` that does not end in `_` shows no `__` before its end, whatever follows it. */
  lemma NoDunderBefore(p: string, t: string)
    requires !Contains(p, "__") && !EndsWith(p, "_")
    ensures forall k :: 0 <= k < |p| ==> !OccursAt(p + t, "__", k)
  {
    forall k | 0 <= k < |p| ensures !OccursAt(p + t, "__", k) {
      if k + 2 <= |p| {
        assert p[k..k + 2] == (p + t)[k..k + 2];
        assert !OccursAt(p, "__", k);
      } else {
        assert (p + t)[k] == p[|p| - 1];
        assert p[|p| - 1..] == [p[|p| - 1]];
      }
    }
  }

  lemma SplittableTail(parts: seq<string>)
    requires |parts| >= 1 && SplittableParts(parts)
    ensures SplittableParts(parts[1..])
  {
    forall i | 0 <= i < |parts[1..]|
      ensures !Contains(parts[1..][i], "__") && (i < |parts[1..]| - 1 ==> !EndsWith(parts[1..][i], "_"))
    {
      assert parts[1..][i] == parts[i + 1];
    }
  }

  /**
   * Splitting on `__` inverts joining with `__`, as long as no part contains
   * `__` and no part but the last ends in `_` (otherwise `a_` + `__` + `b`
   * reads back as `a`, `_b`).
   */
  lemma {:induction false} SplitJoinDunder(parts: seq<string>)
    requires |parts| >= 1
    requires SplittableParts(parts)
    ensures Split(Join(parts, "__"), "__") == parts
  {
    if |parts| == 1 {
      SplitSingle(parts[0], "__");
    } else {
      var p := parts[0];
      var rest := Join(parts[1..], "__");
      SplittableTail(parts);
      SplitJoinDunder(parts[1..]);
      var t := "__" + rest;
      assert Join(parts, "__") == p + t;
      assert !Contains(p, "__") && !EndsWith(p, "_");
      NoDunderBefore(p, t);
      SplitAfterPrefix(p, t, "__");
      assert t[..2] == "__" && t[2..] == rest;
      assert Split(t, "__") == [""] + parts[1..];
      assert p + "" == p;
      assert parts == [p] + parts[1..];
    }
  }

  /** Python's `s.rsplit(c, 1)` locates the last occurrence of `c`. */
  function LastIndexOf(s: string, c: char): (r: Option<nat>)
    ensures r.None? <==> c !in s
    ensures r.Some? ==> r.value < |s| && s[r.value] == c && c !in s[r.value + 1..]
  {
    if |s| == 0 then None
    else if s[|s| - 1] == c then Some(|s| - 1)
    else
      var r := LastIndexOf(s[..|s| - 1], c);
      assert s == s[..|s| - 1] + [s[|s| - 1]];
      if r.Some? then
        assert s[r.value + 1..] == s[..|s| - 1][r.value + 1..] + [s[|s| - 1]];
        r
      else r
  }

  /** Python's `s.rsplit(c, 1)`: one piece when `c` is absent, else the text before and after the last `c`. */
  function RSplitOnce(s: string, c: char): (parts: seq<string>)
    ensures |parts| == 1 <==> c !in s
    ensures |parts| == 1 ==> parts[0] == s
    ensures |parts| != 1 ==> |parts| == 2 && parts[0] + [c] + parts[1] == s && c !in parts[1]
  {
    match LastIndexOf(s, c)
    case None => [s]
    case Some(i) =>
      assert s == s[..i] + [c] + s[i + 1..];
      [s[..i], s[i + 1..]]
  }

  /** The text after the last `c`, i.e. Python's `s.split(c)[-1]`. */
  function LastSegment(s: string, c: char): (r: string)
    ensures c !in r
    ensures EndsWith(s, r)
  {
    var parts := Split(s, [c]);
    SplitPiecesLackSeparator(s, [c]);
    ContainsChar(Last(parts), c);
    SplitLastIsSuffix(s, [c]);
    Last(parts)
  }

  /** A join of two or more parts ends with the separator and the last part. */
  lemma {:induction false} JoinLast(parts: seq<string>, sep: string)
    requires |parts| >= 2
    ensures Join(parts, sep) == Join(parts[..|parts| - 1], sep) + sep + Last(parts)
  {
    if |parts| > 2 {
      JoinLast(parts[1..], sep);
      assert parts[..|parts| - 1][1..] == parts[1..][..|parts[1..]| - 1];
    }
  }

  /** A suffix holds no character its string lacks. */
  lemma SuffixChars(s: string, t: string, c: char)
    requires EndsWith(s, t) && c !in s
    ensures c !in t
  {
    forall k | 0 <= k < |t| ensures t[k] != c {
      assert t[k] == s[|s| - |t| + k];
    }
  }

  /** `s.split(c)[-1]` and `s.rsplit(c, 1)[-1]` are the same text. */
  lemma LastSegmentIsRSplitTail(s: string, c: char)
    ensures LastSegment(s, c) == Last(RSplitOnce(s, c))
  {
    var parts := Split(s, [c]);
    var seg := LastSegment(s, c);
    SplitSingle(s, [c]);
    ContainsChar(s, c);
    if |parts| >= 2 {
      JoinSplit(s, [c]);
      JoinLast(parts, [c]);
      var j := |s| - |seg| - 1;
      assert s[j] == c && s[j + 1..] == seg;
      var i := LastIndexOf(s, c).value;
      assert i == j;
    }
  }

  /** The text after the last `c` keeps any suffix of the string that has no `c` in it. */
  lemma LastSegmentKeepsSuffix(s: string, c: char, t: string)
    requires EndsWith(s, t) && c !in t
    ensures EndsWith(LastSegment(s, c), t)
  {
    LastSegmentIsRSplitTail(s, c);
    var li := LastIndexOf(s, c);
    if li.Some? {
      var i := li.value;
      assert s[i + 1..][|s[i + 1..]| - |t|..] == s[|s| - |t|..];
    }
  }

  /** Python's `str.isspace()` for one character. */
  predicate IsSpace(ch: char) {
    ch == ' ' || ('\t' <= ch <= '\r') || ('\U{1c}' <= ch <= '\U{1f}') ||
    ch == '\U{85}' || ch == '\U{a0}' || ch == '\U{1680}' || ('\U{2000}' <= ch <= '\U{200a}') ||
    ch == '\U{2028}' || ch == '\U{2029}' || ch == '\U{202f}' || ch == '\U{205f}' || ch == '\U{3000}'
  }

  /** How many whitespace characters `s` starts with. */
  function LeadingSpaces(s: string): (n: nat)
    ensures n <= |s|
    ensures forall k :: 0 <= k < n ==> IsSpace(s[k])
    ensures n < |s| ==> !IsSpace(s[n])
  {
    if |s| == 0 || !IsSpace(s[0]) then 0 else 1 + LeadingSpaces(s[1..])
  }

  /** How many whitespace characters `s` ends with. */
  function TrailingSpaces(s: string): (n: nat)
    ensures n <= |s|
    ensures forall k :: |s| - n <= k < |s| ==> IsSpace(s[k])
    ensures n < |s| ==> !IsSpace(s[|s| - 1 - n])
  {
    if |s| == 0 || !IsSpace(s[|s| - 1]) then 0 else 1 + TrailingSpaces(s[..|s| - 1])
  }

  /** Python's `s.strip()`: the slice left after removing whitespace at both ends. */
  function Strip(s: string): (r: string)
    ensures |r| > 0 ==> !IsSpace(r[0]) && !IsSpace(r[|r| - 1])
    ensures exists i, j :: 0 <= i <= j <= |s| && r == s[i..j]
  {
    var i := LeadingSpaces(s);
    var t := s[i..];
    var j := |t| - TrailingSpaces(t);
    assert t[..j] == s[i..i + j];
    t[..j]
  }

  /** `strip()` keeps a suffix that contains no whitespace. */
  lemma StripKeepsSuffix(s: string, t: string)
    requires EndsWith(s, t) && |t| > 0
    requires forall k :: 0 <= k < |t| ==> !IsSpace(t[k])
    ensures EndsWith(Strip(s), t)
  {
    var i := LeadingSpaces(s);
    assert s[|s| - |t|] == t[0];
    assert i <= |s| - |t|;
    var u := s[i..];
    assert u[|u| - 1] == t[|t| - 1];
    assert TrailingSpaces(u) == 0;
    assert Strip(s) == u;
    assert u[|u| - |t|..] == s[|s| - |t|..];
  }

  /** Python's `s.replace(c, '')`. */
  function RemoveChar(s: string, c: char): (r: string)
    ensures c !in r
    ensures forall x :: x != c ==> (x in r <==> x in s)
    ensures |r| <= |s|
  {
    if |s| == 0 then ""
    else if s[0] == c then RemoveChar(s[1..], c)
    else
      assert s == [s[0]] + s[1..];
      [s[0]] + RemoveChar(s[1..], c)
  }

  /** Python's `str.lower()` on ASCII letters. */
  function LowerChar(ch: char): char {
    if 'A' <= ch <= 'Z' then (ch as int + 32) as char else ch
  }

  function Lower(s: string): (r: string)
    ensures |r| == |s|
    ensures forall k :: 0 <= k < |s| ==> r[k] == LowerChar(s[k])
  {
    seq(|s|, k requires 0 <= k < |s| => LowerChar(s[k]))
  }
}
