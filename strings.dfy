/**
 * The JavaScript string built-ins that script.js relies on: `slice`, `indexOf`,
 * `includes`, `startsWith`, `endsWith`, `split` with a string separator and `trim`.
 * A `string` here is a sequence of Unicode scalar values; JavaScript counts a
 * character outside the Basic Multilingual Plane as two code units, the model as one.
 */
module Strings {
  import opened Wrappers

  /** The characters a `.` in a regular expression does not match and a multiline `$` stops at. */
  predicate IsLineTerminator(c: char) {
    c == '\n' || c == '\r' || c == '\U{2028}' || c == '\U{2029}'
  }

  /** White space and line terminators: what `trim` removes and what `Number()` skips. */
  predicate IsSpace(c: char) {
    || IsLineTerminator(c)
    || c == '\t' || c == '\U{000B}' || c == '\U{000C}' || c == ' '
    || c == '\U{00A0}' || c == '\U{1680}' || ('\U{2000}' <= c <= '\U{200A}')
    || c == '\U{202F}' || c == '\U{205F}' || c == '\U{3000}' || c == '\U{FEFF}'
  }

  predicate AllSpace(s: string) {
    forall k :: 0 <= k < |s| ==> IsSpace(s[k])
  }

  /** Neither the first nor the last character is white space. */
  predicate Trimmed(s: string) {
    s == [] || (!IsSpace(s[0]) && !IsSpace(s[|s| - 1]))
  }

  predicate StartsWith(s: string, c: char) {
    |s| > 0 && s[0] == c
  }

  predicate EndsWith(s: string, c: char) {
    |s| > 0 && s[|s| - 1] == c
  }

  /** How `slice` reads an index: a negative one counts from the end; both are clamped to [0, n]. */
  function ClampIndex(i: int, n: nat): (r: nat)
    ensures r <= n
  {
    if i < 0 then (if n + i < 0 then 0 else n + i) else if i > n then n else i
  }

  /** `s.slice(from, to)`: empty whenever the clamped start is not before the clamped end. */
  function Slice(s: string, from: int, to: int): (r: string)
    ensures |r| <= |s|
  {
    var a := ClampIndex(from, |s|);
    var b := ClampIndex(to, |s|);
    if a < b then s[a..b] else ""
  }

  /** `s.indexOf(c)` for a character known to occur. */
  function FirstIndex(s: string, c: char): (i: nat)
    requires c in s
    ensures i < |s| && s[i] == c && c !in s[..i]
  {
    if s[0] == c then 0
    else
      var j := FirstIndex(s[1..], c);
      assert s[..j + 1] == [s[0]] + s[1..][..j];
      1 + j
  }

  predicate OccursAt(s: string, sep: string, i: nat) {
    i + |sep| <= |s| && s[i..i + |sep|] == sep
  }

  /** `sep` occurs nowhere in `s`. */
  ghost predicate Free(s: string, sep: string) {
    forall i: nat :: !OccursAt(s, sep, i)
  }

  function IndexFrom(s: string, sep: string, from: nat): (r: Option<nat>)
    ensures r.Some? ==> from <= r.value && OccursAt(s, sep, r.value)
    ensures forall i: nat :: from <= i && (r.None? || i < r.value) ==> !OccursAt(s, sep, i)
    decreases |s| + 1 - from
  {
    if from + |sep| > |s| then None
    else if OccursAt(s, sep, from) then Some(from)
    else IndexFrom(s, sep, from + 1)
  }

  /** `s.indexOf(sep)`: the first position where `sep` occurs, or None for -1. */
  function IndexOf(s: string, sep: string): (r: Option<nat>)
    ensures r.None? <==> Free(s, sep)
    ensures r.Some? ==> OccursAt(s, sep, r.value)
    ensures r.Some? ==> forall i: nat :: i < r.value ==> !OccursAt(s, sep, i)
  {
    IndexFrom(s, sep, 0)
  }

  /** The parts joined back with `sep` between consecutive ones (`parts.join(sep)`). */
  function Join(parts: seq<string>, sep: string): string {
    if |parts| == 0 then ""
    else if |parts| == 1 then parts[0]
    else parts[0] + sep + Join(parts[1..], sep)
  }

  lemma JoinCons(p: string, rest: seq<string>, sep: string)
    requires |rest| >= 1
    ensures Join([p] + rest, sep) == p + sep + Join(rest, sep)
  {
    assert ([p] + rest)[1..] == rest;
  }

  lemma {:induction false} JoinSnoc(parts: seq<string>, last: string, sep: string)
    requires |parts| >= 1
    ensures Join(parts + [last], sep) == Join(parts, sep) + sep + last
    decreases |parts|
  {
    if |parts| == 1 {
      assert parts + [last] == [parts[0]] + [last];
      JoinCons(parts[0], [last], sep);
    } else {
      assert parts + [last] == [parts[0]] + (parts[1..] + [last]);
      JoinCons(parts[0], parts[1..] + [last], sep);
      JoinSnoc(parts[1..], last, sep);
      assert parts == [parts[0]] + parts[1..];
      JoinCons(parts[0], parts[1..], sep);
    }
  }

  /** The text before the first occurrence of `sep` holds no occurrence of it. */
  lemma PrefixBeforeFirstIsFree(s: string, sep: string, i: nat)
    requires i <= |s|
    requires forall j: nat :: j < i ==> !OccursAt(s, sep, j)
    requires sep != ""
    ensures Free(s[..i], sep)
  {
    forall j: nat | OccursAt(s[..i], sep, j)
      ensures false
    {
      assert s[..i][j..j + |sep|] == s[j..j + |sep|];
      assert OccursAt(s, sep, j);
    }
  }

  /**
   * `s.split(sep)` for a non-empty string separator: the pieces between the
   * non-overlapping occurrences of `sep`, found left to right.
   */
  function Split(s: string, sep: string): (parts: seq<string>)
    requires sep != ""
    ensures |parts| >= 1
    ensures Join(parts, sep) == s
    ensures forall k :: 0 <= k < |parts| ==> Free(parts[k], sep)
    decreases |s|
  {
    match IndexOf(s, sep)
    case None => [s]
    case Some(i) =>
      PrefixBeforeFirstIsFree(s, sep, i);
      var rest := Split(s[i + |sep|..], sep);
      JoinCons(s[..i], rest, sep);
      assert s == s[..i] + s[i..i + |sep|] + s[i + |sep|..];
      [s[..i]] + rest
  }

  /** The number of non-overlapping occurrences of `sep`, counted left to right. */
  function CountOccurrences(s: string, sep: string): (n: nat)
    requires sep != ""
    ensures n == 0 <==> Free(s, sep)
    decreases |s|
  {
    match IndexOf(s, sep)
    case None => 0
    case Some(i) => 1 + CountOccurrences(s[i + |sep|..], sep)
  }

  /** Splitting yields one more piece than there are separators. */
  lemma {:induction false} SplitCount(s: string, sep: string)
    requires sep != ""
    ensures |Split(s, sep)| == CountOccurrences(s, sep) + 1
    decreases |s|
  {
    match IndexOf(s, sep)
    case None =>
    case Some(i) => SplitCount(s[i + |sep|..], sep);
  }

  lemma CharFree(p: string, c: char)
    requires c !in p
    ensures Free(p, [c])
  {
    forall j: nat
      ensures !OccursAt(p, [c], j)
    {
      if j < |p| {
        assert p[j..j + 1] == [p[j]];
      }
    }
  }

  lemma FreeChar(p: string, c: char)
    requires Free(p, [c])
    ensures c !in p
  {
    if c in p {
      var j := FirstIndex(p, c);
      assert p[j..j + 1] == [c];
      assert OccursAt(p, [c], j);
    }
  }

  /** For a one-character separator, splitting undoes joining. */
  lemma {:induction false} SplitJoinChar(parts: seq<string>, c: char)
    requires |parts| >= 1
    requires forall k :: 0 <= k < |parts| ==> c !in parts[k]
    ensures Split(Join(parts, [c]), [c]) == parts
    decreases |parts|
  {
    if |parts| == 1 {
      CharFree(parts[0], c);
    } else {
      var p0, rest := parts[0], parts[1..];
      var s := Join(parts, [c]);
      assert parts == [p0] + rest;
      JoinCons(p0, rest, [c]);
      assert s == p0 + [c] + Join(rest, [c]);
      assert s[|p0|..|p0| + 1] == [c];
      assert OccursAt(s, [c], |p0|);
      forall j: nat | j < |p0|
        ensures !OccursAt(s, [c], j)
      {
        assert s[j..j + 1] == [p0[j]];
      }
      var i := IndexOf(s, [c]).value;
      assert i == |p0|;
      assert s[..i] == p0;
      assert s[i + 1..] == Join(rest, [c]);
      SplitJoinChar(rest, c);
    }
  }

  /** Appending a separator and a piece without the separator adds exactly one piece. */
  lemma SplitAppendChar(a: string, b: string, c: char)
    requires c !in b
    ensures Split(a + [c] + b, [c]) == Split(a, [c]) + [b]
  {
    var parts := Split(a, [c]);
    forall k | 0 <= k < |parts + [b]|
      ensures c !in (parts + [b])[k]
    {
      if k < |parts| {
        FreeChar(parts[k], c);
      }
    }
    JoinSnoc(parts, b, [c]);
    SplitJoinChar(parts + [b], c);
  }

  /** The first index at or after `i` whose character is not white space, or `|s|`. */
  function SkipSpace(s: string, i: nat): (j: nat)
    requires i <= |s|
    ensures i <= j <= |s|
    ensures forall k :: i <= k < j ==> IsSpace(s[k])
    ensures j < |s| ==> !IsSpace(s[j])
    decreases |s| - i
  {
    if i < |s| && IsSpace(s[i]) then SkipSpace(s, i + 1) else i
  }

  /** Going down from `j` to no lower than `lo`: the end of the text once trailing white space is dropped. */
  function SkipSpaceBack(s: string, lo: nat, j: nat): (i: nat)
    requires lo <= j <= |s|
    ensures lo <= i <= j
    ensures forall k :: i <= k < j ==> IsSpace(s[k])
    ensures lo < i ==> !IsSpace(s[i - 1])
    decreases j
  {
    if lo < j && IsSpace(s[j - 1]) then SkipSpaceBack(s, lo, j - 1) else j
  }

  /** Where the trimmed text starts. */
  function TrimFrom(s: string): nat
    ensures TrimFrom(s) <= |s|
  {
    SkipSpace(s, 0)
  }

  /** Where the trimmed text ends. */
  function TrimTo(s: string): nat
    ensures TrimFrom(s) <= TrimTo(s) <= |s|
  {
    SkipSpaceBack(s, TrimFrom(s), |s|)
  }

  /** `s.trim()`: the text with leading and trailing white space removed. */
  function Trim(s: string): (r: string)
    ensures |r| <= |s|
    ensures Trimmed(r)
    ensures r == [] <==> AllSpace(s)
    ensures exists i, j :: 0 <= i <= j <= |s| && AllSpace(s[..i]) && r == s[i..j] && AllSpace(s[j..])
  {
    var i, j := TrimFrom(s), TrimTo(s);
    assert i == j ==> AllSpace(s) by {
      if i == j {
        assert forall k :: 0 <= k < |s| ==> (k < i || i <= k < j) ==> IsSpace(s[k]);
      }
    }
    assert AllSpace(s[..i]) && AllSpace(s[j..]);
    s[i..j]
  }

  lemma AllSpaceAppend(a: string, b: string)
    requires AllSpace(a) && AllSpace(b)
    ensures AllSpace(a + b)
  {
    forall k | 0 <= k < |a + b|
      ensures IsSpace((a + b)[k])
    {
      if k < |a| {
        assert (a + b)[k] == a[k];
      } else {
        assert (a + b)[k] == b[k - |a|];
      }
    }
  }

  /** Dropping past the front piece of a concatenation drops into the back piece. */
  lemma DropAppend(a: string, b: string, j: nat)
    requires j <= |b|
    ensures (a + b)[|a| + j..] == b[j..]
  {
  }

  /** Dropping within the front piece of a concatenation keeps the back piece whole. */
  lemma DropBeforeAppend(a: string, b: string, i: nat)
    requires i <= |a|
    ensures (a + b)[i..] == a[i..] + b
  {
  }

  /** A prefix of a text is a prefix of anything that extends the text. */
  lemma PrefixOfAppend(a: string, b: string, c: string)
    requires a <= b
    ensures a <= b + c
  {
    assert (b + c)[..|a|] == b[..|a|];
  }

  /** `slice(n, -m)` of a text framed by pieces of length n and m gives the middle. */
  lemma SliceMiddle(a: string, p: string, b: string)
    requires b != []
    ensures Slice(a + p + b, |a|, -|b|) == p
  {
    var s := a + p + b;
    assert ClampIndex(-|b|, |s|) == |a| + |p|;
    if p != [] {
      assert s[|a|..|a| + |p|] == p;
    }
  }

  /** The forward skip stops exactly at the first character that is not white space. */
  lemma SkipSpaceAt(s: string, i: nat, j: nat)
    requires i <= j <= |s|
    requires forall k :: i <= k < j ==> IsSpace(s[k])
    requires j < |s| ==> !IsSpace(s[j])
    ensures SkipSpace(s, i) == j
  {
    var r := SkipSpace(s, i);
    assert j <= r;
  }

  /** The backward skip stops exactly after the last character that is not white space. */
  lemma SkipSpaceBackAt(s: string, lo: nat, i: nat, j: nat)
    requires lo <= i <= j <= |s|
    requires forall k :: i <= k < j ==> IsSpace(s[k])
    requires lo < i ==> !IsSpace(s[i - 1])
    ensures SkipSpaceBack(s, lo, j) == i
  {
    var r := SkipSpaceBack(s, lo, j);
    assert r <= i;
  }

  /** Trimming removes exactly the white space around a trimmed text. */
  lemma TrimPadded(a: string, w: string, b: string)
    requires AllSpace(a) && AllSpace(b) && Trimmed(w)
    ensures Trim(a + w + b) == w
  {
    var s := a + w + b;
    if w == [] {
      assert s == a + b;
      AllSpaceAppend(a, b);
    } else {
      assert forall k :: 0 <= k < |a| ==> s[k] == a[k];
      assert s[|a|] == w[0];
      SkipSpaceAt(s, 0, |a|);
      assert forall k :: |a| + |w| <= k < |s| ==> s[k] == b[k - |a| - |w|];
      assert s[|a| + |w| - 1] == w[|w| - 1];
      SkipSpaceBackAt(s, |a|, |a| + |w|, |s|);
      assert s[|a|..|a| + |w|] == w;
    }
  }

  /** A text with no white space at either end is its own trim. */
  lemma TrimmedIsFixed(s: string)
    requires Trimmed(s)
    ensures Trim(s) == s
  {
    assert [] + s + [] == s;
    TrimPadded([], s, []);
  }
}
