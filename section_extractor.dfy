/**
 * `extractAdvancedShot`, `extractTitle` and `getTitle`: locating the shot-steps
 * line and the title line in the profile text and cutting them into pieces.
 * Each `data.match(/marker.*$/m)` is the text from the first occurrence of the
 * marker to the next line terminator or the end of the text.
 */
module SectionExtractor {
  import opened Wrappers
  import opened Strings
  import opened JsValue
  import opened TokenParser

  const SHOT_MARKER := "advanced_shot"
  const TITLE_MARKER := "profile_title"
  /** `advanced_shot {{` in front of the steps. */
  const SHOT_PREFIX_LENGTH := 16
  /** `}}` after the steps. */
  const SHOT_SUFFIX_LENGTH := 2
  /** `profile_title ` in front of the title. */
  const TITLE_PREFIX_LENGTH := 14
  /** What lies between two consecutive steps. */
  const STEP_SEPARATOR := "} {"

  predicate NoLineTerminator(s: string) {
    forall k :: 0 <= k < |s| ==> !IsLineTerminator(s[k])
  }

  lemma NoLineTerminatorAppend(a: string, b: string)
    requires NoLineTerminator(a) && NoLineTerminator(b)
    ensures NoLineTerminator(a + b)
  {
    forall k | 0 <= k < |a + b|
      ensures !IsLineTerminator((a + b)[k])
    {
      if k < |a| {
        assert (a + b)[k] == a[k];
      } else {
        assert (a + b)[k] == b[k - |a|];
      }
    }
  }

  /** The text up to the first line terminator (`.*$` in a multiline pattern). */
  function LineFrom(s: string): (line: string)
    ensures line <= s && NoLineTerminator(line)
    ensures |line| < |s| ==> IsLineTerminator(s[|line|])
  {
    if s == [] || IsLineTerminator(s[0]) then [] else [s[0]] + LineFrom(s[1..])
  }

  lemma {:induction false} LineFromKeepsPrefix(s: string, p: string)
    requires p <= s && NoLineTerminator(p)
    ensures p <= LineFrom(s)
    decreases |p|
  {
    if p != [] {
      assert p[1..] <= s[1..];
      LineFromKeepsPrefix(s[1..], p[1..]);
    }
  }

  /** A line followed by a line terminator, or by nothing, is read back whole. */
  lemma {:induction false} LineFromExact(line: string, rest: string)
    requires NoLineTerminator(line)
    requires rest == [] || IsLineTerminator(rest[0])
    ensures LineFrom(line + rest) == line
    decreases |line|
  {
    if line == [] {
      assert line + rest == rest;
    } else {
      assert (line + rest)[1..] == line[1..] + rest;
      LineFromExact(line[1..], rest);
    }
  }

  /** A line ended by a terminator shields what follows it from the line search. */
  lemma {:induction false} LineFromStops(x: string, rest: string)
    requires |x| > 0 && IsLineTerminator(x[|x| - 1])
    ensures LineFrom(x + rest) == LineFrom(x)
    decreases |x|
  {
    if !IsLineTerminator(x[0]) {
      assert (x + rest)[1..] == x[1..] + rest;
      LineFromStops(x[1..], rest);
    }
  }

  /** `data.match(/marker.*$/m)`, with `null` as None. */
  function MatchLine(data: string, marker: string): (m: Option<string>)
    requires marker != [] && NoLineTerminator(marker)
    ensures m.None? <==> Free(data, marker)
    ensures m.Some? ==> marker <= m.value && NoLineTerminator(m.value)
    ensures m.Some? ==> exists i :: IndexOf(data, marker) == Some(i) && i <= |data| && m.value == LineFrom(data[i..])
  {
    match IndexOf(data, marker)
    case None => None
    case Some(i) =>
      assert marker <= data[i..] by {
        assert data[i..][..|marker|] == data[i..i + |marker|];
      }
      LineFromKeepsPrefix(data[i..], marker);
      Some(LineFrom(data[i..]))
  }

  lemma MatchLineFound(data: string, marker: string, i: nat)
    requires marker != [] && NoLineTerminator(marker)
    requires IndexOf(data, marker) == Some(i)
    ensures i <= |data| && MatchLine(data, marker) == Some(LineFrom(data[i..]))
  {
  }

  lemma MatchLineMissing(data: string, marker: string)
    requires marker != [] && NoLineTerminator(marker)
    requires IndexOf(data, marker).None?
    ensures MatchLine(data, marker).None?
  {
  }

  /** A marker cannot start in whole lines that lack it, even when it would run on past them. */
  lemma NoMarkerInLinesBefore(a: string, b: string, marker: string)
    requires NoLineTerminator(marker)
    requires Free(a, marker) && |a| > 0 && IsLineTerminator(a[|a| - 1])
    ensures forall i: nat :: i < |a| ==> !OccursAt(a + b, marker, i)
  {
    var s := a + b;
    forall i: nat | i < |a|
      ensures !OccursAt(s, marker, i)
    {
      if i + |marker| <= |a| {
        assert s[i..i + |marker|] == a[i..i + |marker|];
        assert !OccursAt(a, marker, i);
      } else if i + |marker| <= |s| {
        assert s[i..i + |marker|][|a| - 1 - i] == a[|a| - 1];
      }
    }
  }

  /** Past the text in front, occurrences are those of the text behind, shifted. */
  lemma OccursShifted(a: string, b: string, marker: string)
    ensures forall j: nat :: OccursAt(a + b, marker, |a| + j) == OccursAt(b, marker, j)
  {
    var s := a + b;
    forall j: nat
      ensures OccursAt(s, marker, |a| + j) == OccursAt(b, marker, j)
    {
      if |a| + j + |marker| <= |s| {
        assert s[|a| + j..|a| + j + |marker|] == b[j..j + |marker|];
      }
    }
  }

  /** No occurrence in `a + b` before position `|a| + n` when `a` is free of the marker and `b` has none before `n`. */
  lemma NoneBeforeShifted(a: string, b: string, marker: string, n: nat)
    requires NoLineTerminator(marker)
    requires Free(a, marker) && |a| > 0 && IsLineTerminator(a[|a| - 1])
    requires forall j: nat :: j < n ==> !OccursAt(b, marker, j)
    ensures forall i: nat :: i < |a| + n ==> !OccursAt(a + b, marker, i)
  {
    NoMarkerInLinesBefore(a, b, marker);
    OccursShifted(a, b, marker);
    forall i: nat | i < |a| + n
      ensures !OccursAt(a + b, marker, i)
    {
      if i >= |a| {
        assert !OccursAt(b, marker, i - |a|);
      }
    }
  }

  /** The first occurrence in `a + b` when `a` holds none: the one in `b`, shifted. */
  lemma IndexOfShifted(a: string, b: string, marker: string)
    requires NoLineTerminator(marker)
    requires Free(a, marker) && |a| > 0 && IsLineTerminator(a[|a| - 1])
    ensures IndexOf(b, marker).None? ==> IndexOf(a + b, marker).None?
    ensures IndexOf(b, marker).Some? ==> IndexOf(a + b, marker) == Some(|a| + IndexOf(b, marker).value)
  {
    match IndexOf(b, marker)
    case None => FreeShifted(a, b, marker);
    case Some(j) => FirstShifted(a, b, marker, j);
  }

  lemma FreeShifted(a: string, b: string, marker: string)
    requires NoLineTerminator(marker)
    requires Free(a, marker) && |a| > 0 && IsLineTerminator(a[|a| - 1])
    requires Free(b, marker)
    ensures Free(a + b, marker)
  {
    NoneBeforeShifted(a, b, marker, |b| + 1);
    forall i: nat
      ensures !OccursAt(a + b, marker, i)
    {
      if i < |a| + |b| + 1 {
        assert !OccursAt(a + b, marker, i);
      }
    }
  }

  lemma FirstShifted(a: string, b: string, marker: string, j: nat)
    requires NoLineTerminator(marker)
    requires Free(a, marker) && |a| > 0 && IsLineTerminator(a[|a| - 1])
    requires IndexOf(b, marker) == Some(j)
    ensures IndexOf(a + b, marker) == Some(|a| + j)
  {
    NoneBeforeShifted(a, b, marker, j);
    OccursShifted(a, b, marker);
    assert OccursAt(a + b, marker, |a| + j);
  }

  /** When the marker is absent from the lines before, the match is the one in the text after them. */
  lemma SkipLines(a: string, b: string, marker: string)
    requires marker != [] && NoLineTerminator(marker)
    requires Free(a, marker) && |a| > 0 && IsLineTerminator(a[|a| - 1])
    ensures MatchLine(a + b, marker) == MatchLine(b, marker)
  {
    IndexOfShifted(a, b, marker);
    match IndexOf(b, marker)
    case None =>
      MatchLineMissing(a + b, marker);
      MatchLineMissing(b, marker);
    case Some(j) =>
      MatchLineFound(a + b, marker, |a| + j);
      MatchLineFound(b, marker, j);
      DropAppend(a, b, j);
  }

  /** Text appended behind the first occurrence does not move it. */
  lemma IndexOfKept(a: string, b: string, marker: string)
    requires !Free(a, marker)
    ensures IndexOf(a + b, marker) == IndexOf(a, marker)
  {
    var s := a + b;
    var i := IndexOf(a, marker).value;
    forall k: nat | k <= i
      ensures OccursAt(s, marker, k) == OccursAt(a, marker, k)
    {
      if k + |marker| <= |a| {
        assert s[k..k + |marker|] == a[k..k + |marker|];
      }
    }
  }

  /** A marker on one of the lines before is matched there, whatever follows. */
  lemma FirstLineWins(a: string, b: string, marker: string)
    requires marker != [] && NoLineTerminator(marker)
    requires !Free(a, marker) && |a| > 0 && IsLineTerminator(a[|a| - 1])
    ensures MatchLine(a + b, marker) == MatchLine(a, marker)
  {
    IndexOfKept(a, b, marker);
    var i := IndexOf(a, marker).value;
    MatchLineFound(a + b, marker, i);
    MatchLineFound(a, marker, i);
    DropBeforeAppend(a, b, i);
    assert a[i..][|a| - i - 1] == a[|a| - 1];
    LineFromStops(a[i..], b);
  }

  /** `match && match[0].slice(16, -2)`: the steps text, when there is a shot line at all. */
  function ShotPayload(data: string): (payload: Option<string>)
    ensures payload.None? <==> Free(data, SHOT_MARKER)
    ensures payload.Some? ==>
      var line := MatchLine(data, SHOT_MARKER).value;
      (payload.value == "" <==> |line| <= SHOT_PREFIX_LENGTH + SHOT_SUFFIX_LENGTH)
  {
    match MatchLine(data, SHOT_MARKER)
    case None => None
    case Some(line) => Some(Slice(line, SHOT_PREFIX_LENGTH, -SHOT_SUFFIX_LENGTH))
  }

  /** The step strings: the steps text split on `} {`; None when that text is missing or empty. */
  function StepFragments(data: string): (fragments: Option<seq<string>>)
    ensures fragments.None? <==> ShotPayload(data).None? || ShotPayload(data).value == ""
    ensures fragments.Some? ==>
      var payload := ShotPayload(data).value;
      && Join(fragments.value, STEP_SEPARATOR) == payload
      && |fragments.value| == CountOccurrences(payload, STEP_SEPARATOR) + 1
      && forall k :: 0 <= k < |fragments.value| ==> Free(fragments.value[k], STEP_SEPARATOR)
  {
    var payload := ShotPayload(data);
    if payload.None? || payload.value == "" then None
    else
      SplitCount(payload.value, STEP_SEPARATOR);
      Some(Split(payload.value, STEP_SEPARATOR))
  }

  /** `fragments.map(parseStringToObject)`. */
  function ParseEach(fragments: seq<string>): (records: seq<Record>)
    ensures |records| == |fragments|
    ensures forall k :: 0 <= k < |records| ==> records[k] == Parse(fragments[k])
  {
    if fragments == [] then [] else [Parse(fragments[0])] + ParseEach(fragments[1..])
  }

  /**
   * `extractAdvancedShot(data)`: null when there is no shot line or its steps text
   * is empty; otherwise one record per step string, in order.
   */
  function ExtractAdvancedShot(data: string): (steps: Option<seq<Record>>)
    ensures steps.None? <==>
      (Free(data, SHOT_MARKER) || |MatchLine(data, SHOT_MARKER).value| <= SHOT_PREFIX_LENGTH + SHOT_SUFFIX_LENGTH)
    ensures steps.Some? ==>
      var fragments := StepFragments(data).value;
      && |steps.value| == |fragments|
      && forall k :: 0 <= k < |fragments| ==> steps.value[k] == Parse(fragments[k])
  {
    match StepFragments(data)
    case None => None
    case Some(fragments) => Some(ParseEach(fragments))
  }

  /**
   * `getTitle(line)`: drop the marker and the space after it, trim, strip one
   * enclosing brace pair when both ends are braces, and trim again.
   */
  function GetTitle(line: string): (title: string)
    ensures Trimmed(title)
    ensures |title| <= |line|
  {
    var title := Trim(Slice(line, TITLE_PREFIX_LENGTH, |line|));
    if StartsWith(title, '{') && EndsWith(title, '}') then Trim(Slice(title, 1, -1)) else title
  }

  /** `extractTitle(data)`: null when there is no title line. */
  function ExtractTitle(data: string): (title: Option<string>)
    ensures title.None? <==> Free(data, TITLE_MARKER)
    ensures title.Some? ==> Trimmed(title.value)
  {
    match MatchLine(data, TITLE_MARKER)
    case None => None
    case Some(line) => Some(GetTitle(line))
  }

  /** A title written without braces, with white space around it, is read back. */
  lemma PlainTitleRoundTrip(prefix: string, before: string, w: string, after: string)
    requires |prefix| == TITLE_PREFIX_LENGTH && AllSpace(before) && AllSpace(after)
    requires Trimmed(w) && !(StartsWith(w, '{') && EndsWith(w, '}'))
    ensures GetTitle(prefix + before + w + after) == w
  {
    assert prefix + before + w + after == prefix + (before + w + after);
    SliceAfterPrefix(prefix, before + w + after);
    TrimPadded(before, w, after);
  }

  lemma SliceAfterPrefix(prefix: string, rest: string)
    requires |prefix| == TITLE_PREFIX_LENGTH
    ensures Slice(prefix + rest, TITLE_PREFIX_LENGTH, |prefix + rest|) == rest
  {
    assert (prefix + rest)[|prefix|..] == rest;
  }

  /** What `getTitle` makes of a line whose text after the prefix trims to a brace-quoted text. */
  lemma GetTitleOfQuoted(line: string, quoted: string)
    requires Trim(Slice(line, TITLE_PREFIX_LENGTH, |line|)) == quoted
    requires |quoted| >= 2 && quoted[0] == '{' && quoted[|quoted| - 1] == '}'
    ensures GetTitle(line) == Trim(quoted[1..|quoted| - 1])
  {
  }

  /** A brace-quoted title loses its braces and the white space inside and around them. */
  lemma BracedTitleRoundTrip(prefix: string, a: string, b: string, w: string, c: string, d: string)
    requires |prefix| == TITLE_PREFIX_LENGTH
    requires AllSpace(a) && AllSpace(b) && AllSpace(c) && AllSpace(d) && Trimmed(w)
    ensures GetTitle(prefix + a + "{" + b + w + c + "}" + d) == w
  {
    var inner := b + w + c;
    var quoted := "{" + inner + "}";
    var line := prefix + (a + quoted + d);
    assert prefix + a + "{" + b + w + c + "}" + d == line;
    SliceAfterPrefix(prefix, a + quoted + d);
    assert Trimmed(quoted);
    TrimPadded(a, quoted, d);
    assert quoted[1..|quoted| - 1] == inner;
    GetTitleOfQuoted(line, quoted);
    TrimPadded(b, w, c);
  }

  /** Only one brace layer goes: a doubly quoted title keeps the inner pair. */
  lemma OneBraceLayer(prefix: string, w: string)
    requires |prefix| == TITLE_PREFIX_LENGTH && Trimmed(w)
    ensures GetTitle(prefix + "{{" + w + "}}") == "{" + w + "}"
  {
    var inner := "{" + w + "}";
    assert prefix + "{{" + w + "}}" == prefix + "" + "{" + "" + inner + "" + "}" + "";
    BracedTitleRoundTrip(prefix, "", "", inner, "", "");
  }

  /** A line that starts with the marker, followed by a line break or nothing, is the match. */
  lemma MatchAtStart(marker: string, line: string, rest: string)
    requires marker != [] && NoLineTerminator(marker)
    requires marker <= line && NoLineTerminator(line)
    requires rest == [] || IsLineTerminator(rest[0])
    ensures MatchLine(line + rest, marker) == Some(line)
  {
    var data := line + rest;
    assert data[0..|marker|] == line[..|marker|];
    assert OccursAt(data, marker, 0);
    assert IndexOf(data, marker) == Some(0);
    assert data[0..] == data;
    LineFromExact(line, rest);
  }

  /** The steps text of a shot line starting the text is what lies between `{{` and `}}`. */
  lemma ShotPayloadOf(payload: string, rest: string)
    requires NoLineTerminator(payload)
    requires rest == [] || IsLineTerminator(rest[0])
    ensures ShotPayload(SHOT_MARKER + " {{" + payload + "}}" + rest) == Some(payload)
  {
    var head := SHOT_MARKER + " {{";
    var line := head + payload + "}}";
    assert NoLineTerminator(head) && |head| == SHOT_PREFIX_LENGTH;
    NoLineTerminatorAppend(head, payload);
    NoLineTerminatorAppend(head + payload, "}}");
    PrefixOfAppend(SHOT_MARKER, SHOT_MARKER, " {{");
    PrefixOfAppend(SHOT_MARKER, head, payload);
    PrefixOfAppend(SHOT_MARKER, head + payload, "}}");
    MatchAtStart(SHOT_MARKER, line, rest);
    SliceMiddle(head, payload, "}}");
  }

  /** A line starting the text with the shot marker yields the steps text between `{{` and `}}`. */
  lemma ShotRoundTrip(payload: string, rest: string)
    requires payload != "" && NoLineTerminator(payload)
    requires rest == [] || IsLineTerminator(rest[0])
    ensures var data := SHOT_MARKER + " {{" + payload + "}}" + rest;
      && ShotPayload(data) == Some(payload)
      && StepFragments(data) == Some(Split(payload, STEP_SEPARATOR))
      && ExtractAdvancedShot(data) == Some(ParseEach(Split(payload, STEP_SEPARATOR)))
  {
    ShotPayloadOf(payload, rest);
  }

  /** A title line starting the text, with a brace-quoted title, gives that title. */
  lemma QuotedTitleLine(w: string)
    requires Trimmed(w) && NoLineTerminator(w)
    ensures GetTitle(TITLE_MARKER + " {" + w + "}") == w
    ensures ExtractTitle(TITLE_MARKER + " {" + w + "}") == Some(w)
  {
    var data := TITLE_MARKER + " {" + w + "}";
    assert data == TITLE_MARKER + (" {" + w + "}");
    assert data == "profile_title " + "" + "{" + "" + w + "" + "}" + "";
    assert data == data + "";
    MatchAtStart(TITLE_MARKER, data, "");
    BracedTitleRoundTrip("profile_title ", "", "", w, "", "");
  }

  /** `profile_title {Classic Italian}` gives the title "Classic Italian". */
  lemma ClassicItalianTitle()
    ensures ExtractTitle("profile_title {Classic Italian}") == Some("Classic Italian")
  {
    var w := "Classic Italian";
    assert Trimmed(w);
    assert NoLineTerminator(w);
    assert TITLE_MARKER + " {" + w + "}" == "profile_title {Classic Italian}";
    QuotedTitleLine(w);
  }
}
