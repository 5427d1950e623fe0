/**
 * The conversion steps of `processFile`: extract the steps, then the title,
 * then convert; the first failure ends the run with nothing produced.
 */
module Pipeline {
  import opened Wrappers
  import opened Strings
  import opened TokenParser
  import opened SectionExtractor
  import opened SchemaMapper
  import opened JsValue

  /** Why a conversion produced no profile. */
  datatype Failure = NoShotData | NoTitle | EmptyTitle

  /** The message the page shows for a failure; an empty title ends the run without one. */
  function Message(failure: Failure): Option<string> {
    match failure
    case NoShotData => Some("No advanced_shot section found.")
    case NoTitle => Some("No title found")
    case EmptyTitle => None
  }

  /** `processFile(data)` up to the profile it would download. */
  function ProcessFile(data: string): (r: Result<Profile, Failure>)
    ensures r == Err(NoShotData) <==> ExtractAdvancedShot(data).None?
    ensures r == Err(NoTitle) <==> ExtractAdvancedShot(data).Some? && Free(data, TITLE_MARKER)
    ensures r == Err(EmptyTitle) <==> ExtractAdvancedShot(data).Some? && ExtractTitle(data) == Some("")
    ensures r.Ok? ==>
      && ExtractAdvancedShot(data).Some? && ExtractTitle(data).Some?
      && r.value == ConvertToGaggiuinoSchema(ExtractTitle(data).value, ExtractAdvancedShot(data).value)
    ensures r.Ok? ==>
      && r.value.id == None && r.value.globalStopConditions == GlobalStopConditions(0, 40, 0)
      && r.value.waterTemperature == 93 && r.value.recipe == []
    ensures r.Ok? ==>
      && r.value.name != "" && Trimmed(r.value.name)
      && r.value.name == ExtractTitle(data).value
      && |r.value.phases| == CountOccurrences(ShotPayload(data).value, STEP_SEPARATOR) + 1
      && forall k :: 0 <= k < |r.value.phases| ==>
           r.value.phases[k] == PhaseOf(Parse(StepFragments(data).value[k]))
  {
    match ExtractAdvancedShot(data)
    case None => Err(NoShotData)
    case Some(steps) =>
      match ExtractTitle(data)
      case None => Err(NoTitle)
      case Some(title) =>
        if title == "" then Err(EmptyTitle)
        else Ok(ConvertToGaggiuinoSchema(title, steps))
  }

  /** The title line of a profile whose title is brace-quoted. */
  function TitleLine(w: string): string {
    TITLE_MARKER + " {" + w + "}"
  }

  /** The shot line around the steps text. */
  function ShotLine(payload: string): string {
    SHOT_MARKER + " {{" + payload + "}}"
  }

  lemma DocumentSteps(a: string, payload: string)
    requires payload != "" && NoLineTerminator(payload)
    requires Free(a, SHOT_MARKER) && |a| > 0 && IsLineTerminator(a[|a| - 1])
    ensures ExtractAdvancedShot(a + ShotLine(payload)) == Some(ParseEach(Split(payload, STEP_SEPARATOR)))
  {
    SkipLines(a, ShotLine(payload), SHOT_MARKER);
    ShotRoundTrip(payload, "");
    assert ShotLine(payload) + "" == ShotLine(payload);
  }

  lemma DocumentTitle(w: string, b: string)
    requires Trimmed(w) && NoLineTerminator(w)
    ensures ExtractTitle(TitleLine(w) + "\n" + b) == Some(w)
  {
    var head := TITLE_MARKER + " {";
    assert NoLineTerminator(head);
    NoLineTerminatorAppend(head, w);
    NoLineTerminatorAppend(head + w, "}");
    PrefixOfAppend(TITLE_MARKER, TITLE_MARKER, " {");
    PrefixOfAppend(TITLE_MARKER, head, w);
    PrefixOfAppend(TITLE_MARKER, head + w, "}");
    MatchAtStart(TITLE_MARKER, TitleLine(w), "\n");
    var a := TitleLine(w) + "\n";
    assert OccursAt(a, TITLE_MARKER, 0) by {
      assert a[0..|TITLE_MARKER|] == TitleLine(w)[..|TITLE_MARKER|];
    }
    FirstLineWins(a, b, TITLE_MARKER);
    QuotedTitleLine(w);
    assert MatchLine(a + b, TITLE_MARKER) == Some(TitleLine(w));
  }

  /**
   * A document made of a brace-quoted title line and a shot line converts to
   * the profile named by that title, with one phase per step string.
   */
  lemma WellFormedDocument(w: string, payload: string)
    requires w != "" && Trimmed(w) && NoLineTerminator(w)
    requires payload != "" && NoLineTerminator(payload)
    requires Free(TitleLine(w) + "\n", SHOT_MARKER)
    ensures ProcessFile(TitleLine(w) + "\n" + ShotLine(payload)) ==
      Ok(ConvertToGaggiuinoSchema(w, ParseEach(Split(payload, STEP_SEPARATOR))))
  {
    DocumentSteps(TitleLine(w) + "\n", payload);
    DocumentTitle(w, ShotLine(payload));
  }

  /**
   * One step of a pressure profile as key/value pairs; `PairsText` of them is
   * `pump {pressure} pressure {9} flow {2} transition {fast} seconds {25} exit_if {true} exit_pressure_over {10}`.
   */
  const EXAMPLE_PAIRS := [
    ("pump", "pressure"), ("pressure", "9"), ("flow", "2"), ("transition", "fast"),
    ("seconds", "25"), ("exit_if", "true"), ("exit_pressure_over", "10")]

  /** Lower-case letters, digits and `_`: the words the example step is made of. */
  predicate IsWord(s: string) {
    s != [] && forall k :: 0 <= k < |s| ==> ('a' <= s[k] <= 'z') || ('0' <= s[k] <= '9') || s[k] == '_'
  }

  lemma WordPair(k: string, d: string)
    requires IsWord(k) && IsWord(d) && |k| != |PROTO_KEY|
    ensures IsBracedPair((k, d))
  {
  }

  /** The seven pairs of the example step are each a plain key and a braced word. */
  lemma ExampleWords()
    ensures IsBracedPair(("pump", "pressure")) && IsBracedPair(("pressure", "9"))
    ensures IsBracedPair(("flow", "2")) && IsBracedPair(("transition", "fast"))
    ensures IsBracedPair(("seconds", "25")) && IsBracedPair(("exit_if", "true"))
    ensures IsBracedPair(("exit_pressure_over", "10"))
  {
    PumpWords();
    ControlWords();
    TimeWords();
    ExitWords();
  }

  lemma PumpWords()
    ensures IsBracedPair(("pump", "pressure")) && IsBracedPair(("pressure", "9"))
  {
    WordPair("pump", "pressure");
    WordPair("pressure", "9");
  }

  lemma ControlWords()
    ensures IsBracedPair(("flow", "2")) && IsBracedPair(("transition", "fast"))
  {
    WordPair("flow", "2");
    WordPair("transition", "fast");
  }

  lemma TimeWords()
    ensures IsBracedPair(("seconds", "25")) && IsBracedPair(("exit_if", "true"))
  {
    WordPair("seconds", "25");
    WordPair("exit_if", "true");
  }

  lemma ExitWords()
    ensures IsBracedPair(("exit_pressure_over", "10"))
  {
    WordPair("exit_pressure_over", "10");
  }

  lemma ExamplePairsBraced()
    ensures AllBraced(EXAMPLE_PAIRS)
  {
    ExampleWords();
    var p1 := [("pump", "pressure")];
    assert AllBraced(p1);
    BracedSnoc(p1, ("pressure", "9"));
    var p2 := p1 + [("pressure", "9")];
    BracedSnoc(p2, ("flow", "2"));
    var p3 := p2 + [("flow", "2")];
    BracedSnoc(p3, ("transition", "fast"));
    var p4 := p3 + [("transition", "fast")];
    BracedSnoc(p4, ("seconds", "25"));
    var p5 := p4 + [("seconds", "25")];
    BracedSnoc(p5, ("exit_if", "true"));
    var p6 := p5 + [("exit_if", "true")];
    BracedSnoc(p6, ("exit_pressure_over", "10"));
    assert p6 + [("exit_pressure_over", "10")] == EXAMPLE_PAIRS;
  }

  lemma ExamplePairsRecord()
    ensures IsExampleStep(PairsRecord(EXAMPLE_PAIRS))
  {
    var p1 := [("pump", "pressure")];
    PairsRecordSnoc(p1, ("pressure", "9"));
    var p2 := p1 + [("pressure", "9")];
    PairsRecordSnoc(p2, ("flow", "2"));
    var p3 := p2 + [("flow", "2")];
    PairsRecordSnoc(p3, ("transition", "fast"));
    var p4 := p3 + [("transition", "fast")];
    PairsRecordSnoc(p4, ("seconds", "25"));
    var p5 := p4 + [("seconds", "25")];
    PairsRecordSnoc(p5, ("exit_if", "true"));
    var p6 := p5 + [("exit_if", "true")];
    PairsRecordSnoc(p6, ("exit_pressure_over", "10"));
    assert p6 + [("exit_pressure_over", "10")] == EXAMPLE_PAIRS;
  }

  /** The example step parses into the record the schema mapping is shown on. */
  lemma ExampleStepParsed()
    ensures IsExampleStep(Parse(PairsText(EXAMPLE_PAIRS)))
  {
    ExamplePairsBraced();
    BracedPairs(EXAMPLE_PAIRS);
    ExamplePairsRecord();
  }
}
