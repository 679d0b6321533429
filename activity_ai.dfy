/**
 * The AI service's shaping of a text-generation reply into a
 * `Recommendation`: dig the generated text out of the reply envelope, strip
 * the Markdown code fence around it, read it as JSON, and assemble the
 * analysis text and the three advice lists, falling back to a fixed
 * recommendation when any step fails.
 *
 * Jackson's `readTree` is abstracted as a partial function from text to a
 * JSON tree; the clock is the `now` parameter.
 */
module ActivityAI {
  import opened Optional
  import opened JavaString
  import opened JsonTree
  import opened Dto

  /** The activity a recommendation is about; only its identity is copied. */
  datatype Activity = Activity(id: string, userId: string, activityType: string)

  datatype Recommendation = Recommendation(
    activityId: string,
    userId: string,
    activityType: string,
    recommendation: string,
    improvements: seq<string>,
    suggestions: seq<string>,
    safety: seq<string>,
    createdAt: Timestamp)

  /** `ObjectMapper.readTree`: the tree, or `None` when the text is not JSON. */
  type JsonParser = string -> Option<Json>

  const NoImprovements := "NO SPECIFIC IMPROVEMENTS PROCIDED"
  const NoSuggestions := "NO SPECIFIC suggestion PROCIDED"
  const NoSafety := "follow general safety guidelines"

  const FallbackAnalysis := "unable to generate detailed analysis"
  const FallbackSuggestion := "consult a fitness expert for personalized advice"
  const FallbackSafety := ["Always warm up before exercise and cool down after.",
                           "Stay hydrated during your workout.",
                           "Listen to your body and avoid pushing through pain."]

  // ----- the advice lists -----

  /** Each item rendered in order. */
  function Rendered(items: seq<Json>, render: Json -> string): (r: seq<string>)
    ensures |r| == |items|
    ensures forall i :: 0 <= i < |items| ==> r[i] == render(items[i])
  {
    if items == [] then [] else [render(items[0])] + Rendered(items[1..], render)
  }

  /**
   * What an `extract*` method returns: every item of an array node rendered
   * in order, or the single `fallback` line when that gives nothing (the node
   * is not an array, or an empty one).
   */
  function Lines(node: Json, render: Json -> string, fallback: string): seq<string> {
    var collected := if node.Array? then Rendered(node.items, render) else [];
    if collected == [] then [fallback] else collected
  }

  /**
   * The shape of every extracted list: never empty; for a non-empty array,
   * one line per item, the item's rendering at the same position; otherwise
   * exactly the fallback line.
   */
  lemma LinesShape(node: Json, render: Json -> string, fallback: string)
    ensures Lines(node, render, fallback) != []
    ensures node.Array? && node.items != [] ==>
              |Lines(node, render, fallback)| == |node.items| &&
              forall i :: 0 <= i < |node.items| ==> Lines(node, render, fallback)[i] == render(node.items[i])
    ensures !(node.Array? && node.items != []) ==> Lines(node, render, fallback) == [fallback]
  {
    if node.Array? && node.items != [] {
      assert Rendered(node.items, render)[0] == render(node.items[0]);
    }
  }

  /**
   * The `forEach` that fills an `ArrayList` with each item's rendering,
   * followed by the `isEmpty()` fallback.
   */
  method CollectLines(node: Json, render: Json -> string, fallback: string) returns (lines: seq<string>)
    ensures lines == Lines(node, render, fallback)
  {
    lines := [];
    if node.Array? {
      var i := 0;
      while i < |node.items|
        invariant 0 <= i <= |node.items|
        invariant |lines| == i
        invariant forall k :: 0 <= k < i ==> lines[k] == render(node.items[k])
      {
        lines := lines + [render(node.items[i])];
        i := i + 1;
      }
      assert lines == Rendered(node.items, render);
    }
    if lines == [] {
      lines := [fallback];
    }
  }

  /** `String.format("%s: %s", a, b)`. */
  function Joined(a: string, b: string): string {
    a + ": " + b
  }

  /** An improvement item: its `area` and its `recommendation` text. */
  function ImprovementLine(item: Json): string {
    Joined(AsText(Path(item, "area")), AsText(Path(item, "recommendation")))
  }

  /** A suggestion item: its `workout` and its `description` text. */
  function SuggestionLine(item: Json): string {
    Joined(AsText(Path(item, "workout")), AsText(Path(item, "description")))
  }

  /** A safety item: its own text. */
  function SafetyLine(item: Json): string {
    AsText(item)
  }

  function Improvements(node: Json): seq<string> { Lines(node, ImprovementLine, NoImprovements) }
  function Suggestions(node: Json): seq<string> { Lines(node, SuggestionLine, NoSuggestions) }
  function SafetyGuidelines(node: Json): seq<string> { Lines(node, SafetyLine, NoSafety) }

  /**
   * `extractImprovements`: "area: recommendation" per item, in order, or the
   * single "no improvements" line.
   */
  method ExtractImprovements(node: Json) returns (lines: seq<string>)
    ensures lines != []
    ensures node.Array? && node.items != [] ==>
              |lines| == |node.items| &&
              forall i :: 0 <= i < |lines| ==> lines[i] == ImprovementLine(node.items[i])
    ensures !(node.Array? && node.items != []) ==> lines == [NoImprovements]
    ensures lines == Improvements(node)
  {
    lines := CollectLines(node, ImprovementLine, NoImprovements);
    LinesShape(node, ImprovementLine, NoImprovements);
  }

  /**
   * `extractSuggestions`: "workout: description" per item, in order, or the
   * single "no suggestion" line.
   */
  method ExtractSuggestions(node: Json) returns (lines: seq<string>)
    ensures lines != []
    ensures node.Array? && node.items != [] ==>
              |lines| == |node.items| &&
              forall i :: 0 <= i < |lines| ==> lines[i] == SuggestionLine(node.items[i])
    ensures !(node.Array? && node.items != []) ==> lines == [NoSuggestions]
    ensures lines == Suggestions(node)
  {
    lines := CollectLines(node, SuggestionLine, NoSuggestions);
    LinesShape(node, SuggestionLine, NoSuggestions);
  }

  /**
   * `extractSafetyGuidelines`: each item's text, in order, or the single
   * "general safety" line.
   */
  method ExtractSafetyGuidelines(node: Json) returns (lines: seq<string>)
    ensures lines != []
    ensures node.Array? && node.items != [] ==>
              |lines| == |node.items| &&
              forall i :: 0 <= i < |lines| ==> lines[i] == AsText(node.items[i])
    ensures !(node.Array? && node.items != []) ==> lines == [NoSafety]
    ensures lines == SafetyGuidelines(node)
  {
    lines := CollectLines(node, SafetyLine, NoSafety);
    LinesShape(node, SafetyLine, NoSafety);
  }

  /** The field `key` is absent from `item`, or `item` is not an object at all. */
  predicate Absent(item: Json, key: string) {
    !item.Object? || key !in item.fields
  }

  /**
   * An item without the expected fields is not an error: each of the four
   * fields, when absent, reads as the empty string on its side of the ": ".
   */
  lemma AbsentFieldsReadEmpty(item: Json)
    ensures Absent(item, "area") ==> ImprovementLine(item) == ": " + AsText(Path(item, "recommendation"))
    ensures Absent(item, "recommendation") ==> ImprovementLine(item) == AsText(Path(item, "area")) + ": "
    ensures Absent(item, "workout") ==> SuggestionLine(item) == ": " + AsText(Path(item, "description"))
    ensures Absent(item, "description") ==> SuggestionLine(item) == AsText(Path(item, "workout")) + ": "
  {
    assert AsText(Path(item, "area")) + ": " + "" == AsText(Path(item, "area")) + ": ";
    assert AsText(Path(item, "workout")) + ": " + "" == AsText(Path(item, "workout")) + ": ";
  }

  // ----- the analysis text -----

  /** The text `StringBuilder` the analysis sections are appended to. */
  class TextBuilder {
    var text: string

    constructor ()
      ensures text == []
    {
      text := [];
    }

    method Append(s: string)
      modifies this
      ensures text == old(text) + s
    {
      text := text + s;
    }
  }

  /** The section `addAnalysisSection` writes for `key`: nothing when the key is missing. */
  function Section(analysis: Json, key: string, prefix: string): string {
    if Path(analysis, key).Missing? then [] else prefix + AsText(Path(analysis, key)) + "\n\n"
  }

  /** `addAnalysisSection`: append the section for `key`, if the key is present. */
  method AddAnalysisSection(builder: TextBuilder, analysis: Json, key: string, prefix: string)
    modifies builder
    ensures builder.text == old(builder.text) + Section(analysis, key, prefix)
  {
    if !Path(analysis, key).Missing? {
      builder.Append(prefix);
      builder.Append(AsText(Path(analysis, key)));
      builder.Append("\n\n");
    }
  }

  /**
   * The analysis part of `processAiResponse`: a fresh builder receives the
   * four sections in order, and the text is trimmed.
   */
  method BuildAnalysis(analysisNode: Json) returns (text: string)
    ensures text == AnalysisText(analysisNode)
  {
    var fullAnalysis := new TextBuilder();
    AddAnalysisSection(fullAnalysis, analysisNode, "overall", "Overall: ");
    assert fullAnalysis.text == Section(analysisNode, "overall", "Overall: ");
    AddAnalysisSection(fullAnalysis, analysisNode, "pace", "Pace: ");
    AddAnalysisSection(fullAnalysis, analysisNode, "heartRate", "Heart Rate: ");
    AddAnalysisSection(fullAnalysis, analysisNode, "caloriesBurned", "Calories: ");
    text := Trim(fullAnalysis.text);
  }

  /** The four sections in their fixed order, untrimmed. */
  function Sections(analysis: Json): string {
    Section(analysis, "overall", "Overall: ")
    + Section(analysis, "pace", "Pace: ")
    + Section(analysis, "heartRate", "Heart Rate: ")
    + Section(analysis, "caloriesBurned", "Calories: ")
  }

  /** The analysis text of a recommendation: the sections, trimmed. */
  function AnalysisText(analysis: Json): string {
    Trim(Sections(analysis))
  }

  /** A missing (or non-object) analysis contributes an empty text, not an error. */
  lemma NoAnalysisNoText(analysis: Json)
    requires !analysis.Object?
    ensures AnalysisText(analysis) == ""
  {
    assert Sections(analysis) == [];
  }

  /** Text that starts and ends with a visible character. */
  predicate Tight(s: string) {
    s != [] && !Trimmable(s[0]) && !Trimmable(s[|s| - 1])
  }

  /**
   * With all four sections present as strings, the analysis reads them in
   * the order overall, pace, heart rate, calories, each behind its lead and
   * separated by blank lines, with the last separator trimmed away.
   */
  lemma FullAnalysisText(o: Json, p: Json, h: Json, c: Json)
    requires !o.Missing? && !p.Missing? && !h.Missing? && !c.Missing?
    requires Tight(AsText(c))
    ensures var analysis := Object(map["overall" := o, "pace" := p, "heartRate" := h, "caloriesBurned" := c]);
            AnalysisText(analysis) ==
              "Overall: " + AsText(o) + "\n\n" + "Pace: " + AsText(p) + "\n\n"
              + "Heart Rate: " + AsText(h) + "\n\n" + "Calories: " + AsText(c)
  {
    FullSections(o, p, h, c);
    TrimFourSections("Overall: ", AsText(o), "Pace: ", AsText(p), "Heart Rate: ", AsText(h),
                     "Calories: ", AsText(c), "\n\n");
  }

  /**
   * Four sections, each a lead, a text and a trimmable separator, trim to
   * their concatenation without the last separator, when the first lead
   * starts visibly and the last text is tight.
   */
  lemma TrimFourSections(l1: string, o: string, l2: string, p: string, l3: string, h: string,
                         l4: string, c: string, sep: string)
    requires l1 != [] && !Trimmable(l1[0]) && Tight(c) && AllTrimmable(sep)
    ensures Trim((l1 + o + sep) + (l2 + p + sep) + (l3 + h + sep) + (l4 + c + sep))
            == l1 + o + sep + l2 + p + sep + l3 + h + sep + l4 + c
  {
    var tail := o + sep + l2 + p + sep + l3 + h + sep + l4;
    var m := l1 + o + sep + l2 + p + sep + l3 + h + sep + l4 + c;
    assert (l1 + o + sep) + (l2 + p + sep) + (l3 + h + sep) + (l4 + c + sep) == [] + m + sep;
    assert m == (l1 + tail) + c;
    assert (l1 + tail)[0] == l1[0];
    TightJoin(l1 + tail, c);
    TrimExact([], m, sep);
  }

  /** A tight text behind a label that starts visibly is tight. */
  lemma TightJoin(head: string, c: string)
    requires head != [] && !Trimmable(head[0]) && Tight(c)
    ensures Tight(head + c)
  {
    var m := head + c;
    assert m[0] == head[0];
    assert m[|m| - 1] == c[|c| - 1];
  }

  lemma FullSections(o: Json, p: Json, h: Json, c: Json)
    requires !o.Missing? && !p.Missing? && !h.Missing? && !c.Missing?
    ensures var analysis := Object(map["overall" := o, "pace" := p, "heartRate" := h, "caloriesBurned" := c]);
            Sections(analysis) ==
              ("Overall: " + AsText(o) + "\n\n") + ("Pace: " + AsText(p) + "\n\n")
              + ("Heart Rate: " + AsText(h) + "\n\n") + ("Calories: " + AsText(c) + "\n\n")
  {
    var analysis := Object(map["overall" := o, "pace" := p, "heartRate" := h, "caloriesBurned" := c]);
    assert Section(analysis, "overall", "Overall: ") == "Overall: " + AsText(o) + "\n\n";
    assert Section(analysis, "pace", "Pace: ") == "Pace: " + AsText(p) + "\n\n";
    assert Section(analysis, "heartRate", "Heart Rate: ") == "Heart Rate: " + AsText(h) + "\n\n";
    assert Section(analysis, "caloriesBurned", "Calories: ") == "Calories: " + AsText(c) + "\n\n";
  }

  /** A present `overall` section always leads the analysis text. */
  lemma OverallLeads(analysis: Json)
    requires analysis.Object? && "overall" in analysis.fields && !analysis.fields["overall"].Missing?
    ensures StartsWith(AnalysisText(analysis), "Overall:")
  {
    var rest := OverallFirst(analysis);
    TrimKeepsPrefix("Overall:", rest);
  }

  /** With `overall` present, the sections start with its label. */
  lemma OverallFirst(analysis: Json) returns (rest: string)
    requires analysis.Object? && "overall" in analysis.fields && !analysis.fields["overall"].Missing?
    ensures Sections(analysis) == "Overall:" + rest
  {
    var t := AsText(Path(analysis, "overall"));
    var s1 := Section(analysis, "overall", "Overall: ");
    var s2 := Section(analysis, "pace", "Pace: ");
    var s3 := Section(analysis, "heartRate", "Heart Rate: ");
    var s4 := Section(analysis, "caloriesBurned", "Calories: ");
    var head := " " + t + "\n\n";
    assert s1 == "Overall:" + head by {
      assert s1 == "Overall: " + t + "\n\n";
      assert "Overall: " == "Overall:" + " ";
    }
    rest := head + (s2 + s3 + s4);
    assert Sections(analysis) == s1 + s2 + s3 + s4;
    Regroup("Overall:", head, s2, s3, s4);
  }

  /**
   * Regrouping five concatenated strings. Kept apart from `OverallFirst`:
   * asserted there among the section terms, it sends the solver searching.
   */
  lemma Regroup(a: string, b: string, c: string, d: string, e: string)
    ensures (a + b) + c + d + e == a + (b + (c + d + e))
  {
  }

  // ----- the code fence -----

  const JsonFence := "```json"
  const ClosingFence := "\n```"

  /**
   * `replaceAll("```json\\n?", "")`: scanning left to right, delete every
   * "```json" together with one newline right after it, if there is one.
   */
  function RemoveOpeningFences(s: string): (r: string)
    ensures |r| <= |s|
    decreases |s|
  {
    if s == [] then []
    else if StartsWith(s, JsonFence) then
      var t := s[|JsonFence|..];
      if t != [] && t[0] == '\n' then RemoveOpeningFences(t[1..]) else RemoveOpeningFences(t)
    else [s[0]] + RemoveOpeningFences(s[1..])
  }

  /** The generated text with its fence markers removed, then trimmed. */
  function StripFences(s: string): (r: string)
    ensures |r| <= |s|
    ensures r == [] || (!Trimmable(r[0]) && !Trimmable(r[|r| - 1]))
  {
    Trim(RemoveAll(RemoveOpeningFences(s), ClosingFence))
  }

  predicate NoBacktick(s: string) {
    forall i :: 0 <= i < |s| ==> s[i] != '`'
  }

  /** Opening fences start with a backtick, so a backtick-free front is kept as it is. */
  lemma {:induction false} OpeningFencesAfter(a: string, t: string)
    requires NoBacktick(a)
    ensures RemoveOpeningFences(a + t) == a + RemoveOpeningFences(t)
    decreases |a|
  {
    if a == [] {
      assert a + t == t;
    } else {
      var s := a + t;
      assert !StartsWith(s, JsonFence) by {
        assert s[0] == a[0] && a[0] != '`' && JsonFence[0] == '`';
      }
      calc {
        RemoveOpeningFences(s);
        [s[0]] + RemoveOpeningFences(s[1..]);
        { assert s[1..] == a[1..] + t; }
        [a[0]] + RemoveOpeningFences(a[1..] + t);
        { OpeningFencesAfter(a[1..], t); }
        [a[0]] + (a[1..] + RemoveOpeningFences(t));
        { assert a == [a[0]] + a[1..]; }
        a + RemoveOpeningFences(t);
      }
    }
  }

  /**
   * A reply fenced as "```json", newline, body, newline, "```" gives back the
   * body trimmed, when the body itself has no backtick.
   */
  lemma StripFencedBody(body: string)
    requires NoBacktick(body)
    ensures StripFences(JsonFence + "\n" + body + ClosingFence) == Trim(body)
  {
    OpeningFenceRemoved(body);
    ClosingFenceRemoved(body);
  }

  /** The opening fence and its newline go; a backtick-free body and the closing fence stay. */
  lemma OpeningFenceRemoved(body: string)
    requires NoBacktick(body)
    ensures RemoveOpeningFences(JsonFence + "\n" + body + ClosingFence) == body + ClosingFence
  {
    var s := JsonFence + "\n" + body + ClosingFence;
    assert StartsWith(s, JsonFence);
    assert s[|JsonFence|..] == "\n" + (body + ClosingFence);
    assert s[|JsonFence|..][1..] == body + ClosingFence;
    OpeningFencesAfter(body, ClosingFence);
    assert !StartsWith(ClosingFence, JsonFence);
    assert ClosingFence[1..] == "```";
    assert RemoveOpeningFences("```") == "```";
    assert RemoveOpeningFences(ClosingFence) == ClosingFence;
  }

  /**
   * The newline after "```json" is optional: a fence followed directly by a
   * backtick-free body that does not start with a newline leaves the body.
   */
  lemma OpeningFenceNoNewline(body: string)
    requires NoBacktick(body) && (body == [] || body[0] != '\n')
    ensures RemoveOpeningFences(JsonFence + body) == body
  {
    var s := JsonFence + body;
    assert StartsWith(s, JsonFence);
    assert s[|JsonFence|..] == body;
    OpeningFencesAfter(body, []);
    assert body + [] == body;
  }

  /** Deleting the closing fence after a backtick-free body leaves the body. */
  lemma ClosingFenceRemoved(body: string)
    requires NoBacktick(body)
    ensures RemoveAll(body + ClosingFence, ClosingFence) == body
  {
    var u := body + ClosingFence;
    forall i: nat | i < |body| ensures !OccursAt(u, ClosingFence, i) {
      if OccursAt(u, ClosingFence, i) {
        OccursAtChar(u, ClosingFence, i, 1);
      }
    }
    RemoveAllAfter(body, ClosingFence, ClosingFence);
    assert ClosingFence[|ClosingFence|..] == [];
    assert RemoveAll(ClosingFence, ClosingFence) == [];
    assert body + [] == body;
  }

  /** A reply without any backtick passes through trimmed. */
  lemma StripUnfenced(body: string)
    requires NoBacktick(body)
    ensures StripFences(body) == Trim(body)
  {
    OpeningFencesAfter(body, []);
    assert body + [] == body;
    forall i: nat | i < |body| ensures !OccursAt(body, ClosingFence, i) {
      if OccursAt(body, ClosingFence, i) {
        OccursAtChar(body, ClosingFence, i, 1);
      }
    }
    RemoveAllAbsent(body, ClosingFence);
  }

  // ----- the whole reply -----

  /**
   * `rootNode.path("candidates").get(0).path("content").path("parts").get(0).path("text")`:
   * `None` where a `get(0)` yields `null`, which the next `path` dereferences.
   */
  function GeneratedText(root: Json): (r: Option<Json>)
    ensures r.None? <==> Get(Path(root, "candidates"), 0).None?
                         || Get(Path(Path(Get(Path(root, "candidates"), 0).value, "content"), "parts"), 0).None?
  {
    match Get(Path(root, "candidates"), 0)
    case None => None
    case Some(candidate) =>
      match Get(Path(Path(candidate, "content"), "parts"), 0)
      case None => None
      case Some(part) => Some(Path(part, "text"))
  }

  /** When found, the text node is the `text` field of the first part of the first candidate. */
  lemma GeneratedTextLocated(root: Json)
    ensures var r := GeneratedText(root);
            r.Some? ==>
              r.value == Path(Get(Path(Path(Get(Path(root, "candidates"), 0).value, "content"), "parts"), 0).value, "text")
  {
  }

  /**
   * The advice document the reply carries: the reply parsed, the generated
   * text found, its fences stripped and the rest parsed again; `None` when
   * any of these throws.
   */
  function AdviceDocument(aiResponse: string, parse: JsonParser): (r: Option<Json>)
    ensures r.Some? ==> parse(aiResponse).Some? && GeneratedText(parse(aiResponse).value).Some?
  {
    match parse(aiResponse)
    case None => None
    case Some(root) =>
      match GeneratedText(root)
      case None => None
      case Some(text) => parse(StripFences(AsText(text)))
  }

  /** Once the reply parses and carries generated text, the document is that text fence-stripped and parsed. */
  lemma AdviceDocumentOfText(aiResponse: string, parse: JsonParser)
    ensures var root := parse(aiResponse);
            root.Some? && GeneratedText(root.value).Some? ==>
              AdviceDocument(aiResponse, parse) == parse(StripFences(AsText(GeneratedText(root.value).value)))
  {
  }

  /** The reply envelope the model returns: one candidate with one part holding `text`. */
  function Envelope(text: string): Json {
    Object(map["candidates" := Array([Object(map["content" := Object(map["parts" := Array([Object(map["text" := Text(text)])])])])])])
  }

  /**
   * A fenced answer in the envelope is read as its body, trimmed: the fences
   * are gone before the second parse sees the text.
   */
  lemma FencedAdvice(aiResponse: string, parse: JsonParser, body: string)
    requires parse(aiResponse) == Some(Envelope(JsonFence + "\n" + body + ClosingFence))
    requires NoBacktick(body)
    ensures AdviceDocument(aiResponse, parse) == parse(Trim(body))
  {
    var root := Envelope(JsonFence + "\n" + body + ClosingFence);
    assert GeneratedText(root) == Some(Text(JsonFence + "\n" + body + ClosingFence));
    StripFencedBody(body);
  }

  /** `createDefaultRecommendation`: the fixed texts, for the given activity. */
  function DefaultRecommendation(activity: Activity, now: Timestamp): (r: Recommendation)
    ensures r.activityId == activity.id && r.userId == activity.userId && r.activityType == activity.activityType
    ensures r.recommendation == FallbackAnalysis && r.createdAt == now
    ensures r.improvements == [NoImprovements] && r.suggestions == [FallbackSuggestion] && r.safety == FallbackSafety
    ensures |r.safety| == 3
  {
    Recommendation(activity.id, activity.userId, activity.activityType, FallbackAnalysis,
                   [NoImprovements], [FallbackSuggestion], FallbackSafety, now)
  }

  /** The recommendation an advice document describes. */
  function Shaped(activity: Activity, doc: Json, now: Timestamp): Recommendation {
    Recommendation(activity.id, activity.userId, activity.activityType,
                   AnalysisText(Path(doc, "analysis")),
                   Improvements(Path(doc, "improvements")),
                   Suggestions(Path(doc, "suggestions")),
                   SafetyGuidelines(Path(doc, "safety")),
                   now)
  }

  /**
   * The reading steps of `processAiResponse`: parse the reply, find the
   * generated text, strip its fences and parse it; `None` as soon as a step
   * throws.
   */
  method ReadAdviceDocument(aiResponse: string, parse: JsonParser) returns (doc: Option<Json>)
    ensures doc == AdviceDocument(aiResponse, parse)
  {
    var root := parse(aiResponse);
    if root.None? {
      return None;
    }
    var textNode := GeneratedText(root.value);
    if textNode.None? {
      return None;
    }
    var jsonContent := StripFences(AsText(textNode.value));
    doc := parse(jsonContent);
  }

  /**
   * `processAiResponse`: the recommendation the advice document describes,
   * or the default one when any step before it throws.
   */
  method ProcessAiResponse(activity: Activity, aiResponse: string, parse: JsonParser, now: Timestamp)
    returns (r: Recommendation)
    ensures AdviceDocument(aiResponse, parse).None? ==> r == DefaultRecommendation(activity, now)
    ensures AdviceDocument(aiResponse, parse).Some? ==>
              r == Shaped(activity, AdviceDocument(aiResponse, parse).value, now)
  {
    var advice := ReadAdviceDocument(aiResponse, parse);
    if advice.None? {
      return DefaultRecommendation(activity, now);
    }
    var doc := advice.value;
    var analysis := BuildAnalysis(Path(doc, "analysis"));
    var improvements := ExtractImprovements(Path(doc, "improvements"));
    var suggestions := ExtractSuggestions(Path(doc, "suggestions"));
    var safety := ExtractSafetyGuidelines(Path(doc, "safety"));
    r := Recommendation(activity.id, activity.userId, activity.activityType,
                        analysis, improvements, suggestions, safety, now);
    assert r == Shaped(activity, doc, now);
  }

  /**
   * Whatever the reply, the recommendation belongs to the activity it was
   * asked about and every advice list is non-empty.
   */
  lemma ShapedAlwaysComplete(activity: Activity, aiResponse: string, parse: JsonParser, now: Timestamp)
    ensures var r := if AdviceDocument(aiResponse, parse).Some?
                     then Shaped(activity, AdviceDocument(aiResponse, parse).value, now)
                     else DefaultRecommendation(activity, now);
            && r.activityId == activity.id && r.userId == activity.userId
            && r.activityType == activity.activityType && r.createdAt == now
            && r.improvements != [] && r.suggestions != [] && r.safety != []
  {
    if AdviceDocument(aiResponse, parse).Some? {
      var doc := AdviceDocument(aiResponse, parse).value;
      LinesShape(Path(doc, "improvements"), ImprovementLine, NoImprovements);
      LinesShape(Path(doc, "suggestions"), SuggestionLine, NoSuggestions);
      LinesShape(Path(doc, "safety"), SafetyLine, NoSafety);
    }
  }

  /**
   * A reply the parser rejects, one without a first candidate, and one whose
   * first candidate has no first part all yield the default recommendation.
   */
  lemma FallbackOnFailure(aiResponse: string, parse: JsonParser)
    ensures parse(aiResponse).None? ==> AdviceDocument(aiResponse, parse).None?
    ensures parse(aiResponse).Some? && Get(Path(parse(aiResponse).value, "candidates"), 0).None? ==>
              AdviceDocument(aiResponse, parse).None?
    ensures parse(aiResponse).Some? && Get(Path(parse(aiResponse).value, "candidates"), 0).Some? &&
            Get(Path(Path(Get(Path(parse(aiResponse).value, "candidates"), 0).value, "content"), "parts"), 0).None? ==>
              AdviceDocument(aiResponse, parse).None?
  {
  }
}
