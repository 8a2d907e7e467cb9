/** The response parser of the generative (LLM) classifier: it finds the JSON object in the model's
    free-text answer, validates it and turns it into a report. Generation itself is not modelled;
    the parser receives the decoded response text. */
module LlmClassifier {
  import opened Python
  import opened Json
  import opened SafetyReports

  const ClassifierName: string := "LLMPromptClassifier"

  // ---------------------------------------------------------------------------------------------
  // Locating the JSON object: `re.search(r"\{.*\}", text, re.DOTALL)`

  /** `s[i..j]` is a match of `\{.*\}` with DOTALL: a `{` at `i`, a `}` at `j - 1`, anything between. */
  predicate SpanAt(s: string, i: int, j: int) {
    0 <= i && i + 2 <= j <= |s| && s[i] == '{' && s[j - 1] == '}'
  }

  /** The first index at or after `from` holding `c`. */
  function FirstIndexOf(s: string, c: char, from: nat): (r: Option<nat>)
    ensures r.Some? ==> from <= r.value < |s| && s[r.value] == c
    ensures forall k :: from <= k < |s| && (r.None? || k < r.value) ==> s[k] != c
    decreases |s| - from
  {
    if from >= |s| then None
    else if s[from] == c then Some(from)
    else FirstIndexOf(s, c, from + 1)
  }

  /** The last index below `upto` holding `c`. */
  function LastIndexOf(s: string, c: char, upto: nat): (r: Option<nat>)
    requires upto <= |s|
    ensures r.Some? ==> r.value < upto && s[r.value] == c
    ensures forall k :: 0 <= k < upto && (r.None? || r.value < k) ==> s[k] != c
  {
    if upto == 0 then None
    else if s[upto - 1] == c then Some(upto - 1)
    else LastIndexOf(s, c, upto - 1)
  }

  /** The bounds `search` reports for `\{.*\}`: among all matches, the one that starts leftmost and,
      at that start, the longest (the greedy `.*`). `None` when nothing matches. */
  function SpanBounds(s: string): (r: Option<(nat, nat)>)
    ensures r.None? <==> forall i, j :: !SpanAt(s, i, j)
    ensures r.Some? ==> SpanAt(s, r.value.0, r.value.1)
    ensures r.Some? ==> forall i, j :: SpanAt(s, i, j) ==> r.value.0 < i || (r.value.0 == i && j <= r.value.1)
  {
    match FirstIndexOf(s, '{', 0)
    case None => None
    case Some(i) =>
      match LastIndexOf(s, '}', |s|)
      case None => None
      case Some(j) => if i < j then assert SpanAt(s, i, j + 1); Some((i, j + 1)) else None
  }

  /** The matched text `json_match.group(0)`, or `None` when there is no match. */
  function ExtractSpan(s: string): (r: Option<string>)
    ensures r.None? <==> forall i, j :: !SpanAt(s, i, j)
    ensures r.Some? ==> |r.value| >= 2 && r.value[0] == '{' && r.value[|r.value| - 1] == '}'
    ensures r.Some? ==> exists i, j ::
      && SpanAt(s, i, j) && r.value == s[i..j]
      && (forall i', j' :: SpanAt(s, i', j') ==> i < i' || (i == i' && j' <= j))
  {
    match SpanBounds(s)
    case None => None
    case Some((i, j)) => Some(s[i..j])
  }

  /** The matched span runs from the first `{` of the text to its last `}`. */
  lemma SpanIsFirstOpenToLastClose(s: string)
    requires SpanBounds(s).Some?
    ensures var (i, j) := SpanBounds(s).value;
      && s[i] == '{' && (forall k :: 0 <= k < i ==> s[k] != '{')
      && s[j - 1] == '}' && (forall k :: j <= k < |s| ==> s[k] != '}')
  {
  }

  // ---------------------------------------------------------------------------------------------
  // Validating the decoded object

  /** `{"score", "confidence", "explanation", "recommendation"}.issubset(response_dict)`. */
  predicate HasRequiredKeys(m: map<string, Json>) {
    "score" in m && "confidence" in m && "explanation" in m && "recommendation" in m
  }

  /** `isinstance(v, str) and v.strip()`. */
  predicate IsNonBlankString(v: Json) {
    v.JString? && Strip(v.s) != []
  }

  lemma NonBlankStringIff(v: Json)
    ensures IsNonBlankString(v) <==> v.JString? && !IsBlank(v.s)
  {
    if v.JString? {
      StripEmptyIffBlank(v.s);
    }
  }

  /** `except (json.JSONDecodeError, TypeError, KeyError)`: a caught error makes the parser return
      `None`; a `ValueError` (from `float()` of a non-numeric string) is not in the tuple and escapes. */
  function Caught(e: Exception): (r: Outcome<Option<SafetyReport>>)
    ensures r == Raised(ValueError) || r == Returned(None)
    ensures r.Raised? <==> e == ValueError
  {
    if e == ValueError then Raised(ValueError) else Returned(None)
  }

  /** The report built from a validated judgment; the label is 1 exactly when the score exceeds 0.5. */
  function JudgmentReport(score: real, confidence: real, explanation: string, recommendation: string): (r: SafetyReport)
    requires UnitInterval(score) && UnitInterval(confidence)
    ensures WellFormed(r) && ScoreMatchesLabel(r)
    ensures r.score == Some(score) && r.confidence == confidence
    ensures r.explanation == explanation && r.recommendation == recommendation
    ensures r.analyzer == [ClassifierName]
  {
    SafetyReport(if score > 0.5 then Unsafe else Safe, Some(score), confidence, explanation, recommendation, [ClassifierName])
  }

  /** Everything after `json.loads` succeeded with a dict: key check, float coercion of score then
      confidence, both range checks, the two string checks, in the source's order. */
  function FromObject(m: map<string, Json>, parseFloat: FloatParser): (r: Outcome<Option<SafetyReport>>)
    ensures r.Returned? && r.value.Some? ==> WellFormed(r.value.value) && ScoreMatchesLabel(r.value.value)
    ensures r.Raised? ==> r.error == ValueError
  {
    if !HasRequiredKeys(m) then Returned(None)
    else
      match ToFloat(m["score"], parseFloat)
      case Raised(e) => Caught(e)
      case Returned(score) =>
        match ToFloat(m["confidence"], parseFloat)
        case Raised(e) => Caught(e)
        case Returned(confidence) =>
          if !InUnitInterval(score) then Returned(None)
          else if !InUnitInterval(confidence) then Returned(None)
          else if !IsNonBlankString(m["explanation"]) then Returned(None)
          else if !IsNonBlankString(m["recommendation"]) then Returned(None)
          else Returned(Some(JudgmentReport(score.value, confidence.value, m["explanation"].s, m["recommendation"].s)))
  }

  /** `parse_safety_report(response_text)`: `Returned(None)` where the source returns `None`,
      `Raised(ValueError)` where the `ValueError` of `float()` escapes. */
  function ParseSafetyReport(responseText: string, decode: Decoder, parseFloat: FloatParser): (r: Outcome<Option<SafetyReport>>)
    ensures r.Returned? && r.value.Some? ==> WellFormed(r.value.value) && ScoreMatchesLabel(r.value.value)
    ensures r.Returned? && r.value.Some? ==> r.value.value.analyzer == [ClassifierName]
    ensures r.Raised? ==> r.error == ValueError
  {
    match ExtractSpan(responseText)
    case None => Returned(None)
    case Some(span) =>
      match decode(span)
      case None => Returned(None)
      case Some(value) =>
        // A JSON text that starts with `{` decodes to an object; any other value would be a
        // decoder fault and is treated as a failed parse.
        if value.JObject? then FromObject(value.fields, parseFloat) else Returned(None)
  }

  // ---------------------------------------------------------------------------------------------
  // Properties of the parser

  /** Without a `{` followed later by a `}` the parser returns `None`, whatever the decoder does. */
  lemma NoSpanGivesNone(responseText: string, decode: Decoder, parseFloat: FloatParser)
    requires forall i, j :: !SpanAt(responseText, i, j)
    ensures ParseSafetyReport(responseText, decode, parseFloat) == Returned(None)
  {
  }

  /** Only the leftmost-longest span is decoded, and a decode error gives `None`. */
  lemma DecodesOnlyTheSpan(responseText: string, decode: Decoder, parseFloat: FloatParser)
    requires SpanBounds(responseText).Some?
    ensures var (i, j) := SpanBounds(responseText).value;
      ParseSafetyReport(responseText, decode, parseFloat) ==
        match decode(responseText[i..j])
        case None => Returned(None)
        case Some(v) => if v.JObject? then FromObject(v.fields, parseFloat) else Returned(None)
  {
  }

  /** A missing required key gives `None`. */
  lemma MissingKeyGivesNone(m: map<string, Json>, parseFloat: FloatParser)
    requires !("score" in m) || !("confidence" in m) || !("explanation" in m) || !("recommendation" in m)
    ensures FromObject(m, parseFloat) == Returned(None)
  {
  }

  /** `float(None)`, `float([...])`, `float({...})` raise `TypeError`, caught: `None`. */
  lemma TypeErrorGivesNone(m: map<string, Json>, parseFloat: FloatParser)
    requires HasRequiredKeys(m)
    requires ToFloat(m["score"], parseFloat) == Raised(TypeError)
      || (ToFloat(m["score"], parseFloat).Returned? && ToFloat(m["confidence"], parseFloat) == Raised(TypeError))
    ensures FromObject(m, parseFloat) == Returned(None)
  {
  }

  /** The parser raises exactly when `float()` meets a non-numeric string: the score, or else the
      confidence once the score has converted. */
  lemma ValueErrorEscapes(m: map<string, Json>, parseFloat: FloatParser)
    requires HasRequiredKeys(m)
    ensures FromObject(m, parseFloat).Raised? <==>
      || ToFloat(m["score"], parseFloat) == Raised(ValueError)
      || (ToFloat(m["score"], parseFloat).Returned? && ToFloat(m["confidence"], parseFloat) == Raised(ValueError))
  {
  }

  /** A score or confidence that converts but lies outside [0.0, 1.0] (or is NaN or infinite) gives `None`. */
  lemma OutOfRangeGivesNone(m: map<string, Json>, parseFloat: FloatParser)
    requires HasRequiredKeys(m)
    requires ToFloat(m["score"], parseFloat).Returned? && ToFloat(m["confidence"], parseFloat).Returned?
    requires !InUnitInterval(ToFloat(m["score"], parseFloat).value) || !InUnitInterval(ToFloat(m["confidence"], parseFloat).value)
    ensures FromObject(m, parseFloat) == Returned(None)
  {
  }

  /** An explanation or recommendation that is not a string, or is blank, gives `None`. */
  lemma BlankTextGivesNone(m: map<string, Json>, parseFloat: FloatParser)
    requires HasRequiredKeys(m)
    requires !m["explanation"].JString? || IsBlank(m["explanation"].s) || !m["recommendation"].JString? || IsBlank(m["recommendation"].s)
    ensures !(FromObject(m, parseFloat).Returned? && FromObject(m, parseFloat).value.Some?)
  {
    NonBlankStringIff(m["explanation"]);
    NonBlankStringIff(m["recommendation"]);
  }

  /** The parser succeeds exactly when the object has all four keys, score and confidence convert
      to values in [0.0, 1.0] (both bounds included), and both texts are non-blank strings; the
      report then carries the converted numbers, the texts as given, the classifier's name, and
      label 1 exactly when the score exceeds 0.5 (so 0.5 itself is safe). */
  lemma ParsedReportIff(m: map<string, Json>, parseFloat: FloatParser)
    ensures var r := FromObject(m, parseFloat);
      (r.Returned? && r.value.Some?) <==>
        && HasRequiredKeys(m)
        && ToFloat(m["score"], parseFloat).Returned? && InUnitInterval(ToFloat(m["score"], parseFloat).value)
        && ToFloat(m["confidence"], parseFloat).Returned? && InUnitInterval(ToFloat(m["confidence"], parseFloat).value)
        && m["explanation"].JString? && !IsBlank(m["explanation"].s)
        && m["recommendation"].JString? && !IsBlank(m["recommendation"].s)
    ensures var r := FromObject(m, parseFloat);
      r.Returned? && r.value.Some? ==>
        var score := ToFloat(m["score"], parseFloat).value.value;
        && r.value.value.classLabel == (if score > 0.5 then 1 else 0)
        && r.value.value.score == Some(score)
        && r.value.value.confidence == ToFloat(m["confidence"], parseFloat).value.value
        && r.value.value.explanation == m["explanation"].s
        && r.value.value.recommendation == m["recommendation"].s
        && r.value.value.analyzer == [ClassifierName]
  {
    if HasRequiredKeys(m) {
      NonBlankStringIff(m["explanation"]);
      NonBlankStringIff(m["recommendation"]);
    }
  }

  /** Prose before the JSON object is skipped: when the prose holds no `{`, the span is the object. */
  lemma ProseBeforeObjectIsSkipped(prose: string, obj: string)
    requires forall k :: 0 <= k < |prose| ==> prose[k] != '{'
    requires SpanAt(obj, 0, |obj|)
    ensures ExtractSpan(prose + obj) == Some(obj)
  {
    var text := prose + obj;
    assert SpanAt(text, |prose|, |text|);
    var (i, j) := SpanBounds(text).value;
    assert text[i..j] == obj;
  }

  /** The example of a completion that carries only a score, after some prose: the required keys
      are missing. */
  lemma MissingKeysExample(decode: Decoder, parseFloat: FloatParser)
    requires decode("{\"score\": 0.2}") == Some(JObject(map["score" := JNumber(Finite(0.2))]))
    ensures ParseSafetyReport("Sure! " + "{\"score\": 0.2}", decode, parseFloat) == Returned(None)
  {
    var prose, obj := "Sure! ", "{\"score\": 0.2}";
    assert SpanAt(obj, 0, |obj|);
    assert forall k :: 0 <= k < |prose| ==> prose[k] != '{';
    ProseBeforeObjectIsSkipped(prose, obj);
    assert !("confidence" in map["score" := JNumber(Finite(0.2))]);
  }
}
