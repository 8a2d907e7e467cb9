/** The offline evaluation script: its strict parser for a model's JSON answer, and the loop that
    runs the model over a labelled dataset and collects predictions and the failed examples.
    Generation (tokenising, running the model, decoding the new tokens) is an oracle from the
    example's text to the generated text. */
module LlmSafetyEval {
  import opened Python
  import opened Json
  import opened Indices

  /** The script's own report record: no label, no classifier name. */
  datatype EvalReport = EvalReport(score: real, confidence: real, explanation: string, recommendation: string)

  /** The kinds the script checks with `isinstance`: `(float, int)` admits every JSON number and,
      since `bool` is a subclass of `int`, `true` and `false`; `str` admits strings only. */
  datatype FieldKind = Numeric | Text

  /** `required_fields`, in its iteration order. */
  const RequiredFields: seq<(string, FieldKind)> :=
    [("score", Numeric), ("confidence", Numeric), ("explanation", Text), ("recommendation", Text)]

  predicate HasKind(v: Json, kind: FieldKind) {
    match kind
    case Numeric => v.JNumber? || v.JBool?
    case Text => v.JString?
  }

  /** Python's `key in s` for strings: `key` occurs in `s` as a contiguous substring. */
  predicate IsSubstring(key: string, s: string) {
    exists i :: 0 <= i <= |s| && key <= s[i..]
  }

  /** `field not in data`, negated, on whatever `json.loads` returned: a key test on a dict, an
      element test on a list, a substring test on a string; any other value is not iterable and
      raises `TypeError`. */
  function Contains(data: Json, key: string): (r: Outcome<bool>)
    ensures r.Raised? <==> !(data.JObject? || data.JArray? || data.JString?)
    ensures r.Raised? ==> r.error == TypeError
    ensures data.JObject? ==> r == Returned(key in data.fields)
    ensures data.JArray? ==> r == Returned(JString(key) in data.items)
    ensures data.JString? ==> r == Returned(IsSubstring(key, data.s))
  {
    match data
    case JObject(m) => Returned(key in m)
    case JArray(items) => Returned(JString(key) in items)
    case JString(s) => Returned(IsSubstring(key, s))
    case _ => Raised(TypeError)
  }

  /** `data[field]`: a dict lookup (a missing key raises `KeyError`); a list or a string indexed
      by a string raises `TypeError`, as does any other value. */
  function Index(data: Json, key: string): (r: Outcome<Json>)
    ensures data.JObject? && key in data.fields ==> r == Returned(data.fields[key])
    ensures data.JObject? && key !in data.fields ==> r == Raised(KeyError)
    ensures !data.JObject? ==> r == Raised(TypeError)
  {
    match data
    case JObject(m) => if key in m then Returned(m[key]) else Raised(KeyError)
    case _ => Raised(TypeError)
  }

  /** The validation loop over `fields`: for each, in order, a missing field or a value of the
      wrong kind gives `False` (the caller returns `None`); an exception of `in` or `[]` escapes.
      On a dict it never raises and accepts exactly when every field is present with its kind;
      no other value is ever accepted, and the only exception that can escape is `TypeError`. */
  function CheckFields(data: Json, fields: seq<(string, FieldKind)>): (r: Outcome<bool>)
    ensures r.Raised? ==> r.error == TypeError
    ensures data.JObject? ==> r == Returned(forall i :: 0 <= i < |fields| ==>
      fields[i].0 in data.fields && HasKind(data.fields[fields[i].0], fields[i].1))
    ensures fields != [] && !data.JObject? ==> r != Returned(true)
  {
    if fields == [] then Returned(true)
    else
      var (name, kind) := fields[0];
      match Contains(data, name)
      case Raised(e) => Raised(e)
      case Returned(found) =>
        if !found then Returned(false)
        else
          match Index(data, name)
          case Raised(e) => Raised(e)
          case Returned(v) =>
            if !HasKind(v, kind) then Returned(false)
            else
              var rest := CheckFields(data, fields[1..]);
              assert data.JObject? ==> forall i :: 1 <= i < |fields| ==> fields[i] == fields[1..][i - 1];
              rest
  }

  /** `float(v)` on a value that passed the `(float, int)` check: it agrees with Python's
      `float()` whatever the string parser, since no string reaches it. */
  function NumericValue(v: Json): (r: Float)
    requires HasKind(v, Numeric)
    ensures forall parseFloat: FloatParser :: ToFloat(v, parseFloat) == Returned(r)
  {
    match v
    case JNumber(n) => n
    case JBool(b) => Finite(if b then 1.0 else 0.0)
  }

  /** `parse_safety_report(json_str)` of the script. The whole text must decode (there is no
      search for an embedded object); a decode error gives `None`. */
  function ParseSafetyReport(jsonStr: string, decode: Decoder): (r: Outcome<Option<EvalReport>>)
    ensures decode(jsonStr).None? ==> r == Returned(None)
    ensures r.Raised? ==> r.error == TypeError
  {
    match decode(jsonStr)
    case None => Returned(None)
    case Some(data) =>
      match CheckFields(data, RequiredFields)
      case Raised(e) => Raised(e)
      case Returned(ok) =>
        if !ok then Returned(None)
        else
          assert data.JObject?;
          var m := data.fields;
          assert forall i :: 0 <= i < |RequiredFields| ==>
            RequiredFields[i].0 in m && HasKind(m[RequiredFields[i].0], RequiredFields[i].1);
          assert RequiredFields[0].0 == "score" && RequiredFields[1].0 == "confidence";
          assert RequiredFields[2].0 == "explanation" && RequiredFields[3].0 == "recommendation";
          var score := NumericValue(m["score"]);
          var confidence := NumericValue(m["confidence"]);
          if !InUnitInterval(score) || !InUnitInterval(confidence) then Returned(None)
          else Returned(Some(EvalReport(score.value, confidence.value, m["explanation"].s, m["recommendation"].s)))
  }

  /** What the script accepts in a decoded dict, written out field by field: numeric `score` and
      `confidence` within [0.0, 1.0] (both bounds inclusive; NaN and infinities fail), string
      `explanation` and `recommendation` (possibly empty). */
  predicate Acceptable(m: map<string, Json>) {
    && "score" in m && (m["score"].JNumber? || m["score"].JBool?)
    && "confidence" in m && (m["confidence"].JNumber? || m["confidence"].JBool?)
    && "explanation" in m && m["explanation"].JString?
    && "recommendation" in m && m["recommendation"].JString?
    && InUnitInterval(NumericValue(m["score"]))
    && InUnitInterval(NumericValue(m["confidence"]))
  }

  /** On a decoded dict the parser never raises; it succeeds exactly on an acceptable dict, and
      then the report holds the converted numbers and the strings as given. */
  lemma ObjectParsesIffAcceptable(jsonStr: string, decode: Decoder, m: map<string, Json>)
    requires decode(jsonStr) == Some(JObject(m))
    ensures ParseSafetyReport(jsonStr, decode).Returned?
    ensures ParseSafetyReport(jsonStr, decode).value.Some? <==> Acceptable(m)
    ensures Acceptable(m) ==> ParseSafetyReport(jsonStr, decode) == Returned(Some(EvalReport(
      NumericValue(m["score"]).value, NumericValue(m["confidence"]).value,
      m["explanation"].s, m["recommendation"].s)))
  {
    var ok := forall i :: 0 <= i < |RequiredFields| ==>
      RequiredFields[i].0 in m && HasKind(m[RequiredFields[i].0], RequiredFields[i].1);
    assert CheckFields(JObject(m), RequiredFields) == Returned(ok);
    if !ok {
      var i :| 0 <= i < |RequiredFields| && !(RequiredFields[i].0 in m && HasKind(m[RequiredFields[i].0], RequiredFields[i].1));
      if i == 0 {
        assert RequiredFields[0] == ("score", Numeric);
      } else if i == 1 {
        assert RequiredFields[1] == ("confidence", Numeric);
      } else if i == 2 {
        assert RequiredFields[2] == ("explanation", Text);
      } else {
        assert RequiredFields[3] == ("recommendation", Text);
      }
    } else {
      assert RequiredFields[0] == ("score", Numeric) && RequiredFields[1] == ("confidence", Numeric);
      assert RequiredFields[2] == ("explanation", Text) && RequiredFields[3] == ("recommendation", Text);
    }
  }

  /** A decoded value that is not a dict never yields a report. It raises `TypeError` exactly when
      it is not iterable, or when the first membership test, `"score" in data`, succeeds (a list
      holding the string "score", a string containing it) so that indexing it comes next. */
  lemma NonObjectNeverParses(jsonStr: string, decode: Decoder, v: Json)
    requires decode(jsonStr) == Some(v) && !v.JObject?
    ensures ParseSafetyReport(jsonStr, decode) != Returned(None) ==> ParseSafetyReport(jsonStr, decode) == Raised(TypeError)
    ensures ParseSafetyReport(jsonStr, decode) == Raised(TypeError) <==>
      match v
      case JArray(items) => JString("score") in items
      case JString(s) => IsSubstring("score", s)
      case _ => true
  {
    assert RequiredFields[0] == ("score", Numeric);
  }

  /** Empty strings pass the `str` check: the script, unlike the service's parser, accepts them. */
  lemma EmptyTextsAccepted(jsonStr: string, decode: Decoder)
    requires decode(jsonStr) == Some(JObject(map[
      "score" := JNumber(Finite(0.7)), "confidence" := JNumber(Finite(0.9)),
      "explanation" := JString(""), "recommendation" := JString("")]))
    ensures ParseSafetyReport(jsonStr, decode) == Returned(Some(EvalReport(0.7, 0.9, "", "")))
  {
    ObjectParsesIffAcceptable(jsonStr, decode, map[
      "score" := JNumber(Finite(0.7)), "confidence" := JNumber(Finite(0.9)),
      "explanation" := JString(""), "recommendation" := JString("")]);
  }

  /** A boolean passes the `(float, int)` check: `"score": true` is read as 1.0. */
  lemma BooleanScoreAccepted(jsonStr: string, decode: Decoder)
    requires decode(jsonStr) == Some(JObject(map[
      "score" := JBool(true), "confidence" := JBool(false),
      "explanation" := JString("x"), "recommendation" := JString("y")]))
    ensures ParseSafetyReport(jsonStr, decode) == Returned(Some(EvalReport(1.0, 0.0, "x", "y")))
  {
    ObjectParsesIffAcceptable(jsonStr, decode, map[
      "score" := JBool(true), "confidence" := JBool(false),
      "explanation" := JString("x"), "recommendation" := JString("y")]);
  }

  /** The label the loop derives from a parsed report: 1 exactly when the score exceeds 0.5. */
  function PredictedLabel(r: EvalReport): (predicted: int)
    ensures predicted == 1 <==> r.score > 0.5
    ensures predicted == 0 <==> r.score <= 0.5
  {
    if r.score > 0.5 then 1 else 0
  }

  // ---------------------------------------------------------------------------------------------
  // The evaluation loop

  datatype EvaluationResult = EvaluationResult(yTrue: seq<int>, yPred: seq<int>, failedIndices: seq<nat>)

  /** A parse outcome per example. */
  type Parsed = Outcome<Option<EvalReport>>

  /** `parse_safety_report` of each example's stripped generated answer, in dataset order. The
      rest of the loop's theory holds for any such list of outcomes. */
  function Parses(texts: seq<string>, generate: string -> string, decode: Decoder): (r: seq<Parsed>)
    ensures |r| == |texts|
  {
    if texts == [] then []
    else Parses(texts[..|texts| - 1], generate, decode) + [ParseSafetyReport(Strip(generate(texts[|texts| - 1])), decode)]
  }

  /** The `i`-th outcome is the parse of the `i`-th example's stripped answer. */
  lemma {:induction false} ParsesAt(texts: seq<string>, generate: string -> string, decode: Decoder, i: nat)
    requires i < |texts|
    ensures Parses(texts, generate, decode)[i] == ParseSafetyReport(Strip(generate(texts[i])), decode)
  {
    if i < |texts| - 1 {
      var front := texts[..|texts| - 1];
      ParsesAt(front, generate, decode, i);
      assert front[i] == texts[i];
    }
  }

  /** One iteration on the lists so far: example `i`, with true label `trueLabel`, parsed to
      `parsed`. */
  function Step(acc: EvaluationResult, i: nat, trueLabel: int, parsed: Parsed): Outcome<EvaluationResult> {
    match parsed
    case Raised(err) => Raised(err)
    case Returned(None) => Returned(acc.(failedIndices := acc.failedIndices + [i]))
    case Returned(Some(r)) => Returned(acc.(yTrue := acc.yTrue + [trueLabel], yPred := acc.yPred + [PredictedLabel(r)]))
  }

  /** The lists after the first `n` iterations, or the exception that ended the loop. */
  function Accumulated(labels: seq<int>, parses: seq<Parsed>, n: nat): Outcome<EvaluationResult>
    requires |parses| == |labels| && n <= |parses|
  {
    if n == 0 then Returned(EvaluationResult([], [], []))
    else
      match Accumulated(labels, parses, n - 1)
      case Raised(err) => Raised(err)
      case Returned(acc) => Step(acc, n - 1, labels[n - 1], parses[n - 1])
  }

  /** Once an iteration raises, the loop is over: the later prefixes carry the same exception. */
  lemma {:induction false} RaisedPersists(labels: seq<int>, parses: seq<Parsed>, n: nat, m: nat)
    requires |parses| == |labels| && n <= m <= |parses|
    requires Accumulated(labels, parses, n).Raised?
    ensures Accumulated(labels, parses, m) == Accumulated(labels, parses, n)
    decreases m - n
  {
    if n < m {
      RaisedPersists(labels, parses, n, m - 1);
    }
  }

  /** One more iteration after a prefix that did not raise is one `Step`. */
  lemma AccumulatedNext(labels: seq<int>, parses: seq<Parsed>, i: nat)
    requires |parses| == |labels| && i < |parses|
    requires Accumulated(labels, parses, i).Returned?
    ensures Accumulated(labels, parses, i + 1) == Step(Accumulated(labels, parses, i).value, i, labels[i], parses[i])
  {
  }

  /** The body of one iteration up to the parse: generate the answer for example `i`, strip it,
      and parse it. */
  method ParseExample(texts: seq<string>, generate: string -> string, decode: Decoder, i: nat)
    returns (report: Parsed)
    requires i < |texts|
    ensures report == Parses(texts, generate, decode)[i]
  {
    var modelOutput := Strip(generate(texts[i]));
    report := ParseSafetyReport(modelOutput, decode);
    ParsesAt(texts, generate, decode, i);
  }

  /** `evaluate_model` with generation as an oracle: for each example in order, a parse that
      gives `None` records the index as failed; a report records the true label and the predicted
      one; an exception from the parser ends the evaluation. */
  method EvaluateModel(texts: seq<string>, labels: seq<int>, generate: string -> string, decode: Decoder)
    returns (result: Outcome<EvaluationResult>)
    requires |texts| == |labels|
    ensures result == Accumulated(labels, Parses(texts, generate, decode), |texts|)
  {
    ghost var parses := Parses(texts, generate, decode);
    var yTrue: seq<int> := [];
    var yPred: seq<int> := [];
    var failedIndices: seq<nat> := [];
    var i := 0;
    while i < |texts|
      invariant 0 <= i <= |texts|
      invariant Accumulated(labels, parses, i) == Returned(EvaluationResult(yTrue, yPred, failedIndices))
    {
      var report := ParseExample(texts, generate, decode, i);
      AccumulatedNext(labels, parses, i);
      match report {
        case Raised(err) =>
          RaisedPersists(labels, parses, i + 1, |texts|);
          return Raised(err);
        case Returned(None) =>
          failedIndices := failedIndices + [i];
        case Returned(Some(r)) =>
          yTrue := yTrue + [labels[i]];
          yPred := yPred + [PredictedLabel(r)];
      }
      i := i + 1;
    }
    return Returned(EvaluationResult(yTrue, yPred, failedIndices));
  }

  /** The indices below `n` whose parse gave `None`, in increasing order. */
  function FailedUpTo(parses: seq<Parsed>, n: nat): (r: seq<nat>)
    requires n <= |parses|
    ensures IncreasingIndices(r, 0, n)
    ensures forall i :: 0 <= i < n ==> (i in r <==> parses[i] == Returned(None))
  {
    if n == 0 then []
    else if parses[n - 1] == Returned(None) then FailedUpTo(parses, n - 1) + [n - 1]
    else FailedUpTo(parses, n - 1)
  }

  /** The `i`-th parse gave a report. */
  predicate Reported(parses: seq<Parsed>, i: nat)
    requires i < |parses|
  {
    parses[i].Returned? && parses[i].value.Some?
  }

  /** The indices below `n` whose parse gave a report, in increasing order. */
  function ReportedUpTo(parses: seq<Parsed>, n: nat): (r: seq<nat>)
    requires n <= |parses|
    ensures IncreasingIndices(r, 0, n)
    ensures forall i :: 0 <= i < n ==> (i in r <==> Reported(parses, i))
  {
    if n == 0 then []
    else if Reported(parses, n - 1) then ReportedUpTo(parses, n - 1) + [n - 1]
    else ReportedUpTo(parses, n - 1)
  }

  /** A finished loop partitions the examples: `failed_indices` holds exactly the indices whose
      parse gave `None`, in increasing order, and `y_true`/`y_pred` hold, in input order, the true
      and the predicted label of each example that gave a report. */
  lemma {:induction false} AccumulatedPartitions(labels: seq<int>, parses: seq<Parsed>, n: nat)
    requires |parses| == |labels| && n <= |parses|
    requires Accumulated(labels, parses, n).Returned?
    ensures Accumulated(labels, parses, n).value.failedIndices == FailedUpTo(parses, n)
    ensures |Accumulated(labels, parses, n).value.yTrue| == |Accumulated(labels, parses, n).value.yPred| == |ReportedUpTo(parses, n)|
    ensures forall k :: 0 <= k < |ReportedUpTo(parses, n)| ==>
      && Reported(parses, ReportedUpTo(parses, n)[k])
      && Accumulated(labels, parses, n).value.yTrue[k] == labels[ReportedUpTo(parses, n)[k]]
      && Accumulated(labels, parses, n).value.yPred[k] == PredictedLabel(parses[ReportedUpTo(parses, n)[k]].value.value)
  {
    if n > 0 {
      AccumulatedPartitions(labels, parses, n - 1);
      AccumulatedNext(labels, parses, n - 1);
    }
  }

  /** The counts: one prediction per true label, and every example either predicted or failed. */
  lemma {:induction false} AccumulatedCounts(labels: seq<int>, parses: seq<Parsed>, n: nat)
    requires |parses| == |labels| && n <= |parses|
    requires Accumulated(labels, parses, n).Returned?
    ensures |Accumulated(labels, parses, n).value.yTrue| == |Accumulated(labels, parses, n).value.yPred|
    ensures |Accumulated(labels, parses, n).value.yTrue| + |Accumulated(labels, parses, n).value.failedIndices| == n
  {
    if n > 0 {
      AccumulatedCounts(labels, parses, n - 1);
    }
  }

  /** The loop ends in an exception exactly when some example's parse raises, and then it is the
      exception of the first such example. */
  lemma {:induction false} RaisesIffSomeParseRaises(labels: seq<int>, parses: seq<Parsed>, n: nat)
    requires |parses| == |labels| && n <= |parses|
    ensures Accumulated(labels, parses, n).Raised? <==> exists i :: 0 <= i < n && parses[i].Raised?
    ensures Accumulated(labels, parses, n).Raised? ==>
      exists i :: 0 <= i < n && parses[i] == Raised(Accumulated(labels, parses, n).error) &&
        (forall j :: 0 <= j < i ==> parses[j].Returned?)
  {
    if n > 0 {
      RaisesIffSomeParseRaises(labels, parses, n - 1);
      if Accumulated(labels, parses, n - 1).Returned? && parses[n - 1].Raised? {
        assert forall j :: 0 <= j < n - 1 ==> parses[j].Returned?;
      }
    }
  }

  /** With the script's parser, the exception that can end the evaluation is a `TypeError`. */
  lemma EvaluationRaisesOnlyTypeError(texts: seq<string>, labels: seq<int>, generate: string -> string, decode: Decoder)
    requires |texts| == |labels|
    ensures Accumulated(labels, Parses(texts, generate, decode), |texts|).Raised? ==>
      Accumulated(labels, Parses(texts, generate, decode), |texts|).error == TypeError
  {
    var parses := Parses(texts, generate, decode);
    RaisesIffSomeParseRaises(labels, parses, |texts|);
    forall i | 0 <= i < |texts| && parses[i].Raised?
      ensures parses[i].error == TypeError
    {
      ParsesAt(texts, generate, decode, i);
    }
  }
}
