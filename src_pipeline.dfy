/** The first revision of the fusion pipeline (`analyze` in the `src` package). It combines three
    leaf outcomes (the keyword checker's report or none, the TF-IDF report, the LLM analyzer's
    report or none) into one report. Its fallback appends to the TF-IDF report's provenance list in
    place, so the model has two layers: `Analyze` on report values, and `AnalyzeReports` on report
    objects, which also says which object is returned and which one is changed. */
module SrcPipeline {
  import opened Python
  import opened SafetyReports

  /** The analyzers' `component_name`: each analyzer's class name. */
  const KeywordCheckerName: string := "KeywordChecker"
  const LlmAnalyzerName: string := "QwenAnalyzer"
  const TfidfName: string := "TfidfClassifier"

  /** Both signals present and their labels equal. */
  predicate Agree(tfidf: SafetyReport, llm: SafetyReport) {
    llm.classLabel == tfidf.classLabel
  }

  /** The combined report built when the two classifiers agree: the LLM's label, score and texts,
      the mean of the two confidences rounded to a whole number of hundredths, and both producers, LLM first. */
  function Merge(tfidf: SafetyReport, llm: SafetyReport): (r: SafetyReport)
    ensures r.classLabel == llm.classLabel && r.score == llm.score
    ensures r.explanation == llm.explanation && r.recommendation == llm.recommendation
    ensures -0.005 <= r.confidence - (llm.confidence + tfidf.confidence) / 2.0 <= 0.005
    ensures (r.confidence * 100.0).Floor as real == r.confidence * 100.0
    ensures UnitInterval(llm.confidence) && UnitInterval(tfidf.confidence) ==> UnitInterval(r.confidence)
    ensures r.analyzer == [LlmAnalyzerName, TfidfName]
  {
    SafetyReport(
      llm.classLabel,
      llm.score,
      Round2((llm.confidence + tfidf.confidence) / 2.0),
      llm.explanation,
      llm.recommendation,
      [LlmAnalyzerName, TfidfName])
  }

  /** `analyze(prompt)` on the three leaf outcomes.
      A keyword report wins outright. Without an LLM report the TF-IDF report is returned with the
      keyword checker's name appended to its provenance and nothing else changed. When the labels
      differ, the report whose label is truthy (non-zero) is returned, the LLM's first. When they
      agree, the merged report is returned. */
  function Analyze(kw: Option<SafetyReport>, tfidf: SafetyReport, llm: Option<SafetyReport>): (r: SafetyReport)
    ensures kw.Some? ==> r == kw.value
    ensures kw.None? && llm.None? ==>
      && r.(analyzer := tfidf.analyzer) == tfidf
      && |r.analyzer| == |tfidf.analyzer| + 1
      && r.analyzer[..|tfidf.analyzer|] == tfidf.analyzer
      && r.analyzer[|tfidf.analyzer|] == KeywordCheckerName
    ensures kw.None? && llm.Some? && !Agree(tfidf, llm.value) ==>
      && (llm.value.classLabel != 0 ==> r == llm.value)
      && (llm.value.classLabel == 0 ==> r == tfidf)
    ensures kw.None? && llm.Some? && Agree(tfidf, llm.value) ==> r == Merge(tfidf, llm.value)
  {
    if kw.Some? then kw.value
    else if llm.None? then tfidf.(analyzer := tfidf.analyzer + [KeywordCheckerName])
    else if llm.value.classLabel != tfidf.classLabel then
      if llm.value.classLabel != 0 then llm.value else tfidf
    else Merge(tfidf, llm.value)
  }

  /** The caution rule: with both signals present and 0/1 labels, the result is unsafe exactly
      when either classifier says unsafe, and safe exactly when both say safe. */
  lemma UnsafeIffEitherUnsafe(tfidf: SafetyReport, llm: SafetyReport)
    requires tfidf.classLabel == Safe || tfidf.classLabel == Unsafe
    requires llm.classLabel == Safe || llm.classLabel == Unsafe
    ensures Analyze(None, tfidf, Some(llm)).classLabel == Unsafe <==>
      (llm.classLabel == Unsafe || tfidf.classLabel == Unsafe)
    ensures Analyze(None, tfidf, Some(llm)).classLabel == Safe <==>
      (llm.classLabel == Safe && tfidf.classLabel == Safe)
  {
  }

  /** The pipeline keeps the documented ranges: from well-formed leaf reports it produces a
      well-formed report, whose score (if any) still agrees with its label. */
  lemma AnalyzeKeepsWellFormed(kw: Option<SafetyReport>, tfidf: SafetyReport, llm: Option<SafetyReport>)
    requires kw.Some? ==> WellFormed(kw.value) && ScoreMatchesLabel(kw.value)
    requires WellFormed(tfidf) && ScoreMatchesLabel(tfidf)
    requires llm.Some? ==> WellFormed(llm.value) && ScoreMatchesLabel(llm.value)
    ensures WellFormed(Analyze(kw, tfidf, llm)) && ScoreMatchesLabel(Analyze(kw, tfidf, llm))
  {
  }

  /** Two agreeing unsafe reports with confidences 0.92 and 0.88 merge into confidence 0.9. */
  lemma MergedConfidenceExample(tfidf: SafetyReport, llm: SafetyReport)
    requires tfidf.classLabel == Unsafe && llm.classLabel == Unsafe
    requires llm.confidence == 0.92 && tfidf.confidence == 0.88
    ensures Analyze(None, tfidf, Some(llm)).confidence == 0.9
  {
    assert (llm.confidence + tfidf.confidence) / 2.0 == 0.9;
    assert (0.9 * 100.0 + 0.5).Floor == 90;
  }

  // ---------------------------------------------------------------------------------------------
  // Reports as mutable objects

  /** A `SafetyReport` instance: the pipeline returns the very objects the leaves produced, and
      the fallback changes one of them. */
  class ReportObject {
    var classLabel: int
    var score: Option<real>
    var confidence: real
    var explanation: string
    var recommendation: string
    var analyzer: seq<string>

    /** The report this object currently holds. */
    function Value(): SafetyReport
      reads this
    {
      SafetyReport(classLabel, score, confidence, explanation, recommendation, analyzer)
    }

    constructor (r: SafetyReport)
      ensures Value() == r
    {
      classLabel := r.classLabel;
      score := r.score;
      confidence := r.confidence;
      explanation := r.explanation;
      recommendation := r.recommendation;
      analyzer := r.analyzer;
    }

    /** `self.analyzer.append(name)`: one name at the end, every other field as it was. */
    method AppendAnalyzer(name: string)
      modifies this
      ensures Value() == old(Value()).(analyzer := old(analyzer) + [name])
    {
      analyzer := analyzer + [name];
    }
  }

  /** The value an optional report object holds. */
  function ValueOf(o: ReportObject?): (r: Option<SafetyReport>)
    reads o
    ensures o == null <==> r.None?
    ensures o != null ==> r == Some(o.Value())
  {
    if o == null then None else Some(o.Value())
  }

  /** `analyze(prompt)` on the leaf report objects. The returned report holds `Analyze` of what
      the leaves held on entry. A keyword report, the TF-IDF report in the fallback, and the
      winning report on disagreement are returned as the same objects; only the agreeing case
      builds a new one. Only the fallback changes anything: it appends to the TF-IDF report. */
  method AnalyzeReports(kw: ReportObject?, tfidf: ReportObject, llm: ReportObject?) returns (r: ReportObject)
    modifies tfidf
    ensures r.Value() == Analyze(old(ValueOf(kw)), old(tfidf.Value()), old(ValueOf(llm)))
    ensures kw != null ==> r == kw && unchanged(tfidf)
    ensures kw == null && llm == null ==> r == tfidf
    ensures kw == null && llm != null ==> unchanged(tfidf)
    ensures kw == null && llm != null && old(llm.classLabel) != old(tfidf.classLabel) ==>
      r == (if old(llm.classLabel) != 0 then llm else tfidf)
    ensures kw == null && llm != null && old(llm.classLabel) == old(tfidf.classLabel) ==> fresh(r)
  {
    if kw != null {
      return kw;
    }
    if llm == null {
      tfidf.AppendAnalyzer(KeywordCheckerName);
      return tfidf;
    }
    if llm.classLabel != tfidf.classLabel {
      if llm.classLabel != 0 {
        return llm;
      } else {
        return tfidf;
      }
    }
    r := new ReportObject(Merge(tfidf.Value(), llm.Value()));
  }
}
