/** The second revision of the fusion pipeline (`SafetyPipeline.run` in the `app` package). It
    follows the same flow as the first but never builds or changes a report: it always returns one
    of the reports its classifiers produced. */
module AppPipeline {
  import opened Python
  import opened Json
  import opened SafetyReports
  import KeywordClassifier
  import LlmClassifier
  import SrcPipeline

  /** `run` on the three leaf outcomes: a keyword report wins outright; without an LLM report the
      TF-IDF report is returned as it is; when the labels differ, the report whose label is truthy
      (non-zero) is returned, the LLM's first; when they agree, the LLM report is returned. */
  function Run(kw: Option<SafetyReport>, tfidf: SafetyReport, llm: Option<SafetyReport>): (r: SafetyReport)
    ensures r == tfidf || (kw.Some? && r == kw.value) || (llm.Some? && r == llm.value)
    ensures kw.Some? ==> r == kw.value
    ensures kw.None? && llm.None? ==> r == tfidf
    ensures kw.None? && llm.Some? && llm.value.classLabel != tfidf.classLabel ==>
      r == (if llm.value.classLabel != 0 then llm.value else tfidf)
    ensures kw.None? && llm.Some? && llm.value.classLabel == tfidf.classLabel ==> r == llm.value
  {
    if kw.Some? then kw.value
    else if llm.None? then tfidf
    else if llm.value.classLabel != tfidf.classLabel then
      if llm.value.classLabel != 0 then llm.value else tfidf
    else llm.value
  }

  /** With both signals present and 0/1 labels, the returned report is unsafe exactly when either
      classifier says unsafe; on disagreement it is the unsafe one. */
  lemma RunIsCautious(tfidf: SafetyReport, llm: SafetyReport)
    requires tfidf.classLabel == Safe || tfidf.classLabel == Unsafe
    requires llm.classLabel == Safe || llm.classLabel == Unsafe
    ensures Run(None, tfidf, Some(llm)).classLabel == Unsafe <==>
      (llm.classLabel == Unsafe || tfidf.classLabel == Unsafe)
    ensures llm.classLabel != tfidf.classLabel ==>
      Run(None, tfidf, Some(llm)) == (if llm.classLabel == Unsafe then llm else tfidf)
  {
  }

  /** Since the result is one of the inputs, any property every input has, the result has; in
      particular the documented ranges and the score threshold. */
  lemma RunKeepsWellFormed(kw: Option<SafetyReport>, tfidf: SafetyReport, llm: Option<SafetyReport>)
    requires kw.Some? ==> WellFormed(kw.value) && ScoreMatchesLabel(kw.value)
    requires WellFormed(tfidf) && ScoreMatchesLabel(tfidf)
    requires llm.Some? ==> WellFormed(llm.value) && ScoreMatchesLabel(llm.value)
    ensures WellFormed(Run(kw, tfidf, llm)) && ScoreMatchesLabel(Run(kw, tfidf, llm))
  {
  }

  /** The two revisions decide alike: on the same leaf outcomes they give the same label, score,
      explanation and recommendation. They differ only in provenance in the fallback (the first
      revision appends the keyword checker's name) and in the merged confidence and provenance when
      the classifiers agree. */
  lemma RevisionsAgreeOnVerdict(kw: Option<SafetyReport>, tfidf: SafetyReport, llm: Option<SafetyReport>)
    ensures var a, b := SrcPipeline.Analyze(kw, tfidf, llm), Run(kw, tfidf, llm);
      && a.classLabel == b.classLabel && a.score == b.score
      && a.explanation == b.explanation && a.recommendation == b.recommendation
    ensures kw.None? && llm.None? ==>
      SrcPipeline.Analyze(kw, tfidf, llm) == Run(kw, tfidf, llm).(analyzer := tfidf.analyzer + [SrcPipeline.KeywordCheckerName])
    ensures (kw.Some? || (llm.Some? && llm.value.classLabel != tfidf.classLabel)) ==>
      SrcPipeline.Analyze(kw, tfidf, llm) == Run(kw, tfidf, llm)
  {
  }

  /** `run(prompt)` with its classifiers wired in: the keyword checker's `report`, the TF-IDF
      report (its classifier is not part of this model), and the LLM classifier's `report`, which
      strips the generated text and parses it. The keyword stage short-circuits the others; a
      `ValueError` from the LLM parser escapes `run`. */
  function RunStages(checker: KeywordClassifier.StaticKeywordChecker, cc: KeywordClassifier.CharClasses,
                     prompt: string, tfidfReport: SafetyReport, generated: string,
                     decode: Decoder, parseFloat: FloatParser): (r: Outcome<SafetyReport>)
    ensures KeywordClassifier.Report(checker, cc, prompt).Some? ==>
      r == Returned(KeywordClassifier.Report(checker, cc, prompt).value)
    ensures r.Raised? <==>
      KeywordClassifier.Report(checker, cc, prompt).None? &&
      LlmClassifier.ParseSafetyReport(Strip(generated), decode, parseFloat).Raised?
    ensures r.Raised? ==> r.error == ValueError
    ensures r.Returned? && KeywordClassifier.Report(checker, cc, prompt).None? ==>
      r.value == Run(None, tfidfReport, LlmClassifier.ParseSafetyReport(Strip(generated), decode, parseFloat).value)
  {
    var kw := KeywordClassifier.Report(checker, cc, prompt);
    if kw.Some? then Returned(kw.value)
    else
      match LlmClassifier.ParseSafetyReport(Strip(generated), decode, parseFloat)
      case Raised(e) => Raised(e)
      case Returned(llm) => Returned(Run(None, tfidfReport, llm))
  }
}
