/** The report every classifier and both pipelines produce. */
module SafetyReports {
  import opened Python

  /** One safety assessment of a prompt.
      `label` is 0 (safe) or 1 (unsafe); `score` is an optional unsafety score; `confidence` is the
      classifier's certainty in its label; `analyzer` names, in order, the mechanisms that produced
      the report (a report from one classifier names just that one). */
  datatype SafetyReport = SafetyReport(
    classLabel: int,
    score: Option<real>,
    confidence: real,
    explanation: string,
    recommendation: string,
    analyzer: seq<string>)

  const Safe: int := 0
  const Unsafe: int := 1

  predicate UnitInterval(x: real) {
    0.0 <= x <= 1.0
  }

  /** The documented field ranges: a 0/1 label, a confidence in [0, 1], a score in [0, 1] when
      there is one, and at least one named producer. */
  predicate WellFormed(r: SafetyReport) {
    && (r.classLabel == Safe || r.classLabel == Unsafe)
    && UnitInterval(r.confidence)
    && (r.score.Some? ==> UnitInterval(r.score.value))
    && r.analyzer != []
  }

  /** The score-to-label threshold: where a score is present, it exceeds 0.5 exactly when the
      label is unsafe. */
  predicate ScoreMatchesLabel(r: SafetyReport) {
    r.score.Some? ==> (r.score.value > 0.5 <==> r.classLabel == Unsafe)
  }
}
