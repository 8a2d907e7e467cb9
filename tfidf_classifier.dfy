/** The statistical classifier's adapter: it turns a trained TF-IDF + logistic-regression model's
    prediction into a report. The trained model is abstract: its `predict` and `predict_proba`. */
module TfidfClassifier {
  import opened Python
  import opened SafetyReports

  /** A loaded model: the class it predicts for a prompt, and its per-class probabilities. */
  datatype TfidfModel = TfidfModel(predict: string -> int, predictProba: string -> seq<real>)

  /** `self.get_class_name()`. */
  const ClassName: string := "TfidfClassifier"

  const RiskExplanation: string := "Words in the prompt indicate risk based on statistical analysis."
  const BlockRecommendation: string := "Block this prompt and flag for review."
  const NoRiskExplanation: string := "No strong risk signals detected by statistical analysis."
  const AllowRecommendation: string := "Allow this prompt."

  /** `probas[label]` is defined: Python accepts negative indices down to `-len(probas)`. */
  predicate Indexable(probas: seq<real>, i: int) {
    -|probas| <= i < |probas|
  }

  /** Python's `probas[i]`, counting from the end for a negative `i`. */
  function PyIndex(probas: seq<real>, i: int): real
    requires Indexable(probas, i)
  {
    if i >= 0 then probas[i] else probas[|probas| + i]
  }

  /** `TfidfClassifier.analyze(prompt)`: a report is always produced. Its label is the predicted
      class and its confidence that class's probability; it carries no score; the texts are the
      risk pair for label 1 and the no-risk pair for any other label. */
  function Analyze(model: TfidfModel, prompt: string): (r: SafetyReport)
    requires Indexable(model.predictProba(prompt), model.predict(prompt))
    ensures r.classLabel == model.predict(prompt)
    ensures r.confidence == PyIndex(model.predictProba(prompt), model.predict(prompt))
    ensures r.score == None && r.analyzer == [ClassName]
    ensures r.explanation == RiskExplanation <==> r.classLabel == Unsafe
    ensures r.recommendation == BlockRecommendation <==> r.classLabel == Unsafe
    ensures r.classLabel != Unsafe ==> r.explanation == NoRiskExplanation && r.recommendation == AllowRecommendation
  {
    var probas := model.predictProba(prompt);
    var predicted := model.predict(prompt);
    var confidence := PyIndex(probas, predicted);
    var explanation := if predicted == 1 then RiskExplanation else NoRiskExplanation;
    var recommendation := if predicted == 1 then BlockRecommendation else AllowRecommendation;
    SafetyReport(predicted, None, confidence, explanation, recommendation, [ClassName])
  }

  /** The model behaves as a binary classifier on this prompt: class 0 or 1, two probabilities in [0, 1]. */
  predicate BinaryPrediction(model: TfidfModel, prompt: string) {
    var probas := model.predictProba(prompt);
    && (model.predict(prompt) == 0 || model.predict(prompt) == 1)
    && |probas| == 2
    && UnitInterval(probas[0]) && UnitInterval(probas[1])
  }

  /** A binary prediction gives a report within the documented ranges. */
  lemma AnalyzeWellFormed(model: TfidfModel, prompt: string)
    requires BinaryPrediction(model, prompt)
    ensures WellFormed(Analyze(model, prompt)) && ScoreMatchesLabel(Analyze(model, prompt))
  {
  }

  /** When the predicted class is the more probable one and the two probabilities sum to 1, the
      confidence is at least one half. */
  lemma ArgmaxConfidenceAtLeastHalf(model: TfidfModel, prompt: string)
    requires BinaryPrediction(model, prompt)
    requires model.predictProba(prompt)[0] + model.predictProba(prompt)[1] == 1.0
    requires forall c :: 0 <= c < 2 ==> model.predictProba(prompt)[c] <= model.predictProba(prompt)[model.predict(prompt)]
    ensures Analyze(model, prompt).confidence >= 0.5
  {
    var probas := model.predictProba(prompt);
    var predicted := model.predict(prompt);
    assert probas[1 - predicted] <= probas[predicted];
  }

  /** The report depends on the prompt only through the model's label and probabilities. */
  lemma AnalyzeDependsOnlyOnPrediction(model: TfidfModel, p: string, q: string)
    requires Indexable(model.predictProba(p), model.predict(p))
    requires model.predict(p) == model.predict(q) && model.predictProba(p) == model.predictProba(q)
    ensures Analyze(model, p) == Analyze(model, q)
  {
  }
}
