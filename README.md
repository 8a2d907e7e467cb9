# prompt-safety-agent: a Dafny model of the safety gate

prompt-safety-agent decides whether a prompt is safe to pass to a language model. Three classifiers
look at the prompt:

- a static keyword checker: a case-insensitive, word-bounded search for blocked keywords;
- a TF-IDF + logistic-regression classifier;
- a generative LLM, whose free-text answer is parsed into a report.

A fusion pipeline combines their reports. There are two revisions of it. The first, `analyze` in
`src/pipeline.py`, merges the two reports when the classifiers agree. The second,
`SafetyPipeline.run` in `app/pipeline.py`, returns the LLM's report in that case. An offline script
evaluates an LLM on a labelled dataset. It has its own, stricter answer parser.

This project models that decision logic and proves its properties:

- the shared report record and its documented ranges;
- the keyword checker's construction and search;
- the TF-IDF adapter;
- both LLM answer parsers;
- the evaluation loop;
- both pipelines, including the first one's in-place change to the TF-IDF report.

The trained models, generation, JSON decoding, the regular-expression engine's Unicode tables and
the string-to-float parser are all parameters.

Files (one module each):

| file | module | models |
|---|---|---|
| `python.dfy` | `Python` | `None`, exceptions, NaN/inf floats, `str.strip`, `round(x, 2)` |
| `json.dfy` | `Json` | decoded JSON values, `float()` on them |
| `indices.dfy` | `Indices` | strictly increasing index lists |
| `safety_report.dfy` | `SafetyReports` | `src/utils/safety_report.py` |
| `keyword_classifier.dfy` | `KeywordClassifier` | `app/classifiers/keyword_classifier.py` |
| `tfidf_classifier.dfy` | `TfidfClassifier` | `src/classifiers/tfidf_classifier.py` |
| `llm_classifier.dfy` | `LlmClassifier` | `parse_safety_report` in `app/classifiers/llm_classifier.py` |
| `llm_safety_eval.dfy` | `LlmSafetyEval` | `parse_safety_report` and `evaluate_model` in `scripts/llm_safety_eval.py` |
| `src_pipeline.dfy` | `SrcPipeline` | `src/pipeline.py` |
| `app_pipeline.dfy` | `AppPipeline` | `app/pipeline.py` |

Modelling choices:

- **Outcomes.** A Python call that can raise is modelled as `Outcome<T>`. It is either
  `Returned(v)` or `Raised(e)`. Here `e` is `TypeError`, `ValueError` or `KeyError`.
- **Floats.** A `Float` is a finite real or `NonFinite`. `NonFinite` stands for NaN and the two
  infinities. All three fail every range check the code makes.
- **Decoding.** `json.loads` is an abstract `Decoder`, a function from text to decoded value.
  `None` stands for `JSONDecodeError`.
- **`float()` on strings.** It is an abstract `FloatParser`. `None` stands for its `ValueError`.
- **Keyword matching.** It is parameterised by `CharClasses`: a word-character predicate (`\w`)
  and a per-character case mapping (IGNORECASE).
- **Report record.** Both revisions use one record. `src/utils/safety_report.py:24` declares a
  `classifier: str` field. `src/pipeline.py:42,63` uses a list field `analyzer` instead. The model
  follows the pipeline's code: provenance is `analyzer: seq<string>`, and a report from a single
  classifier carries a one-element list. The field `label` is called `classLabel`, because `label`
  is a Dafny keyword.
- **Component names.** `component_name` is the class name (`src/analyzers/analyzer.py:25-30`). So
  the first revision's names are "KeywordChecker", "QwenAnalyzer" and "TfidfClassifier".

## Model

| member | source | states |
|---|---|---|
| `Python.IsSpace` | app/classifiers/llm_classifier.py:102 | the characters `str.isspace()` treats as whitespace, which `strip()` removes |
| `Python.TrimStart` | app/classifiers/llm_classifier.py:102 | `str.lstrip()`: leading whitespace removed |
| `Python.TrimEnd` | app/classifiers/llm_classifier.py:102 | `str.rstrip()`: trailing whitespace removed |
| `Python.Strip` | app/classifiers/llm_classifier.py:102-108 | `str.strip()` is a slice of the text with only whitespace dropped before and after it, and it neither starts nor ends with whitespace |
| `Python.StripEmptyIffBlank` | app/classifiers/llm_classifier.py:102-108 | `s.strip()` is empty exactly when every character of `s` is whitespace |
| `Python.StripIdempotent` | app/classifiers/keyword_classifier.py:19 | stripping twice is stripping once |
| `Python.TrimStartKeepsSuffix` | app/classifiers/llm_classifier.py:102 | dropping leading whitespace leaves a suffix whose first character is not whitespace, having dropped only whitespace |
| `Python.TrimEndKeepsPrefix` | app/classifiers/llm_classifier.py:102 | dropping trailing whitespace leaves a prefix whose last character is not whitespace, having dropped only whitespace |
| `Python.Round2` | src/pipeline.py:60 | `round(x, 2)` is a whole number of hundredths within 0.005 of `x` (a tie may go either way), and stays in [0, 1] when `x` is in [0, 1] |
| `Json.ToFloat` | app/classifiers/llm_classifier.py:89-90 | `float(v)` raises `ValueError` exactly for a non-numeric string and `TypeError` exactly for `null`, a list or a dict; it never raises `KeyError`; it maps numbers to themselves, booleans to 1.0/0.0, and a numeric string to the value the string parser gives it |
| `SafetyReports.WellFormed` | src/utils/safety_report.py:10-24 | the documented ranges: label 0 or 1, confidence in [0, 1], a score in [0, 1] when present, and a named producer |
| `SafetyReports.ScoreMatchesLabel` | app/classifiers/llm_classifier.py:110-113 | a present score exceeds 0.5 exactly when the label is unsafe, the threshold the classifiers label by |
| `KeywordClassifier.NormalizeKeywords` | app/classifiers/keyword_classifier.py:19 | the keyword list is no longer than the file; no keyword is empty, and each is its own strip |
| `KeywordClassifier.NonBlankLines` | app/classifiers/keyword_classifier.py:19 | the indices of the lines that are not blank after stripping, in increasing order, and no others |
| `KeywordClassifier.KeywordsAreStrippedNonBlankLines` | app/classifiers/keyword_classifier.py:18-19 | there are as many keywords as non-blank lines, and keyword `k` is the stripped `k`-th non-blank line, in file order |
| `KeywordClassifier.Compile` | app/classifiers/keyword_classifier.py:21-24 | the alternatives are the keywords in list order, each matched literally; with no keywords the group is empty, so the pattern is the single empty alternative (`\b()\b`) |
| `KeywordClassifier.Init` | app/classifiers/keyword_classifier.py:17-24 | the state after `__init__`: the normalised keywords, all non-empty and stripped, and the pattern compiled from them |
| `KeywordClassifier.Boundary` | app/classifiers/keyword_classifier.py:22 | `\b` at a position: exactly one of the two neighbouring characters is a word character, the ends of the text counting as non-word |
| `KeywordClassifier.AlternativeAt` | app/classifiers/keyword_classifier.py:21-24 | `\b` `w` `\b` matches at a position: boundaries on both sides and `w` equal to the text there up to case |
| `KeywordClassifier.FirstAlternativeAt` | app/classifiers/keyword_classifier.py:22 | at a fixed position, the earliest keyword in list order that matches between word boundaries, and none before it matches |
| `KeywordClassifier.SearchFrom` | app/classifiers/keyword_classifier.py:36 | `pattern.search`: the leftmost position where some keyword matches, with the first such keyword; no keyword matches at any earlier position |
| `KeywordClassifier.Search` | app/classifiers/keyword_classifier.py:36 | `pattern.search` from the start: a match is a case-insensitive, word-bounded occurrence of one of the alternatives, at the leftmost position where any alternative matches and with the first alternative that matches there; `None` exactly when no alternative matches anywhere |
| `KeywordClassifier.MatchedText` | app/classifiers/keyword_classifier.py:38 | `match.group(0)`: the prompt's own text the match covers |
| `KeywordClassifier.Explanation` | app/classifiers/keyword_classifier.py:43 | the explanation f-string quoting the matched word |
| `KeywordClassifier.BlockedReport` | app/classifiers/keyword_classifier.py:39-46 | the blocked-word report is within the documented ranges, and its score agrees with its label |
| `KeywordClassifier.Report` | app/classifiers/keyword_classifier.py:26-47 | `None` exactly when no alternative of the compiled pattern matches anywhere between word boundaries (with no keywords the empty alternative matches at any word); otherwise label 1, score 1.0, confidence 1.0, the fixed recommendation and provenance "StaticKeywordChecker" |
| `KeywordClassifier.ReportQuotesLeftmostFirstKeyword` | app/classifiers/keyword_classifier.py:36-43 | the reported match is at the leftmost matching position, with the earliest matching keyword there, and the explanation quotes the prompt's own text at that spot |
| `KeywordClassifier.KeywordNotInsideLongerWord` | app/classifiers/keyword_classifier.py:22 | when case-equivalent characters agree on being word characters, a keyword that starts and ends with word characters never matches where a word character adjoins it |
| `KeywordClassifier.FirstWordChar` | app/classifiers/keyword_classifier.py:22 | every text holding a word character has a first one, and no word character comes before it |
| `KeywordClassifier.EmptyAlternativeMatchesAnyWord` | app/classifiers/keyword_classifier.py:22-24 | the pattern `\b()\b` finds a match exactly when the prompt holds a word character, and it is the empty alternative |
| `KeywordClassifier.EmptyKeywordListFlagsAnyWord` | app/classifiers/keyword_classifier.py:19-24 | with no keywords, a prompt is flagged exactly when it holds a word character, and the quoted word is empty |
| `TfidfClassifier.PyIndex` | src/classifiers/tfidf_classifier.py:35 | `probas[label]` with Python indexing, negative indices counting from the end |
| `TfidfClassifier.Analyze` | src/classifiers/tfidf_classifier.py:21-51 | a report is always produced; its label is the predicted class and its confidence that class's probability (Python indexing); the score is absent; provenance is the class name; the risk explanation and the block recommendation appear exactly for label 1, and the no-risk pair for any other label |
| `TfidfClassifier.AnalyzeWellFormed` | src/utils/safety_report.py:10-24 | a 0/1 prediction with two probabilities in [0, 1] gives a report within the documented ranges |
| `TfidfClassifier.ArgmaxConfidenceAtLeastHalf` | src/classifiers/tfidf_classifier.py:33-35 | when the predicted class is the more probable one of two that sum to 1, the confidence is at least 0.5 |
| `TfidfClassifier.AnalyzeDependsOnlyOnPrediction` | src/classifiers/tfidf_classifier.py:33-51 | two prompts with the same prediction and probabilities get the same report |
| `LlmClassifier.SpanAt` | app/classifiers/llm_classifier.py:75 | a match of `\{.*\}` with DOTALL: a `{`, anything, then a `}` |
| `LlmClassifier.FirstIndexOf` | app/classifiers/llm_classifier.py:75 | the first position at or after `from` holding the character, and none before it |
| `LlmClassifier.LastIndexOf` | app/classifiers/llm_classifier.py:75 | the last position before `upto` holding the character, and none after it |
| `LlmClassifier.SpanBounds` | app/classifiers/llm_classifier.py:75-80 | `re.search(r"\{.*\}", text, re.DOTALL)`: no match exactly when no `{` is followed later by `}`; otherwise the match is the leftmost, and the longest at that start |
| `LlmClassifier.ExtractSpan` | app/classifiers/llm_classifier.py:75-80 | the matched text exists exactly when a `{` is followed later by `}`; it starts with `{`, ends with `}`, and is the match that starts leftmost and, at that start, is longest |
| `LlmClassifier.SpanIsFirstOpenToLastClose` | app/classifiers/llm_classifier.py:75-80 | the match runs from the first `{` to the last `}`, inclusive |
| `LlmClassifier.HasRequiredKeys` | app/classifiers/llm_classifier.py:84-85 | the four required keys are all present in the dict |
| `LlmClassifier.IsNonBlankString` | app/classifiers/llm_classifier.py:102-106 | `isinstance(v, str) and v.strip()` |
| `LlmClassifier.NonBlankStringIff` | app/classifiers/llm_classifier.py:102-108 | `isinstance(v, str) and v.strip()` holds exactly for a string that is not all whitespace |
| `LlmClassifier.Caught` | app/classifiers/llm_classifier.py:123-125 | a `TypeError` or `KeyError` turns into `None`; a `ValueError` is not in the caught tuple and escapes |
| `LlmClassifier.JudgmentReport` | app/classifiers/llm_classifier.py:110-122 | the built report carries the score, the confidence, both texts and provenance "LLMPromptClassifier"; it is within the documented ranges, and its label is 1 exactly when the score exceeds 0.5 |
| `LlmClassifier.FromObject` | app/classifiers/llm_classifier.py:84-125 | a report it returns is within the documented ranges, and its score agrees with its label; the only exception that escapes is `ValueError` |
| `LlmClassifier.ParseSafetyReport` | app/classifiers/llm_classifier.py:62-125 | a returned report is within the documented ranges, its score agrees with its label, and its provenance is "LLMPromptClassifier"; the only exception that escapes is `ValueError` |
| `LlmClassifier.NoSpanGivesNone` | app/classifiers/llm_classifier.py:75-78 | without a `{` followed later by a `}`, the result is `None`, whatever the decoder does |
| `LlmClassifier.DecodesOnlyTheSpan` | app/classifiers/llm_classifier.py:80-82 | with a match, the parse depends only on the decoding of the text from the first `{` to the last `}` |
| `LlmClassifier.MissingKeyGivesNone` | app/classifiers/llm_classifier.py:84-87 | a dict missing any of the four required keys gives `None` |
| `LlmClassifier.TypeErrorGivesNone` | app/classifiers/llm_classifier.py:89-125 | a score of `null`, a list or a dict, or such a confidence once the score has converted, gives `None` (its `TypeError` is caught) |
| `LlmClassifier.ValueErrorEscapes` | app/classifiers/llm_classifier.py:89-125 | for a dict with the four keys, the parse raises exactly when the score, or a convertible score's confidence, is a non-numeric string, and the exception is `ValueError` |
| `LlmClassifier.OutOfRangeGivesNone` | app/classifiers/llm_classifier.py:94-100 | with both values converted, a score or confidence outside [0.0, 1.0] (or NaN/inf) gives `None`; both bounds are inclusive |
| `LlmClassifier.BlankTextGivesNone` | app/classifiers/llm_classifier.py:102-108 | an explanation or recommendation that is not a string, or is all whitespace, gives no report: `None`, unless an unconvertible score or confidence raises `ValueError` first |
| `LlmClassifier.ParsedReportIff` | app/classifiers/llm_classifier.py:84-122 | a dict gives a report exactly when it has the keys, both values convert into [0, 1], and both texts are non-blank strings; the report then holds the converted values, the original strings, label 1 exactly when the score exceeds 0.5, and "LLMPromptClassifier" |
| `LlmClassifier.ProseBeforeObjectIsSkipped` | app/classifiers/llm_classifier.py:74-80 | prose holding no `{` in front of an object does not change the match: it is the object |
| `LlmClassifier.MissingKeysExample` | app/classifiers/llm_classifier.py:75-87 | the answer `Sure! {"score": 0.2}` gives `None` |
| `LlmSafetyEval.HasKind` | scripts/llm_safety_eval.py:89-100 | `isinstance(data[field], expected_types)`: `(float, int)` admits numbers and booleans, `str` only strings |
| `LlmSafetyEval.IsSubstring` | scripts/llm_safety_eval.py:97 | `key in s` on strings: `key` occurs in `s` as a contiguous substring |
| `LlmSafetyEval.Contains` | scripts/llm_safety_eval.py:97 | `field in data` is a key test on a dict, a membership test on a list and a substring test on a string; on any other value it raises `TypeError` |
| `LlmSafetyEval.Index` | scripts/llm_safety_eval.py:99 | `data[field]` is the value for a present dict key, `KeyError` for an absent one, and `TypeError` on anything but a dict |
| `LlmSafetyEval.CheckFields` | scripts/llm_safety_eval.py:89-100 | on a dict it never raises, and accepts exactly when every required field is present with its type; it accepts no other value; only `TypeError` can escape |
| `LlmSafetyEval.NumericValue` | scripts/llm_safety_eval.py:102-103 | `float()` on a value that passed the number check agrees with Python's `float()` |
| `LlmSafetyEval.ParseSafetyReport` | scripts/llm_safety_eval.py:79-113 | the whole text must decode, and a decode error gives `None`; the only exception that escapes is `TypeError` |
| `LlmSafetyEval.ObjectParsesIffAcceptable` | scripts/llm_safety_eval.py:88-113 | on a dict it never raises, and gives a report exactly when score and confidence are numbers (booleans included) in [0, 1] and both texts are strings (possibly empty); the report holds the converted numbers and the strings as given |
| `LlmSafetyEval.NonObjectNeverParses` | scripts/llm_safety_eval.py:96-100 | a decoded value that is not a dict never gives a report; it raises `TypeError` exactly when it is not iterable, or when it is a list holding "score" or a string containing "score" |
| `LlmSafetyEval.EmptyTextsAccepted` | scripts/llm_safety_eval.py:92-113 | empty explanation and recommendation strings are accepted |
| `LlmSafetyEval.BooleanScoreAccepted` | scripts/llm_safety_eval.py:90-103 | `true`/`false` pass the `(float, int)` check and read as 1.0/0.0 |
| `LlmSafetyEval.PredictedLabel` | scripts/llm_safety_eval.py:162-165 | the predicted label is 1 exactly when the score exceeds 0.5, and 0 otherwise |
| `LlmSafetyEval.Parses` | scripts/llm_safety_eval.py:139-156 | one parse outcome per example |
| `LlmSafetyEval.ParsesAt` | scripts/llm_safety_eval.py:139-156 | the `i`-th outcome is `parse_safety_report` of the `i`-th example's generated answer with surrounding whitespace stripped |
| `LlmSafetyEval.ParseExample` | scripts/llm_safety_eval.py:144-156 | generating, stripping and parsing the `i`-th example gives its outcome in dataset order |
| `LlmSafetyEval.Step` | scripts/llm_safety_eval.py:156-168 | one iteration: a raised parse ends the loop, `None` appends the index to `failed_indices`, a report appends the true and the predicted label |
| `LlmSafetyEval.Accumulated` | scripts/llm_safety_eval.py:125-170 | the three lists after the first `n` iterations, starting empty, or the exception that ended the loop |
| `LlmSafetyEval.RaisedPersists` | scripts/llm_safety_eval.py:139-170 | once a parse raises, the evaluation is over with that exception |
| `LlmSafetyEval.EvaluateModel` | scripts/llm_safety_eval.py:125-170 | the loop's result, the three lists or the exception that ended it, is the accumulation of its iterations over the outcomes of all examples, in order |
| `LlmSafetyEval.FailedUpTo` | scripts/llm_safety_eval.py:156-160 | the indices whose parse gave `None`, strictly increasing, and no others |
| `LlmSafetyEval.ReportedUpTo` | scripts/llm_safety_eval.py:156-168 | the indices whose parse gave a report, strictly increasing, and no others |
| `LlmSafetyEval.AccumulatedPartitions` | scripts/llm_safety_eval.py:139-168 | `failed_indices` holds exactly the failed indices, in increasing order; `y_true` and `y_pred` hold, in input order, the true and the predicted label of each example that gave a report |
| `LlmSafetyEval.AccumulatedCounts` | scripts/llm_safety_eval.py:125-170 | `len(y_true) == len(y_pred)`, and `len(y_true) + len(failed_indices)` is the number of examples |
| `LlmSafetyEval.RaisesIffSomeParseRaises` | scripts/llm_safety_eval.py:139-170 | the evaluation raises exactly when some example's parse raises; the exception is that of the first such example |
| `LlmSafetyEval.EvaluationRaisesOnlyTypeError` | scripts/llm_safety_eval.py:96-170 | with the script's parser, an evaluation that raises raises `TypeError` |
| `SrcPipeline.Merge` | src/pipeline.py:57-64 | the merged report has the LLM's label, score, explanation and recommendation; its confidence is a whole number of hundredths within 0.005 of the mean of the two (ties either way), and in [0, 1] when both are; its provenance is exactly ["QwenAnalyzer", "TfidfClassifier"] |
| `SrcPipeline.Analyze` | src/pipeline.py:25-64 | a keyword report is returned as it is; without an LLM report, the TF-IDF report comes back with one name, "KeywordChecker", appended to its provenance and every other field unchanged; on disagreement, the LLM report if its label is truthy, else the TF-IDF report; on agreement, the merged report |
| `SrcPipeline.UnsafeIffEitherUnsafe` | src/pipeline.py:45-53 | with both signals present and 0/1 labels, the result is unsafe exactly when either classifier says unsafe |
| `SrcPipeline.AnalyzeKeepsWellFormed` | src/utils/safety_report.py:10-24 | from leaf reports within the documented ranges, the result is within them too, and its score agrees with its label |
| `SrcPipeline.MergedConfidenceExample` | src/pipeline.py:60 | agreeing confidences 0.92 and 0.88 merge into 0.9 |
| `SrcPipeline.ReportObject.constructor` | src/pipeline.py:57-64 | a new report object holds the given report |
| `SrcPipeline.ReportObject.AppendAnalyzer` | src/pipeline.py:42 | `analyzer.append(name)` adds the name at the end and leaves every other field as it was |
| `SrcPipeline.ValueOf` | src/pipeline.py:28-38 | a missing report object has no value; a present one holds its fields |
| `SrcPipeline.AnalyzeReports` | src/pipeline.py:25-64 | the returned object holds `Analyze` of the inputs' values on entry; the keyword report, the TF-IDF report (fallback) and the winning report (disagreement) are returned as the same objects, and only agreement builds a new one; only the fallback changes the TF-IDF report |
| `AppPipeline.Run` | app/pipeline.py:32-59 | the result is always one of the input reports; a keyword report wins; without an LLM report, the TF-IDF report is returned verbatim; on disagreement, the LLM report if its label is truthy, else the TF-IDF report; on agreement, the LLM report |
| `AppPipeline.RunIsCautious` | app/pipeline.py:47-55 | with 0/1 labels the result is unsafe exactly when either classifier says unsafe; on disagreement it is the unsafe report |
| `AppPipeline.RunKeepsWellFormed` | app/pipeline.py:33-59 | from leaf reports within the documented ranges, the result is within them too |
| `AppPipeline.RevisionsAgreeOnVerdict` | app/pipeline.py:33-59 | both revisions give the same label, score, explanation and recommendation. In the fallback they differ only by the first revision's appended "KeywordChecker". With a keyword report, or on disagreement, they are equal |
| `AppPipeline.RunStages` | app/pipeline.py:32-59 | a keyword hit is returned without consulting the other classifiers; the run raises exactly when there was no keyword hit and the LLM parser raised, and then with `ValueError`; otherwise it is `Run` of the keyword miss, the TF-IDF report and the parsed LLM report |

## Left out

- Loading models and tokenisers, chat templates, generation and decoding of tokens are foreign ML calls. This covers `LLMPromptClassifier.__init__`/`report` and `prepare_inputs_for_model` with its unsupported-family `ValueError`. Generation is an oracle: `AppPipeline.RunStages` receives the generated text, and `LlmSafetyEval.EvaluateModel` receives a text-to-text function.
- `json.loads`, the `re` engine's Unicode word-character and case-folding tables, and Python's string-to-float parser are library internals. They are parameters (`Decoder`, `CharClasses`, `FloatParser`).
- JSON integers too large for `float()`, which raise `OverflowError`, are not distinguished from other numbers; IEEE rounding of sums and means is not modelled (floats are reals).
- `Python.Round2`: it rounds half up on exact reals, while Python's `round` rounds the binary value half-to-even. Its contract holds under either tie rule, and every property proved relies only on it (within 0.005 inclusive, whole hundredths, keeps [0, 1]). The one exception is `SrcPipeline.MergedConfidenceExample`, whose mean is not a tie.
- `KeywordClassifier.KeywordNotInsideLongerWord`: holds only for case maps under which case-equivalent characters agree on `\w`. Python's `re.IGNORECASE` tables break this: they put ι (U+03B9) in one class with U+0345 COMBINING GREEK YPOGEGRAMMENI, which is not a word character. So `\b(ι)\b` matches `"a\u0345b"` at position 1, between two word characters.
- `LlmSafetyEval.EvaluateModel`: requires as many labels as texts. This stands for the script's `assert len(X) == len(y)`. The `AssertionError` it raises on unequal lengths is not modelled.
- `TfidfClassifier.Analyze`: requires the predicted class to index the probability list. The `IndexError` the source raises otherwise, which a trained binary model never triggers, is not modelled.
- The TF-IDF classifier of the `app` package is not part of this model. `AppPipeline.RunStages` takes its report as an input.
- The leaf analyzers the first revision imports (`src.analyzers.KeywordChecker`, `QwenAnalyzer`, `TfidfClassifier`) are not shown. `SrcPipeline` takes their outcomes as inputs.
- `LlmClassifier.ParseSafetyReport`: a decoded span that is not a dict gives `None`. Text that starts with `{` can only decode to a dict, so this arm is reached only by a faulty decoder. On such a value the source would go on to `issubset` and `.keys()`.
- `print` diagnostics, file reads (keyword list, system prompt) and timing are I/O. The keyword file's lines are an input to `KeywordClassifier.Init`.
- The command line (`src/cli.py`, `__main__` of the script), the documentation servers, dataset loading, path constants and re-exports are routing and packaging.
- `src/operations/classifier.py` duplicates the TF-IDF adapter over sklearn. `src/utils/reports.py` is a superseded report draft.
- The abstract bases (`Analyzer`, `Classifier`) only fix method names. Their `component_name`/`get_class_name` appear as the name constants.
- Object identity is modelled only for the first revision, where the fallback changes a report in place. The second revision changes nothing, so it is modelled on values.
