/** The static keyword checker: blocked terms, one per line of a file, matched case-insensitively
    as whole words by one compiled alternation `\b(k1|k2|...|kn)\b`. Reading the file is not
    modelled; the checker is built from the file's lines. */
module KeywordClassifier {
  import opened Python
  import opened SafetyReports
  import opened Indices

  const ClassifierName: string := "StaticKeywordChecker"
  const BlockRecommendation: string := "Block this prompt and flag for review."

  /** The character classes the regex engine consults: `isWord` is `\w` (it decides `\b`), and
      `lower` is the per-character case mapping `re.IGNORECASE` compares by. */
  datatype CharClasses = CharClasses(isWord: char -> bool, lower: char -> char)

  /** A compiled `\b(a1|a2|...|an)\b` with `re.IGNORECASE`, every `ai` passed through `re.escape`
      and so matched literally: the alternatives in order. */
  datatype Pattern = WordAlternation(alternatives: seq<string>)

  /** The checker's state after `__init__`: the keyword list and the pattern built from it. */
  datatype StaticKeywordChecker = StaticKeywordChecker(keywords: seq<string>, pattern: Pattern)

  // ---------------------------------------------------------------------------------------------
  // Construction

  /** `[line.strip() for line in f if line.strip()]`: no keyword is empty, and each is its own
      strip. */
  function NormalizeKeywords(lines: seq<string>): (keywords: seq<string>)
    ensures |keywords| <= |lines|
    ensures forall k :: 0 <= k < |keywords| ==> keywords[k] != [] && Strip(keywords[k]) == keywords[k]
  {
    if lines == [] then []
    else
      StripIdempotent(lines[0]);
      (if Strip(lines[0]) != [] then [Strip(lines[0])] else []) + NormalizeKeywords(lines[1..])
  }

  /** The positions, from `from` on, of the lines that are not blank, in file order. */
  function NonBlankLines(lines: seq<string>, from: nat): (idx: seq<nat>)
    requires from <= |lines|
    ensures IncreasingIndices(idx, from, |lines|)
    ensures forall i :: from <= i < |lines| ==> (i in idx <==> Strip(lines[i]) != [])
    decreases |lines| - from
  {
    if from == |lines| then []
    else
      var rest := NonBlankLines(lines, from + 1);
      var head: seq<nat> := if Strip(lines[from]) != [] then [from] else [];
      assert forall i :: i in head + rest <==> i in head || i in rest;
      head + rest
  }

  /** The keyword list is the stripped non-blank lines, in file order and nothing else: keyword
      `k` is the strip of the `k`-th non-blank line. */
  lemma {:induction false} KeywordsAreStrippedNonBlankLines(lines: seq<string>, from: nat)
    requires from <= |lines|
    ensures var keywords, idx := NormalizeKeywords(lines[from..]), NonBlankLines(lines, from);
      && |keywords| == |idx|
      && (forall k :: 0 <= k < |keywords| ==> keywords[k] == Strip(lines[idx[k]]))
    decreases |lines| - from
  {
    if from < |lines| {
      KeywordsAreStrippedNonBlankLines(lines, from + 1);
      var tail := lines[from..];
      assert tail[1..] == lines[from + 1..];
      assert tail[0] == lines[from];
      var restKeywords, restIdx := NormalizeKeywords(lines[from + 1..]), NonBlankLines(lines, from + 1);
      if Strip(lines[from]) != [] {
        var keywords, idx := [Strip(lines[from])] + restKeywords, [from] + restIdx;
        assert NormalizeKeywords(tail) == keywords;
        assert NonBlankLines(lines, from) == idx;
        forall k | 0 <= k < |keywords|
          ensures keywords[k] == Strip(lines[idx[k]])
        {
          if k > 0 {
            assert keywords[k] == restKeywords[k - 1] && idx[k] == restIdx[k - 1];
          }
        }
      } else {
        assert NormalizeKeywords(tail) == restKeywords;
        assert NonBlankLines(lines, from) == restIdx;
      }
    }
  }

  /** `"|".join(re.escape(word) for word in keywords)`: with no keywords the group is empty, so the
      pattern is `\b()\b`, a single empty alternative. */
  function Compile(keywords: seq<string>): (p: Pattern)
    ensures keywords != [] ==> p.alternatives == keywords
    ensures keywords == [] ==> p.alternatives == [""]
  {
    WordAlternation(if keywords == [] then [""] else keywords)
  }

  /** `StaticKeywordChecker.__init__`, given the lines of the keyword file. */
  function Init(lines: seq<string>): (c: StaticKeywordChecker)
    ensures c.keywords == NormalizeKeywords(lines) && c.pattern == Compile(c.keywords)
    ensures forall k :: 0 <= k < |c.keywords| ==> c.keywords[k] != [] && Strip(c.keywords[k]) == c.keywords[k]
  {
    var keywords := NormalizeKeywords(lines);
    StaticKeywordChecker(keywords, Compile(keywords))
  }

  // ---------------------------------------------------------------------------------------------
  // Matching: `self._pattern.search(prompt)`

  /** `\b` at position `p`: exactly one of the characters either side of `p` is a word character
      (the ends of the text count as non-word). */
  predicate Boundary(cc: CharClasses, s: string, p: int)
    requires 0 <= p <= |s|
  {
    (p > 0 && cc.isWord(s[p - 1])) != (p < |s| && cc.isWord(s[p]))
  }

  /** The escaped literal `w` matches the text at `p`, ignoring case. */
  predicate LiteralAt(cc: CharClasses, s: string, p: nat, w: string) {
    p + |w| <= |s| && forall k :: 0 <= k < |w| ==> cc.lower(s[p + k]) == cc.lower(w[k])
  }

  /** `\b` `w` `\b` matches the text at `p`. */
  predicate AlternativeAt(cc: CharClasses, s: string, p: nat, w: string)
    requires p <= |s|
  {
    Boundary(cc, s, p) && LiteralAt(cc, s, p, w) && Boundary(cc, s, p + |w|)
  }

  /** Where a match starts and which alternative produced it. */
  datatype Match = Match(start: nat, alternative: nat)

  /** At position `p`, the first alternative from index `from` on that matches. */
  function FirstAlternativeAt(cc: CharClasses, alts: seq<string>, s: string, p: nat, from: nat): (r: Option<nat>)
    requires p <= |s|
    ensures r.Some? ==> from <= r.value < |alts| && AlternativeAt(cc, s, p, alts[r.value])
    ensures forall j :: from <= j < |alts| && (r.None? || j < r.value) ==> !AlternativeAt(cc, s, p, alts[j])
    decreases |alts| - from
  {
    if from >= |alts| then None
    else if AlternativeAt(cc, s, p, alts[from]) then Some(from)
    else FirstAlternativeAt(cc, alts, s, p, from + 1)
  }

  /** The regex engine's scan from position `p` on: the first position where some alternative
      matches, and there the first alternative in order that does. */
  function SearchFrom(cc: CharClasses, alts: seq<string>, s: string, p: nat): (r: Option<Match>)
    requires p <= |s| + 1
    ensures r.Some? ==> p <= r.value.start <= |s| && r.value.alternative < |alts|
    ensures r.Some? ==> AlternativeAt(cc, s, r.value.start, alts[r.value.alternative])
    ensures r.Some? ==> forall j :: 0 <= j < r.value.alternative ==> !AlternativeAt(cc, s, r.value.start, alts[j])
    ensures forall q, j :: p <= q <= |s| && (r.None? || q < r.value.start) && 0 <= j < |alts| ==> !AlternativeAt(cc, s, q, alts[j])
    decreases |s| + 1 - p
  {
    if p > |s| then None
    else
      match FirstAlternativeAt(cc, alts, s, p, 0)
      case Some(j) => Some(Match(p, j))
      case None => SearchFrom(cc, alts, s, p + 1)
  }

  /** `pattern.search(s)`. */
  function Search(cc: CharClasses, pattern: Pattern, s: string): (r: Option<Match>)
    ensures r.Some? ==> r.value.start <= |s| && r.value.alternative < |pattern.alternatives|
    ensures r.Some? ==> AlternativeAt(cc, s, r.value.start, pattern.alternatives[r.value.alternative])
    ensures r.Some? ==> forall j :: 0 <= j < r.value.alternative ==> !AlternativeAt(cc, s, r.value.start, pattern.alternatives[j])
    ensures forall q, j :: 0 <= q <= |s| && (r.None? || q < r.value.start) && 0 <= j < |pattern.alternatives| ==>
      !AlternativeAt(cc, s, q, pattern.alternatives[j])
  {
    SearchFrom(cc, pattern.alternatives, s, 0)
  }

  /** The explanation naming the matched word. */
  function Explanation(word: string): string {
    "Word \"" + word + "\" in prompt is in list of blocked keywords."
  }

  /** The report for a blocked word. */
  function BlockedReport(word: string): (r: SafetyReport)
    ensures WellFormed(r) && ScoreMatchesLabel(r)
  {
    SafetyReport(Unsafe, Some(1.0), 1.0, Explanation(word), BlockRecommendation, [ClassifierName])
  }

  /** `match.group(0)`: the text the match covers, in the prompt's own case. */
  function MatchedText(pattern: Pattern, s: string, m: Match): string
    requires m.alternative < |pattern.alternatives| && m.start + |pattern.alternatives[m.alternative]| <= |s|
  {
    s[m.start..m.start + |pattern.alternatives[m.alternative]|]
  }

  /** `StaticKeywordChecker.report(prompt)`. */
  function Report(checker: StaticKeywordChecker, cc: CharClasses, prompt: string): (r: Option<SafetyReport>)
    ensures r.None? <==>
      forall q, j :: 0 <= q <= |prompt| && 0 <= j < |checker.pattern.alternatives| ==> !AlternativeAt(cc, prompt, q, checker.pattern.alternatives[j])
    ensures r.Some? ==> WellFormed(r.value) && ScoreMatchesLabel(r.value)
    ensures r.Some? ==> && r.value.classLabel == Unsafe && r.value.score == Some(1.0) && r.value.confidence == 1.0
                        && r.value.recommendation == BlockRecommendation && r.value.analyzer == [ClassifierName]
  {
    match Search(cc, checker.pattern, prompt)
    case None => None
    case Some(m) => Some(BlockedReport(MatchedText(checker.pattern, prompt, m)))
  }

  // ---------------------------------------------------------------------------------------------
  // Properties of the checker

  /** The match is leftmost, and at that position the earliest keyword in list order that is
      followed by a boundary wins; the explanation quotes the prompt's text there, which equals
      that keyword up to case. */
  lemma ReportQuotesLeftmostFirstKeyword(checker: StaticKeywordChecker, cc: CharClasses, prompt: string)
    requires checker.keywords != [] && checker.pattern == Compile(checker.keywords)
    requires Report(checker, cc, prompt).Some?
    ensures var keywords := checker.keywords;
      exists p, j :: && 0 <= p <= |prompt| && 0 <= j < |keywords|
                     && AlternativeAt(cc, prompt, p, keywords[j])
                     && (forall q, i :: 0 <= q < p && 0 <= i < |keywords| ==> !AlternativeAt(cc, prompt, q, keywords[i]))
                     && (forall i :: 0 <= i < j ==> !AlternativeAt(cc, prompt, p, keywords[i]))
                     && Report(checker, cc, prompt).value.explanation == Explanation(prompt[p..p + |keywords[j]|])
  {
    var keywords := checker.keywords;
    assert checker.pattern.alternatives == keywords;
    var m := SearchFrom(cc, keywords, prompt, 0).value;
    var p, j := m.start, m.alternative;
    assert AlternativeAt(cc, prompt, p, keywords[j]);
    assert Report(checker, cc, prompt).value.explanation == Explanation(prompt[p..p + |keywords[j]|]);
  }

  /** A keyword that starts and ends with word characters does not match inside a longer word:
      not where a word character precedes it, nor where one follows it. This needs case-equivalent
      characters to agree on being word characters. */
  lemma KeywordNotInsideLongerWord(cc: CharClasses, s: string, p: nat, w: string)
    requires forall c :: cc.isWord(cc.lower(c)) == cc.isWord(c)
    requires p <= |s| && w != [] && cc.isWord(w[0]) && cc.isWord(w[|w| - 1])
    requires (p > 0 && cc.isWord(s[p - 1])) || (p + |w| < |s| && cc.isWord(s[p + |w|]))
    ensures !AlternativeAt(cc, s, p, w)
  {
    if LiteralAt(cc, s, p, w) {
      assert cc.lower(s[p]) == cc.lower(w[0]);
      assert cc.isWord(s[p]) == cc.isWord(cc.lower(s[p])) == cc.isWord(cc.lower(w[0])) == cc.isWord(w[0]);
      var last := p + |w| - 1;
      assert cc.lower(s[last]) == cc.lower(w[|w| - 1]);
      assert cc.isWord(s[last]) == cc.isWord(cc.lower(s[last])) == cc.isWord(cc.lower(w[|w| - 1])) == cc.isWord(w[|w| - 1]);
    }
  }

  /** The first word character at or before a given one. */
  lemma FirstWordChar(cc: CharClasses, s: string, i: nat) returns (f: nat)
    requires i < |s| && cc.isWord(s[i])
    ensures f <= i && cc.isWord(s[f]) && forall k :: 0 <= k < f ==> !cc.isWord(s[k])
    decreases i
  {
    if exists k :: 0 <= k < i && cc.isWord(s[k]) {
      var k :| 0 <= k < i && cc.isWord(s[k]);
      f := FirstWordChar(cc, s, k);
    } else {
      f := i;
    }
  }

  /** `\b()\b` matches exactly in prompts holding a word character, and its match is empty. */
  lemma EmptyAlternativeMatchesAnyWord(cc: CharClasses, prompt: string)
    ensures SearchFrom(cc, [""], prompt, 0).Some? <==> exists i :: 0 <= i < |prompt| && cc.isWord(prompt[i])
    ensures SearchFrom(cc, [""], prompt, 0).Some? ==> SearchFrom(cc, [""], prompt, 0).value.alternative == 0
  {
    var alts: seq<string> := [""];
    if exists i :: 0 <= i < |prompt| && cc.isWord(prompt[i]) {
      var i :| 0 <= i < |prompt| && cc.isWord(prompt[i]);
      var f := FirstWordChar(cc, prompt, i);
      assert AlternativeAt(cc, prompt, f, alts[0]);
    } else {
      forall q | 0 <= q <= |prompt| ensures !Boundary(cc, prompt, q) {
      }
    }
  }

  /** With no keywords (every line blank) the pattern is `\b()\b`: any prompt holding a word
      character is flagged, and the quoted word is empty. */
  lemma EmptyKeywordListFlagsAnyWord(lines: seq<string>, cc: CharClasses, prompt: string)
    requires NormalizeKeywords(lines) == []
    ensures Report(Init(lines), cc, prompt).Some? <==> exists i :: 0 <= i < |prompt| && cc.isWord(prompt[i])
    ensures Report(Init(lines), cc, prompt).Some? ==> Report(Init(lines), cc, prompt).value.explanation == Explanation("")
  {
    var checker := Init(lines);
    assert checker.pattern == WordAlternation([""]);
    EmptyAlternativeMatchesAnyWord(cc, prompt);
  }
}
