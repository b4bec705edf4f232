/**
  The keyword-overlap ATS scorer of lib/ats-scoring.ts.

  Both texts are lower-cased and every character that is neither a word
  character nor whitespace becomes a space; each text yields up to 50 frequent
  keywords; the job description's keywords are split into those the resume
  also yields and those it does not; the score is the rounded match
  percentage, plus 10 when the job description has at least 10 keywords and
  at least 5 of them match, capped at 100. A separate section analysis tests
  three fixed vocabularies by substring containment.
 */
module AtsScoring {
  import opened Chars
  import opened Seqs
  import opened Rewrite

  // ---------------------------------------------------------------------
  // Result types

  datatype SectionMatch = SectionMatch(matched: seq<string>, missing: seq<string>)

  datatype SectionAnalysis = SectionAnalysis(skills: SectionMatch, experience: SectionMatch, summary: SectionMatch)

  /** A non-negative rational number: `matchPercentage` is the exact
      `100 * matchedCount / totalKeywords`, or 0 when there are no keywords. */
  datatype Fraction = Fraction(numerator: nat, denominator: nat)

  /** The fields of the result that keyword matching produces. */
  datatype KeywordMatch = KeywordMatch(
    score: int,
    matched: seq<string>,
    missing: seq<string>,
    total: nat,
    percentage: Fraction)

  datatype ATSScoreResult = ATSScoreResult(
    score: int,
    matchedKeywords: seq<string>,
    missingKeywords: seq<string>,
    totalKeywords: nat,
    matchPercentage: Fraction,
    analysis: SectionAnalysis)

  // ---------------------------------------------------------------------
  // Normalisation and tokenisation

  /** `text.toLowerCase().replace(/[^\w\s]/g, " ")` */
  function Normalize(text: string): (r: string)
    ensures |r| == |text|
    ensures NoUpper(r)
    ensures forall i :: 0 <= i < |r| ==> IsWord(r[i]) || IsSpace(r[i])
    ensures forall i :: 0 <= i < |text| ==>
      r[i] == if IsWord(text[i]) || IsSpace(text[i]) then Lower(text[i]) else ' '
  {
    Map(LowerStr(text), PunctuationToSpace)
  }

  function PunctuationToSpace(c: char): char
  {
    if IsWord(c) || IsSpace(c) then c else ' '
  }

  /** The non-empty pieces of `text.split(/\s+/)`: its maximal runs of
      non-whitespace characters, in order. (The empty pieces `split` yields
      for leading or trailing whitespace never pass the length filter.) */
  function Tokens(text: string): (r: seq<string>)
    ensures forall w :: w in r ==> |w| > 0 && forall c :: c in w ==> c in text && !IsSpace(c)
    decreases |text|
  {
    if text == [] then []
    else if IsSpace(text[0]) then Tokens(text[1..])
    else
      var n := RunLength(text, NotSpace);
      [text[..n]] + Tokens(text[n..])
  }

  predicate NotSpace(c: char) { !IsSpace(c) }

  /** The stop-word set of lib/ats-scoring.ts:58-132. */
  const StopWords: set<string> := {
    "a", "an", "and", "are", "as", "at", "be", "by", "for", "from", "has", "he",
    "in", "is", "it", "its", "of", "on", "that", "the", "to", "was", "will",
    "with", "i", "you", "your", "we", "they", "them", "their", "this", "but",
    "have", "had", "what", "when", "where", "who", "which", "why", "how", "all",
    "any", "both", "each", "few", "more", "most", "other", "some", "such", "no",
    "nor", "not", "only", "own", "same", "so", "than", "too", "very", "can",
    "just", "should", "now", "would", "could", "may", "might", "must", "shall"}

  predicate LongerThanTwo(w: string) { |w| > 2 }
    /** `/^[a-zA-Z]+$/.test(w)` */
  predicate Alphabetic(w: string) { |w| > 0 && AllLetters(w) }

  /** The words `extractKeywords` counts: tokens longer than two characters,
      not stop words, purely alphabetic, then lower-cased. The stop-word test
      sees the token before it is lower-cased. */
  function KeywordTokens(text: string): seq<string>
  {
    KeywordTokensExcept(text, StopWords)
  }

  /** The same filter chain for any set of excluded words. */
  function KeywordTokensExcept(text: string, stop: set<string>): seq<string>
  {
    Map(Filter(Filter(Filter(Tokens(text), LongerThanTwo), NotIn(stop)), Alphabetic), LowerStr)
  }

  function NotIn(stop: set<string>): string -> bool { w => w !in stop }

  // ---------------------------------------------------------------------
  // Frequency counting, the stable sort and the top 50

  /** The frequency dictionary `wordCount` once the loop over `words` is
      done: each word adds one to its entry, which starts at 0. */
  function CountMap(words: seq<string>): (m: map<string, nat>)
  {
    if words == [] then map[]
    else
      var m := CountMap(words[..|words| - 1]);
      var w := words[|words| - 1];
      assert words == words[..|words| - 1] + [w];
      m[w := CountOf(m, w) + 1]
  }

  function CountOf(counts: map<string, nat>, w: string): nat
  {
    if w in counts then counts[w] else 0
  }

  /** `wordCount[w] >= 2`. The dictionary is a plain object, so for the key
      "constructor" the first `wordCount[w] || 0` reads the inherited
      `Object.prototype.constructor` function and the entry becomes a string,
      which never compares `>= 2`. */
  predicate Frequent(counts: map<string, nat>, w: string)
  {
    CountOf(counts, w) >= 2 && w != "constructor"
  }

  function IsFrequentIn(counts: map<string, nat>): string -> bool
  {
    w => Frequent(counts, w)
  }

  /** Position at which a word of count `c` enters a list sorted by
      non-increasing count: after every word whose count is at least `c`. */
  function InsertPosition(sorted: seq<string>, counts: map<string, nat>, c: nat): (k: nat)
    ensures k <= |sorted|
    ensures forall i :: 0 <= i < k ==> CountOf(counts, sorted[i]) >= c
    ensures k < |sorted| ==> CountOf(counts, sorted[k]) < c
  {
    if sorted == [] || CountOf(counts, sorted[0]) < c then 0
    else 1 + InsertPosition(sorted[1..], counts, c)
  }

  predicate SortedByCount(s: seq<string>, counts: map<string, nat>)
  {
    forall i, j :: 0 <= i < j < |s| ==> CountOf(counts, s[i]) >= CountOf(counts, s[j])
  }

  function InsertByCount(sorted: seq<string>, counts: map<string, nat>, w: string): (r: seq<string>)
    ensures |r| == |sorted| + 1
  {
    var k := InsertPosition(sorted, counts, CountOf(counts, w));
    sorted[..k] + [w] + sorted[k..]
  }

  /** `keys.sort((a, b) => counts[b] - counts[a])`. `Array.prototype.sort` is
      stable, so this is an insertion sort that puts each word after every
      earlier word of at least its count. */
  function SortByCount(s: seq<string>, counts: map<string, nat>): (r: seq<string>)
    ensures |r| == |s|
  {
    if s == [] then []
    else InsertByCount(SortByCount(s[..|s| - 1], counts), counts, s[|s| - 1])
  }

  /** Inserting into a sorted list keeps it sorted and adds exactly `w`. */
  lemma InsertByCountSorted(sorted: seq<string>, counts: map<string, nat>, w: string)
    requires SortedByCount(sorted, counts)
    ensures SortedByCount(InsertByCount(sorted, counts, w), counts)
    ensures multiset(InsertByCount(sorted, counts, w)) == multiset(sorted) + multiset{w}
  {
    var k := InsertPosition(sorted, counts, CountOf(counts, w));
    InsertSorted(sorted, counts, w, k);
    InsertMultiset(sorted, w, k);
  }

  lemma InsertMultiset(s: seq<string>, w: string, k: nat)
    requires k <= |s|
    ensures multiset(s[..k] + [w] + s[k..]) == multiset(s) + multiset{w}
  {
    assert s == s[..k] + s[k..];
  }

  lemma InsertSorted(sorted: seq<string>, counts: map<string, nat>, w: string, k: nat)
    requires SortedByCount(sorted, counts) && k <= |sorted|
    requires forall i :: 0 <= i < k ==> CountOf(counts, sorted[i]) >= CountOf(counts, w)
    requires k < |sorted| ==> CountOf(counts, sorted[k]) < CountOf(counts, w)
    ensures SortedByCount(sorted[..k] + [w] + sorted[k..], counts)
  {
    var r := sorted[..k] + [w] + sorted[k..];
    forall i, j | 0 <= i < j < |r| ensures CountOf(counts, r[i]) >= CountOf(counts, r[j]) {
      if j < k {
        assert r[i] == sorted[i] && r[j] == sorted[j];
      } else if j == k {
        assert r[i] == sorted[i];
      } else if i == k {
        assert r[j] == sorted[j - 1];
      } else if i < k {
        assert r[i] == sorted[i] && r[j] == sorted[j - 1];
      } else {
        assert r[i] == sorted[i - 1] && r[j] == sorted[j - 1];
      }
    }
  }

  /** The sort orders by non-increasing count and is a permutation. */
  lemma {:induction false} SortByCountSorted(s: seq<string>, counts: map<string, nat>)
    ensures SortedByCount(SortByCount(s, counts), counts)
    ensures multiset(SortByCount(s, counts)) == multiset(s)
  {
    if s != [] {
      var init := s[..|s| - 1];
      SortByCountSorted(init, counts);
      InsertByCountSorted(SortByCount(init, counts), counts, s[|s| - 1]);
      MultisetSnoc(s);
    }
  }

  /** The words of `s` whose count is `c`, in their order in `s`. */
  function WithCount(s: seq<string>, counts: map<string, nat>, c: nat): seq<string>
  {
    Filter(s, HasCount(counts, c))
  }

  function HasCount(counts: map<string, nat>, c: nat): string -> bool
  {
    w => CountOf(counts, w) == c
  }

  /** The frequent words of `words`, each once, by non-increasing count
      (ties in order of first occurrence). */
  function RankedWords(words: seq<string>): seq<string>
  {
    var counts := CountMap(words);
    SortByCount(Filter(Distinct(words), IsFrequentIn(counts)), counts)
  }

  /** The 50 highest-ranked words (`sortedWords.slice(0, 50)`). */
  function TopWords(words: seq<string>): seq<string>
  {
    Take(RankedWords(words), 50)
  }

  /** The keywords of a text: its 50 highest-ranked keyword tokens. */
  function Keywords(text: string): seq<string>
  {
    TopWords(KeywordTokens(text))
  }

  /** The `forEach` that fills `wordCount`. A JavaScript object lists its
      (non-numeric) keys in insertion order, so `keys` records that order. */
  method CountWords(words: seq<string>) returns (keys: seq<string>, counts: map<string, nat>)
    ensures keys == Distinct(words)
    ensures counts == CountMap(words)
  {
    keys, counts := [], map[];
    ghost var seen: seq<string> := [];
    var i := 0;
    while i < |words|
      invariant 0 <= i <= |words| && seen == words[..i]
      invariant keys == Distinct(seen)
      invariant counts == CountMap(seen)
    {
      var w := words[i];
      CountStep(seen, w);
      DistinctStep(seen, w);
      if w in counts {
        counts := counts[w := counts[w] + 1];
      } else {
        counts := counts[w := 1];
        keys := keys + [w];
      }
      seen := seen + [w];
      i := i + 1;
    }
    assert seen == words;
  }

  /** The dictionary has a key for exactly the words that occur. */
  lemma {:induction false} CountMapKeys(words: seq<string>)
    ensures forall w :: w in CountMap(words) <==> w in words
  {
    if words != [] {
      CountMapKeys(words[..|words| - 1]);
      assert words == words[..|words| - 1] + [words[|words| - 1]];
    }
  }

  /** One more word adds one to its count, which starts at 0. */
  lemma CountStep(prefix: seq<string>, w: string)
    ensures CountMap(prefix + [w]) == CountMap(prefix)[w := CountOf(CountMap(prefix), w) + 1]
  {
    var next := prefix + [w];
    assert next[..|next| - 1] == prefix && next[|next| - 1] == w;
  }

  /** One more word enters the key order unless it is already there. */
  lemma DistinctStep(prefix: seq<string>, w: string)
    ensures Distinct(prefix + [w]) == if w in CountMap(prefix) then Distinct(prefix) else Distinct(prefix) + [w]
  {
    CountMapKeys(prefix);
    var next := prefix + [w];
    assert next[..|next| - 1] == prefix && next[|next| - 1] == w;
  }

  /** `extractKeywords`, with the counting loop run as a method. */
  method ExtractKeywords(text: string) returns (r: seq<string>)
    ensures r == Keywords(text)
  {
    var words := KeywordTokens(text);
    var keys, counts := CountWords(words);
    r := Take(SortByCount(Filter(keys, IsFrequentIn(counts)), counts), 50);
  }

  // ---------------------------------------------------------------------
  // Matching and the score

  function InSeq(s: seq<string>): string -> bool { k => k in s }
  function NotInSeq(s: seq<string>): string -> bool { k => k !in s }

  /** `jdKeywords.filter((keyword) => resumeKeywords.includes(keyword))` */
  function Matched(jdKeywords: seq<string>, resumeKeywords: seq<string>): seq<string>
  {
    Filter(jdKeywords, InSeq(resumeKeywords))
  }

  /** `jdKeywords.filter((keyword) => !resumeKeywords.includes(keyword))` */
  function Missing(jdKeywords: seq<string>, resumeKeywords: seq<string>): seq<string>
  {
    Filter(jdKeywords, NotInSeq(resumeKeywords))
  }

  /** `Math.round(matchPercentage)` for `matchPercentage = m / t * 100`
      (0 when `t` is 0): the integer nearest to `100 m / t`, halves rounded up. */
  function RoundedPercentage(m: nat, t: nat): (r: nat)
    ensures t == 0 ==> r == 0
    ensures t > 0 ==> 2 * t * r <= 200 * m + t < 2 * t * r + 2 * t
    ensures m <= t ==> r <= 100
  {
    if t == 0 then 0
    else
      var d := 2 * t;
      var n := 200 * m + t;
      DivisionBounds(n, d);
      assert m <= t ==> n / d <= 100 by {
        if m <= t && n / d > 100 {
          MultiplyMonotone(d, 101, n / d);
        }
      }
      n / d
  }

  lemma DivisionBounds(n: nat, d: nat)
    requires d > 0
    ensures d * (n / d) <= n < d * (n / d) + d
  {
  }

  lemma MultiplyMonotone(d: nat, a: nat, b: nat)
    requires a <= b
    ensures d * a <= d * b
  {
  }

  function MatchPercentage(m: nat, t: nat): Fraction
  {
    if t > 0 then Fraction(100 * m, t) else Fraction(0, 1)
  }

  /** The score `calculateATSScore` arrives at from `m` matched out of `t`
      job-description keywords: the rounded percentage, raised by 10 exactly
      when `t >= 10 && m >= 5`, never above 100. */
  function ScoreFor(m: nat, t: nat): (score: int)
    ensures m <= t ==> 0 <= score <= 100
    ensures t == 0 ==> score == 0
    ensures m <= t && !(t >= 10 && m >= 5) ==> score == RoundedPercentage(m, t)
    ensures m <= t && t >= 10 && m >= 5 ==>
      score == if RoundedPercentage(m, t) + 10 < 100 then RoundedPercentage(m, t) + 10 else 100
  {
    var rounded := RoundedPercentage(m, t);
    var withBonus := if t >= 10 && m >= 5 then rounded + 10 else rounded;
    if withBonus < 100 then withBonus else 100
  }

  /** Section-vocabulary tests: `(term) => text.includes(term)` and its negation. */
  function InText(text: string): string -> bool { term => Contains(text, term) }
  function NotInText(text: string): string -> bool { term => !Contains(text, term) }

  /** `terms.filter((term) => text.includes(term))` */
  function TermsIn(terms: seq<string>, text: string): seq<string>
  {
    Filter(terms, InText(text))
  }

  /** One section of `analyzeSections`: the vocabulary terms found in the job
      description, split by whether the resume contains them. */
  function Section(vocabulary: seq<string>, resume: string, jd: string): SectionMatch
  {
    var terms := TermsIn(vocabulary, jd);
    SectionMatch(Filter(terms, InText(resume)), Filter(terms, NotInText(resume)))
  }

  /** The technical vocabulary of `extractTechnicalKeywords`, in source order
      (written in rows of eight so that the solver can index into it). */
  const TechnicalTerms: seq<string> :=
    ["javascript", "python", "java", "react", "node.js", "sql", "mongodb", "aws"] +
    ["docker", "kubernetes", "git", "html", "css", "typescript", "angular", "vue"] +
    ["express", "django", "flask", "spring", "hibernate", "postgresql", "mysql", "redis"] +
    ["elasticsearch", "kafka", "rabbitmq", "jenkins", "ci/cd", "agile", "scrum", "kanban"] +
    ["rest", "graphql", "microservices", "api", "frontend", "backend", "fullstack", "devops"] +
    ["cloud", "serverless", "lambda", "ec2", "s3", "rds", "elastic", "kubernetes"] +
    ["docker", "terraform", "ansible"]

  const ExperienceTerms: seq<string> := [
    "experience", "years", "senior", "junior", "lead", "manager", "developer",
    "engineer", "architect", "consultant", "specialist", "analyst", "coordinator",
    "supervisor", "director", "vp", "cto", "ceo", "founder", "co-founder"]

  const SummaryTerms: seq<string> := [
    "bachelor", "master", "phd", "degree", "certification", "certified",
    "expertise", "proficient", "skilled", "knowledgeable", "experienced", "proven",
    "track record", "successful", "results", "achieved", "delivered"]

  /** `analyzeSections`: works on the raw texts, only lower-cased. */
  function AnalyzeSections(resumeText: string, jobDescription: string): SectionAnalysis
  {
    var resume := LowerStr(resumeText);
    var jd := LowerStr(jobDescription);
    SectionAnalysis(
      Section(TechnicalTerms, resume, jd),
      Section(ExperienceTerms, resume, jd),
      Section(SummaryTerms, resume, jd))
  }

  /** The keyword half of `calculateATSScore`: score, matched and missing
      keywords, their total and the percentage. */
  function MatchKeywords(resumeText: string, jobDescription: string): KeywordMatch
  {
    var jdKeywords := Keywords(Normalize(jobDescription));
    var resumeKeywords := Keywords(Normalize(resumeText));
    var matched := Matched(jdKeywords, resumeKeywords);
    KeywordMatch(
      ScoreFor(|matched|, |jdKeywords|),
      matched,
      Missing(jdKeywords, resumeKeywords),
      |jdKeywords|,
      MatchPercentage(|matched|, |jdKeywords|))
  }

  /** The whole result of `calculateATSScore`. */
  function ATSScore(resumeText: string, jobDescription: string): ATSScoreResult
  {
    var k := MatchKeywords(resumeText, jobDescription);
    ATSScoreResult(k.score, k.matched, k.missing, k.total, k.percentage,
                   AnalyzeSections(resumeText, jobDescription))
  }

  /** `calculateATSScore`, with `finalScore` updated step by step. */
  method CalculateATSScore(resumeText: string, jobDescription: string) returns (result: ATSScoreResult)
    ensures result == ATSScore(resumeText, jobDescription)
  {
    var k := ScoreKeywords(resumeText, jobDescription);
    var analysis := AnalyzeSections(resumeText, jobDescription);
    result := ATSScoreResult(k.score, k.matched, k.missing, k.total, k.percentage, analysis);
  }

  /** The keyword half of `calculateATSScore`, as the source computes it. */
  method ScoreKeywords(resumeText: string, jobDescription: string) returns (k: KeywordMatch)
    ensures k == MatchKeywords(resumeText, jobDescription)
    ensures 0 <= k.score <= 100
  {
    var normalizedResume := Normalize(resumeText);
    var normalizedJD := Normalize(jobDescription);

    var jdKeywords := ExtractKeywords(normalizedJD);
    var resumeKeywords := ExtractKeywords(normalizedResume);

    var matchedKeywords := Matched(jdKeywords, resumeKeywords);
    var missingKeywords := Missing(jdKeywords, resumeKeywords);

    var totalKeywords := |jdKeywords|;
    var matchedCount := |matchedKeywords|;
    var matchPercentage := MatchPercentage(matchedCount, totalKeywords);

    var finalScore: int := RoundedPercentage(matchedCount, totalKeywords);
    if totalKeywords >= 10 && matchedCount >= 5 {
      finalScore := finalScore + 10;
    }
    if finalScore > 100 {
      finalScore := 100;
    }

    assert finalScore == ScoreFor(matchedCount, totalKeywords);
    k := KeywordMatch(finalScore, matchedKeywords, missingKeywords, totalKeywords, matchPercentage);
  }

  // ---------------------------------------------------------------------
  // Properties

  /** Worked examples of the bonus and the cap: 5 of 10 keywords give
      50 + 10, 5 of 9 give round(55.6) with no bonus, 10 of 10 are capped. */
  lemma ScoreExamples()
    ensures ScoreFor(5, 10) == 60
    ensures ScoreFor(5, 9) == 56
    ensures ScoreFor(10, 10) == 100
    ensures ScoreFor(0, 0) == 0
  {
  }

  /** Matching one more keyword never lowers the score. */
  lemma ScoreMonotone(m: nat, t: nat)
    requires m < t
    ensures ScoreFor(m, t) <= ScoreFor(m + 1, t)
  {
    DivisionMonotone(200 * m + t, 200 * (m + 1) + t, 2 * t);
  }

  lemma DivisionMonotone(a: nat, b: nat, d: nat)
    requires a <= b && d > 0
    ensures a / d <= b / d
  {
    DivisionBounds(a, d);
    DivisionBounds(b, d);
    if a / d > b / d {
      MultiplyMonotone(d, b / d + 1, a / d);
    }
  }

  /** Matched and missing split the job-description keywords: every keyword
      lands in exactly one of them, according to whether the resume's keyword
      list has the same token, and their sizes add up to `totalKeywords`. */
  lemma MatchPartition(resumeText: string, jobDescription: string)
    ensures var r := MatchKeywords(resumeText, jobDescription);
            var jd := Keywords(Normalize(jobDescription));
            var res := Keywords(Normalize(resumeText));
            && |r.matched| + |r.missing| == r.total == |jd|
            && multiset(r.matched) + multiset(r.missing) == multiset(jd)
            && (forall k :: k in r.matched <==> k in jd && k in res)
            && (forall k :: k in r.missing <==> k in jd && k !in res)
  {
    var jd := Keywords(Normalize(jobDescription));
    var res := Keywords(Normalize(resumeText));
    FilterSplit(jd, InSeq(res), NotInSeq(res));
  }

  /** Empty inputs give no keywords, a zero percentage and a zero score. */
  lemma EmptyInputs()
    ensures var r := MatchKeywords("", "");
            r.total == 0 && r.score == 0 && r.percentage == Fraction(0, 1)
            && r.matched == [] && r.missing == []
  {
    assert Tokens("") == [];
    assert KeywordTokens(Normalize("")) == [];
  }

  /** A token that survives the three filters is longer than two
      characters, alphabetic and not a stop word. */
  lemma FilteredTokenShape(text: string, stop: set<string>, t: string)
    requires t in Filter(Filter(Filter(Tokens(text), LongerThanTwo), NotIn(stop)), Alphabetic)
    ensures t in Tokens(text) && |t| > 2 && AllLetters(t) && t !in stop
  {
  }

  /** Lower-casing a token of letters keeps its length and makes it lower case. */
  lemma LowerLetters(t: string)
    requires AllLetters(t)
    ensures |LowerStr(t)| == |t| && AllLower(LowerStr(t)) && AllLetters(LowerStr(t))
  {
  }

  /** A token of a text without upper-case letters is its own lower case. */
  lemma LowerOfLowerToken(text: string, t: string)
    requires NoUpper(text) && t in Tokens(text)
    ensures LowerStr(t) == t
  {
    forall i | 0 <= i < |t| ensures !IsUpper(t[i]) {
      assert t[i] in t;
      var j :| 0 <= j < |text| && text[j] == t[i];
    }
  }

  /** Every keyword token is longer than two characters and made of lower-case
      letters; when the text has no upper-case letter (as after `Normalize`),
      it is not a stop word either. */
  lemma KeywordTokenShape(text: string)
    ensures forall w :: w in KeywordTokens(text) ==>
      |w| > 2 && Alphabetic(w) && AllLower(w) && (NoUpper(text) ==> w !in StopWords)
  {
    forall w | w in KeywordTokensExcept(text, StopWords)
      ensures |w| > 2 && Alphabetic(w) && AllLower(w) && (NoUpper(text) ==> w !in StopWords)
    {
      KeywordTokenShapeOf(text, StopWords, w);
    }
  }

  lemma KeywordTokenShapeOf(text: string, stop: set<string>, w: string)
    requires w in KeywordTokensExcept(text, stop)
    ensures |w| > 2 && Alphabetic(w) && AllLower(w) && (NoUpper(text) ==> w !in stop)
  {
    var f := Filter(Filter(Filter(Tokens(text), LongerThanTwo), NotIn(stop)), Alphabetic);
    var t := MapPreimage(f, LowerStr, w);
    FilteredTokenShape(text, stop, t);
    LowerLetters(t);
    if NoUpper(text) {
      LowerOfLowerToken(text, t);
    }
  }

  /** Sorting a duplicate-free list keeps it duplicate-free. */
  lemma {:induction false} SortKeepsDistinct(s: seq<string>, counts: map<string, nat>)
    requires NoDuplicates(s)
    ensures NoDuplicates(SortByCount(s, counts))
  {
    if s != [] {
      var init, w := s[..|s| - 1], s[|s| - 1];
      assert NoDuplicates(init);
      SortKeepsDistinct(init, counts);
      SortByCountSorted(init, counts);
      var sorted := SortByCount(init, counts);
      assert w !in init;
      assert w !in multiset(sorted);
      InsertNoDuplicates(sorted, InsertPosition(sorted, counts, CountOf(counts, w)), w);
    }
  }

  /** Inserting `w` adds it to the words of its own count after all of them,
      and leaves the words of every other count as they were. */
  lemma InsertStable(sorted: seq<string>, counts: map<string, nat>, w: string, c: nat)
    requires SortedByCount(sorted, counts)
    ensures var k := InsertPosition(sorted, counts, CountOf(counts, w));
            WithCount(sorted[..k] + [w] + sorted[k..], counts, c) ==
            WithCount(sorted, counts, c) + WithCount([w], counts, c)
  {
    var k := InsertPosition(sorted, counts, CountOf(counts, w));
    var p := HasCount(counts, c);
    var a, b := sorted[..k], sorted[k..];
    assert sorted == a + b;
    FilterConcat(a + [w], b, p);
    FilterConcat(a, [w], p);
    FilterConcat(a, b, p);
    if CountOf(counts, w) == c {
      TailBelowCount(sorted, counts, k, c);
    } else {
      assert Filter([w], p) == Filter([], p);
    }
    SwapEmpty(Filter(a, p), Filter([w], p), Filter(b, p));
  }

  /** In a list sorted by count, nothing at or after a word of count below
      `c` has count `c`. */
  lemma TailBelowCount(sorted: seq<string>, counts: map<string, nat>, k: nat, c: nat)
    requires SortedByCount(sorted, counts) && k <= |sorted|
    requires k < |sorted| ==> CountOf(counts, sorted[k]) < c
    ensures Filter(sorted[k..], HasCount(counts, c)) == []
  {
    var b := sorted[k..];
    forall i | 0 <= i < |b| ensures !HasCount(counts, c)(b[i]) {
      assert b[i] == sorted[k + i];
      if i > 0 {
        assert CountOf(counts, sorted[k + i]) <= CountOf(counts, sorted[k]);
      }
    }
    FilterNone(b, HasCount(counts, c));
  }

  /** The sort is stable: the words of any one count keep their relative
      order, so ties stay in order of first occurrence. */
  lemma {:induction false} SortStable(s: seq<string>, counts: map<string, nat>, c: nat)
    ensures WithCount(SortByCount(s, counts), counts, c) == WithCount(s, counts, c)
  {
    if s != [] {
      var init, w := s[..|s| - 1], s[|s| - 1];
      var p := HasCount(counts, c);
      SortStable(init, counts, c);
      SortByCountSorted(init, counts);
      var sorted := SortByCount(init, counts);
      InsertStable(sorted, counts, w, c);
      var tail := if p(w) then [w] else [];
      calc {
        Filter(SortByCount(s, counts), p);
        Filter(InsertByCount(sorted, counts, w), p);
        Filter(sorted, p) + Filter([w], p);
        { assert Filter([w], p) == tail; }
        Filter(init, p) + tail;
        Filter(s, p);
      }
    }
  }

  /** Words of equal count appear in increasing order of `key`. */
  predicate TiesOrdered(r: seq<string>, counts: map<string, nat>, key: string -> int)
  {
    forall i, j :: 0 <= i < j < |r| && CountOf(counts, r[i]) == CountOf(counts, r[j]) ==> key(r[i]) < key(r[j])
  }

  /** Inserting a word whose key exceeds every key in the list keeps ties in
      key order: the word goes after all the words of its count. */
  lemma InsertTies(sorted: seq<string>, counts: map<string, nat>, key: string -> int, w: string)
    requires SortedByCount(sorted, counts) && TiesOrdered(sorted, counts, key)
    requires forall x :: x in sorted ==> key(x) < key(w)
    ensures TiesOrdered(InsertByCount(sorted, counts, w), counts, key)
  {
    var k := InsertPosition(sorted, counts, CountOf(counts, w));
    InsertTiesAt(sorted, counts, key, w, k);
  }

  lemma InsertTiesAt(sorted: seq<string>, counts: map<string, nat>, key: string -> int, w: string, k: nat)
    requires SortedByCount(sorted, counts) && TiesOrdered(sorted, counts, key) && k <= |sorted|
    requires forall x :: x in sorted ==> key(x) < key(w)
    requires k < |sorted| ==> CountOf(counts, sorted[k]) < CountOf(counts, w)
    ensures TiesOrdered(sorted[..k] + [w] + sorted[k..], counts, key)
  {
    var r := sorted[..k] + [w] + sorted[k..];
    forall i, j | 0 <= i < j < |r|
      ensures CountOf(counts, r[i]) == CountOf(counts, r[j]) ==> key(r[i]) < key(r[j])
    {
      if j < k {
        assert r[i] == sorted[i] && r[j] == sorted[j];
      } else if j == k {
        assert r[i] == sorted[i] && r[j] == w;
      } else if i == k {
        AfterInsertLower(sorted, counts, w, k, j - 1);
        assert r[j] == sorted[j - 1];
      } else if i < k {
        assert r[i] == sorted[i] && r[j] == sorted[j - 1];
      } else {
        assert r[i] == sorted[i - 1] && r[j] == sorted[j - 1];
      }
    }
  }

  /** Every word from the insertion point on has a lower count than `w`. */
  lemma AfterInsertLower(sorted: seq<string>, counts: map<string, nat>, w: string, k: nat, m: nat)
    requires SortedByCount(sorted, counts) && k <= m < |sorted|
    requires CountOf(counts, sorted[k]) < CountOf(counts, w)
    ensures CountOf(counts, sorted[m]) < CountOf(counts, w)
  {
    if k < m {
      assert CountOf(counts, sorted[k]) >= CountOf(counts, sorted[m]);
    }
  }

  /** The sort is stable in terms of any key that increases along its input:
      words of equal count come out in key order. */
  lemma {:induction false} SortKeepsTies(s: seq<string>, counts: map<string, nat>, key: string -> int)
    requires IncreasingBy(s, key)
    ensures TiesOrdered(SortByCount(s, counts), counts, key)
  {
    if s != [] {
      var init, w := s[..|s| - 1], s[|s| - 1];
      assert IncreasingBy(init, key) by {
        forall i, j | 0 <= i < j < |init| ensures key(init[i]) < key(init[j]) {
          assert init[i] == s[i] && init[j] == s[j];
        }
      }
      SortKeepsTies(init, counts, key);
      SortByCountSorted(init, counts);
      var sorted := SortByCount(init, counts);
      forall x | x in sorted ensures key(x) < key(w) {
        assert x in multiset(sorted);
        var m :| 0 <= m < |init| && init[m] == x;
        assert s[m] == x;
      }
      InsertTies(sorted, counts, key, w);
    }
  }

  /** Words of equal frequency in `words` appear in order of first occurrence. */
  predicate TiesInFirstOrder(r: seq<string>, words: seq<string>)
  {
    forall i, j :: 0 <= i < j < |r| && Occurrences(words, r[i]) == Occurrences(words, r[j]) ==>
      FirstIndex(words, r[i]) < FirstIndex(words, r[j])
  }

  /** Ranked words of equal count keep their order of first occurrence. */
  lemma RankedTies(words: seq<string>)
    ensures TiesInFirstOrder(RankedWords(words), words)
  {
    var counts := CountMap(words);
    var key := FirstIndexIn(words);
    DistinctOrder(words);
    FilterIncreasing(Distinct(words), IsFrequentIn(counts), key);
    SortKeepsTies(Filter(Distinct(words), IsFrequentIn(counts)), counts, key);
    forall w ensures CountOf(counts, w) == Occurrences(words, w) {
      CountOfIsOccurrences(words, w);
    }
  }

  /** The dictionary entry of a word is its number of occurrences. */
  lemma {:induction false} CountOfIsOccurrences(words: seq<string>, w: string)
    ensures CountOf(CountMap(words), w) == Occurrences(words, w)
  {
    if words != [] {
      CountOfIsOccurrences(words[..|words| - 1], w);
    }
  }

  /** The ranked words are exactly the words occurring at least twice (other
      than "constructor"), each once, by non-increasing number of occurrences. */
  lemma RankedWordsProperties(words: seq<string>)
    ensures NoDuplicates(RankedWords(words))
    ensures forall w :: w in RankedWords(words) <==>
      w in words && Occurrences(words, w) >= 2 && w != "constructor"
    ensures var r := RankedWords(words);
      forall i, j :: 0 <= i < j < |r| ==> Occurrences(words, r[i]) >= Occurrences(words, r[j])
    ensures TiesInFirstOrder(RankedWords(words), words)
  {
    RankedTies(words);
    var counts := CountMap(words);
    var frequent := Filter(Distinct(words), IsFrequentIn(counts));
    var r := RankedWords(words);
    FilterNoDuplicates(Distinct(words), IsFrequentIn(counts));
    SortKeepsDistinct(frequent, counts);
    SortByCountSorted(frequent, counts);
    forall w ensures w in r <==> w in frequent {
      assert w in r <==> w in multiset(r);
      assert w in frequent <==> w in multiset(frequent);
    }
    forall w ensures CountOf(counts, w) == Occurrences(words, w) {
      CountOfIsOccurrences(words, w);
    }
  }

  /** The words kept are distinct, at most 50, each occurring at least
      twice (and never "constructor"), ordered by non-increasing count. */
  lemma TopWordsProperties(words: seq<string>)
    ensures var r := TopWords(words);
            && NoDuplicates(r)
            && |r| <= 50
            && (forall w :: w in r ==> w in words && Occurrences(words, w) >= 2 && w != "constructor")
            && (forall i, j :: 0 <= i < j < |r| ==> Occurrences(words, r[i]) >= Occurrences(words, r[j]))
            && TiesInFirstOrder(r, words)
  {
    RankedWordsProperties(words);
  }

  /** A word occurring at least twice (other than "constructor") is left out
      only when 50 others with at least its count fill the list. */
  lemma TopWordsComplete(words: seq<string>, w: string)
    requires w in words && Occurrences(words, w) >= 2 && w != "constructor"
    requires w !in TopWords(words)
    ensures |TopWords(words)| == 50
    ensures forall x :: x in TopWords(words) ==> Occurrences(words, x) >= Occurrences(words, w)
  {
    RankedWordsProperties(words);
    var ranked := RankedWords(words);
    var r := TopWords(words);
    var j :| 0 <= j < |ranked| && ranked[j] == w;
    assert j >= |r|;
    forall x | x in r ensures Occurrences(words, x) >= Occurrences(words, w) {
      var i :| 0 <= i < |r| && r[i] == x;
      assert ranked[i] == x;
    }
  }

  /** The keyword list `extractKeywords` returns, in terms of the text's
      keyword tokens. */
  lemma KeywordsProperties(text: string)
    ensures var r := Keywords(text);
            var words := KeywordTokens(text);
            && NoDuplicates(r)
            && |r| <= 50
            && (forall w :: w in r ==> w in words && Occurrences(words, w) >= 2 && w != "constructor")
            && (forall i, j :: 0 <= i < j < |r| ==> Occurrences(words, r[i]) >= Occurrences(words, r[j]))
            && TiesInFirstOrder(r, words)
  {
    TopWordsProperties(KeywordTokens(text));
  }

  /** Every keyword is an alphabetic lower-case token longer than two
      characters; keywords of a normalised text are never stop words. */
  lemma KeywordShape(text: string)
    ensures forall w :: w in Keywords(text) ==> |w| > 2 && Alphabetic(w) && AllLower(w)
    ensures NoUpper(text) ==> forall w :: w in Keywords(text) ==> w !in StopWords
  {
    var words := KeywordTokensExcept(text, StopWords);
    forall w | w in TopWords(words)
      ensures |w| > 2 && Alphabetic(w) && AllLower(w) && (NoUpper(text) ==> w !in StopWords)
    {
      TopWordIsWord(words, w);
      KeywordTokenShapeOf(text, StopWords, w);
    }
  }

  lemma TopWordIsWord(words: seq<string>, w: string)
    requires w in TopWords(words)
    ensures w in words
  {
    TopWordsProperties(words);
  }

  /** Keyword matching compares whole tokens: a job-description keyword is
      matched exactly when the resume's keyword list holds the same token. */
  lemma MatchIsTokenEquality(resumeText: string, jobDescription: string, k: string)
    ensures k in MatchKeywords(resumeText, jobDescription).matched <==>
            k in Keywords(Normalize(jobDescription)) && k in Keywords(Normalize(resumeText))
  {
  }

  /** One section: the matched terms are the vocabulary terms that both the
      job description and the resume contain, the missing ones those only the
      job description contains, both in vocabulary order; together they are
      the terms the job description contains. */
  lemma SectionSplit(vocabulary: seq<string>, resume: string, jd: string)
    ensures var sec := Section(vocabulary, resume, jd);
            && sec.matched == Filter(vocabulary, InBoth(jd, resume))
            && sec.missing == Filter(vocabulary, OnlyInFirst(jd, resume))
            && |sec.matched| + |sec.missing| == |TermsIn(vocabulary, jd)|
  {
    FilterFilter(vocabulary, InText(jd), InText(resume), InBoth(jd, resume));
    FilterFilter(vocabulary, InText(jd), NotInText(resume), OnlyInFirst(jd, resume));
    FilterSplit(TermsIn(vocabulary, jd), InText(resume), NotInText(resume));
  }

  function InBoth(a: string, b: string): string -> bool { term => Contains(a, term) && Contains(b, term) }
  function OnlyInFirst(a: string, b: string): string -> bool { term => Contains(a, term) && !Contains(b, term) }

  /** Substring containment: "javascript" contains "java". */
  lemma JavaInJavascript(text: string)
    requires Contains(text, "javascript")
    ensures Contains(text, "java")
  {
    var i :| 0 <= i <= |text| && "javascript" <= text[i..];
    assert "java" <= text[i..];
  }

  /** A resume and job description that both mention "javascript" count as
      matching "java" too. */
  lemma JavascriptMatchesJava(resumeText: string, jobDescription: string)
    requires Contains(LowerStr(resumeText), "javascript")
    requires Contains(LowerStr(jobDescription), "javascript")
    ensures "java" in AnalyzeSections(resumeText, jobDescription).skills.matched
  {
    JavaInJavascript(LowerStr(resumeText));
    JavaInJavascript(LowerStr(jobDescription));
    assert TechnicalTerms[2] == "java";
  }

  /** "docker" and "kubernetes" are each listed twice in the technical
      vocabulary. */
  lemma RepeatedTechnicalTerms()
    ensures TechnicalTerms[8] == TechnicalTerms[48] == "docker"
    ensures TechnicalTerms[9] == TechnicalTerms[47] == "kubernetes"
    ensures Occurrences(TechnicalTerms, "docker") >= 2
    ensures Occurrences(TechnicalTerms, "kubernetes") >= 2
  {
    OccurrencesAtLeastTwo(TechnicalTerms, "docker", 8, 48);
    OccurrencesAtLeastTwo(TechnicalTerms, "kubernetes", 9, 47);
  }

  /** A section keeps every repetition of a term that both texts contain. */
  lemma {:induction false} SectionKeepsRepeats(vocabulary: seq<string>, resume: string, jd: string, term: string)
    requires Contains(resume, term) && Contains(jd, term)
    ensures Occurrences(Section(vocabulary, resume, jd).matched, term) == Occurrences(vocabulary, term)
  {
    FilterOccurrences(vocabulary, InText(jd), term);
    FilterOccurrences(TermsIn(vocabulary, jd), InText(resume), term);
  }

  /** Hence a vocabulary term both texts contain is reported twice over. */
  lemma DockerReportedTwice(resumeText: string, jobDescription: string)
    requires Contains(LowerStr(resumeText), "docker")
    requires Contains(LowerStr(jobDescription), "docker")
    ensures Occurrences(AnalyzeSections(resumeText, jobDescription).skills.matched, "docker") >= 2
  {
    RepeatedTechnicalTerms();
    SectionKeepsRepeats(TechnicalTerms, LowerStr(resumeText), LowerStr(jobDescription), "docker");
  }
}
