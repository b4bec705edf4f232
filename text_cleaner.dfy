/**
  The extracted-text cleaner of lib/text-cleaner.ts.

  `cleanExtractedText` runs up to five stages over the text, each of which
  may append one line to a shared report (`issuesFixed`): the targeted PDF
  fixes, whitespace clean-up, word-boundary repair, optional removal of
  special characters, and a final trim. `validateCleanedText` grades a text
  by subtracting fixed penalties from 100.
 */
module TextCleaner {
  import opened Chars
  import opened Seqs
  import opened Rewrite
  import opened Patterns
  import opened Whitespace

  // ---------------------------------------------------------------------
  // Options, result and the shared report

  datatype CleanTextOptions = CleanTextOptions(
    preserveFormatting: bool,
    aggressiveCleaning: bool,
    removeSpecialChars: bool,
    fixCommonIssues: bool)

  /** The defaults `cleanExtractedText` fills in for missing options. */
  const DefaultOptions := CleanTextOptions(true, true, false, true)

  datatype CleanTextResult = CleanTextResult(
    cleanedText: string,
    originalLength: nat,
    cleanedLength: nat,
    issuesFixed: seq<string>)

  /** The `issuesFixed` array that every stage appends to. */
  class IssueLog {
    var entries: seq<string>

    constructor ()
      ensures entries == []
    {
      entries := [];
    }

    method Push(issue: string)
      modifies this
      ensures entries == old(entries) + [issue]
    {
      entries := entries + [issue];
    }
  }

  // ---------------------------------------------------------------------
  // Fix lists

  /** One entry of a fix list: a global replacement. */
  datatype Fix =
    | Word(fix: WordFix)              // one of the targeted word fixes
    | SpaceBeforeCapital(marks: string) // `/([marks])([A-Z])/g` to "$1 $2"
    | DisallowedToSpace               // `/[^\w\s\-.,!?;:()"'&@#$%]/g` to " "
    | NonAsciiToSpace                 // `/[^\x00-\x7F]/g` to " "
    | SpaceRunToSpace                 // `/\s+/g` to " "

  function InMarks(marks: string): char -> bool
  {
    c => c in marks
  }

  /** The characters the first special-character fix keeps. */
  predicate Allowed(c: char)
  {
    IsWord(c) || IsSpace(c) || c in "-.,!?;:()\"'&@#$%"
  }

  function DisallowedSpace(c: char): char
  {
    if Allowed(c) then c else ' '
  }

  function NonAsciiSpace(c: char): char
  {
    if IsAscii(c) then c else ' '
  }

  function Apply(fix: Fix, s: string): string
  {
    match fix
    case Word(f) => ApplyWordFix(f, s)
    case SpaceBeforeCapital(marks) => InsertBetween(s, InMarks(marks), IsUpper)
    case DisallowedToSpace => Map(s, DisallowedSpace)
    case NonAsciiToSpace => Map(s, NonAsciiSpace)
    case SpaceRunToSpace => MapRuns(s, IsSpace, SingleSpace)
  }

  /** The fixes applied in order to `text`, and how many of them changed
      the text they were given (`fixCount`). */
  function ApplyFixes(fixes: seq<Fix>, text: string): (r: (string, nat))
    ensures r.1 <= |fixes|
    ensures r.1 == 0 ==> r.0 == text
  {
    if fixes == [] then (text, 0)
    else
      var (before, n) := ApplyFixes(fixes[..|fixes| - 1], text);
      var after := Apply(fixes[|fixes| - 1], before);
      (after, if after != before then n + 1 else n)
  }

  /** The `forEach` over a fix list, with its `fixCount` counter. */
  method RunFixes(fixes: seq<Fix>, text: string) returns (cleaned: string, fixCount: nat)
    ensures (cleaned, fixCount) == ApplyFixes(fixes, text)
    ensures fixCount <= |fixes|
  {
    cleaned, fixCount := text, 0;
    for i := 0 to |fixes|
      invariant (cleaned, fixCount) == ApplyFixes(fixes[..i], text)
    {
      assert fixes[..i + 1][..i] == fixes[..i];
      var before := cleaned;
      cleaned := Apply(fixes[i], cleaned);
      if cleaned != before {
        fixCount := fixCount + 1;
      }
    }
    assert fixes[..|fixes|] == fixes;
  }

  /** What one stage produces: the text and the lines it adds to the report. */
  datatype Stage = Stage(cleaned: string, issues: seq<string>)

  // ---------------------------------------------------------------------
  // Stage 1: targeted PDF fixes and the two splitting heuristics

  const SpecificFixes: seq<Fix> :=
    [Word(WordFixes[0]), Word(WordFixes[1]), Word(WordFixes[2]), Word(WordFixes[3]), Word(WordFixes[4])]

  /** Length of the lower-case prefix of a word: where its hump would be. */
  function Hump(w: string): nat
  {
    RunLength(w, IsLower)
  }

  /** A whole word of the form `[a-z]+[A-Z][a-z]+`. */
  predicate IsCamelWord(w: string)
  {
    var k := Hump(w);
    0 < k && k + 1 < |w| && IsUpper(w[k]) && AllLower(w[k + 1..])
  }

  /** `/\b([a-z]+)([A-Z])([a-z]+)\b/g` with its callback, on one word: a
      space before the capital when both lower-case parts are longer than
      two characters. */
  function SplitCamelWord(w: string): string
  {
    var k := Hump(w);
    if IsCamelWord(w) && k > 2 && |w| - k - 1 > 2 then w[..k] + " " + w[k..] else w
  }

  /** Length of the digit prefix of a word. */
  function DigitPrefix(w: string): nat
  {
    RunLength(w, IsDigit)
  }

  /** A whole word of the form `\d+[a-zA-Z]+`. */
  predicate IsNumberWord(w: string)
  {
    var k := DigitPrefix(w);
    0 < k < |w| && AllLetters(w[k..])
  }

  /** `/\b(\d+)([a-zA-Z]+)\b/g` with its callback, on one word: a space after
      the number when the letters are longer than two characters. */
  function SplitNumberWord(w: string): string
  {
    var k := DigitPrefix(w);
    if IsNumberWord(w) && |w| - k > 2 then w[..k] + " " + w[k..] else w
  }

  function PdfReport(n: nat): seq<string>
  {
    if n > 0 then ["Fixed " + NatToString(n) + " specific PDF parsing issues"] else []
  }

  /** `fixCommonPDFIssues` */
  function PdfStage(text: string): Stage
  {
    var (fixed, n) := ApplyFixes(SpecificFixes, text);
    var split := MapRuns(MapRuns(fixed, IsWord, SplitCamelWord), IsWord, SplitNumberWord);
    Stage(split, PdfReport(n))
  }

  method FixCommonPDFIssues(text: string, log: IssueLog) returns (cleaned: string)
    modifies log
    ensures cleaned == PdfStage(text).cleaned
    ensures log.entries == old(log.entries) + PdfStage(text).issues
  {
    var fixCount;
    cleaned, fixCount := RunFixes(SpecificFixes, text);
    if fixCount > 0 {
      log.Push("Fixed " + NatToString(fixCount) + " specific PDF parsing issues");
    }
    cleaned := MapRuns(cleaned, IsWord, SplitCamelWord);
    cleaned := MapRuns(cleaned, IsWord, SplitNumberWord);
  }

  // ---------------------------------------------------------------------
  // Stage 2: whitespace

  /** The chained replacements of `cleanWhitespace`, before the `trim`. */
  function WhitespaceRewrites(text: string): string
  {
    var s1 := MapRuns(text, IsSpace, CollapseLongSpace);
    var s2 := MapRuns(s1, IsSpace, CollapseBlankLines);
    var s3 := MapRuns(s2, IsTab, SingleSpace);
    var s4 := ReplaceCrLf(s3);
    Map(s4, CrToLf)
  }

  /** `cleanWhitespace`; `preserveFormatting` is accepted and never read. */
  function WhitespaceStage(text: string, preserveFormatting: bool): Stage
  {
    var rewritten := WhitespaceRewrites(text);
    Stage(Trim(rewritten), if |rewritten| != |text| then ["Cleaned excessive whitespace"] else [])
  }

  method CleanWhitespace(text: string, preserveFormatting: bool, log: IssueLog) returns (cleaned: string)
    modifies log
    ensures cleaned == WhitespaceStage(text, preserveFormatting).cleaned
    ensures log.entries == old(log.entries) + WhitespaceStage(text, preserveFormatting).issues
  {
    cleaned := text;
    var beforeWhitespace := |cleaned|;
    cleaned := MapRuns(cleaned, IsSpace, CollapseLongSpace);
    cleaned := MapRuns(cleaned, IsSpace, CollapseBlankLines);
    cleaned := MapRuns(cleaned, IsTab, SingleSpace);
    cleaned := ReplaceCrLf(cleaned);
    cleaned := Map(cleaned, CrToLf);
    if |cleaned| != beforeWhitespace {
      log.Push("Cleaned excessive whitespace");
    }
    cleaned := Trim(cleaned);
  }

  // ---------------------------------------------------------------------
  // Stage 3: word boundaries

  const SentenceMarks := ".!?"
  const ClauseMarks := ",;:"
  const BoundaryFixes: seq<Fix> := [SpaceBeforeCapital(SentenceMarks), SpaceBeforeCapital(ClauseMarks)]

  function BoundaryReport(n: nat): seq<string>
  {
    if n > 0 then ["Fixed " + NatToString(n) + " word boundary issues"] else []
  }

  /** `fixWordBoundaries` */
  function BoundaryStage(text: string): Stage
  {
    var (fixed, n) := ApplyFixes(BoundaryFixes, text);
    Stage(fixed, BoundaryReport(n))
  }

  method FixWordBoundaries(text: string, log: IssueLog) returns (cleaned: string)
    modifies log
    ensures cleaned == BoundaryStage(text).cleaned
    ensures log.entries == old(log.entries) + BoundaryStage(text).issues
  {
    var fixCount;
    cleaned, fixCount := RunFixes(BoundaryFixes, text);
    if fixCount > 0 {
      log.Push("Fixed " + NatToString(fixCount) + " word boundary issues");
    }
  }

  // ---------------------------------------------------------------------
  // Stage 4: special characters

  const SpecialCharFixes: seq<Fix> := [DisallowedToSpace, NonAsciiToSpace, SpaceRunToSpace]

  function SpecialReport(n: nat): seq<string>
  {
    if n > 0 then ["Removed " + NatToString(n) + " types of special characters"] else []
  }

  /** `removeSpecialCharacters` */
  function SpecialStage(text: string): Stage
  {
    var (fixed, n) := ApplyFixes(SpecialCharFixes, text);
    Stage(fixed, SpecialReport(n))
  }

  method RemoveSpecialCharacters(text: string, log: IssueLog) returns (cleaned: string)
    modifies log
    ensures cleaned == SpecialStage(text).cleaned
    ensures log.entries == old(log.entries) + SpecialStage(text).issues
  {
    var fixCount;
    cleaned, fixCount := RunFixes(SpecialCharFixes, text);
    if fixCount > 0 {
      log.Push("Removed " + NatToString(fixCount) + " types of special characters");
    }
  }

  // ---------------------------------------------------------------------
  // Stage 5: final clean-up

  /** `finalCleanup`: trim (the regex `/^\s+|\s+$/g`), collapse blank
      lines, trim again. */
  function FinalStage(text: string): Stage
  {
    Stage(Trim(MapRuns(Trim(text), IsSpace, CollapseBlankLines)), ["Applied final cleanup"])
  }

  method FinalCleanup(text: string, log: IssueLog) returns (cleaned: string)
    modifies log
    ensures cleaned == FinalStage(text).cleaned
    ensures log.entries == old(log.entries) + FinalStage(text).issues
  {
    cleaned := Trim(text);
    cleaned := MapRuns(cleaned, IsSpace, CollapseBlankLines);
    cleaned := Trim(cleaned);
    log.Push("Applied final cleanup");
  }

  // ---------------------------------------------------------------------
  // The whole cleaner

  /** The stages `cleanExtractedText` runs for the given options, in order. */
  function Stages(text: string, options: CleanTextOptions): seq<Stage>
  {
    var s1 := if options.fixCommonIssues then PdfStage(text) else Stage(text, []);
    var s2 := WhitespaceStage(s1.cleaned, options.preserveFormatting);
    var s3 := BoundaryStage(s2.cleaned);
    var s4 := if options.removeSpecialChars then SpecialStage(s3.cleaned) else Stage(s3.cleaned, []);
    var s5 := FinalStage(s4.cleaned);
    [s1, s2, s3, s4, s5]
  }

  /** `cleanExtractedText(text, options)` */
  function Clean(text: string, options: CleanTextOptions): CleanTextResult
  {
    var st := Stages(text, options);
    CleanTextResult(st[4].cleaned, |text|, |st[4].cleaned|,
                    st[0].issues + st[1].issues + st[2].issues + st[3].issues + st[4].issues)
  }

  method CleanExtractedText(text: string, options: CleanTextOptions) returns (result: CleanTextResult)
    ensures result == Clean(text, options)
  {
    var issuesFixed := new IssueLog();
    var cleanedText := text;
    var originalLength := |text|;

    ghost var s1 := Stage(text, []);
    if options.fixCommonIssues {
      cleanedText := FixCommonPDFIssues(cleanedText, issuesFixed);
      s1 := PdfStage(text);
    }
    assert cleanedText == s1.cleaned && issuesFixed.entries == s1.issues;
    ghost var s2 := WhitespaceStage(cleanedText, options.preserveFormatting);
    cleanedText := CleanWhitespace(cleanedText, options.preserveFormatting, issuesFixed);
    ghost var s3 := BoundaryStage(cleanedText);
    cleanedText := FixWordBoundaries(cleanedText, issuesFixed);
    ghost var s4 := Stage(cleanedText, []);
    if options.removeSpecialChars {
      s4 := SpecialStage(cleanedText);
      cleanedText := RemoveSpecialCharacters(cleanedText, issuesFixed);
    }
    assert cleanedText == s4.cleaned;
    assert issuesFixed.entries == s1.issues + s2.issues + s3.issues + s4.issues;
    ghost var s5 := FinalStage(cleanedText);
    cleanedText := FinalCleanup(cleanedText, issuesFixed);
    CleanOfStages(text, options, s1, s2, s3, s4, s5);

    result := CleanTextResult(cleanedText, originalLength, |cleanedText|, issuesFixed.entries);
  }

  /** `Clean` in terms of the five stages, each run on the previous one's text. */
  lemma CleanOfStages(text: string, options: CleanTextOptions, s1: Stage, s2: Stage, s3: Stage, s4: Stage, s5: Stage)
    requires s1 == if options.fixCommonIssues then PdfStage(text) else Stage(text, [])
    requires s2 == WhitespaceStage(s1.cleaned, options.preserveFormatting)
    requires s3 == BoundaryStage(s2.cleaned)
    requires s4 == if options.removeSpecialChars then SpecialStage(s3.cleaned) else Stage(s3.cleaned, [])
    requires s5 == FinalStage(s4.cleaned)
    ensures Clean(text, options) ==
      CleanTextResult(s5.cleaned, |text|, |s5.cleaned|, s1.issues + s2.issues + s3.issues + s4.issues + s5.issues)
  {
    assert Stages(text, options) == [s1, s2, s3, s4, s5];
  }

  // ---------------------------------------------------------------------
  // The quality gate

  datatype Validation = Validation(isValid: bool, issues: seq<string>, qualityScore: int)

  /** `[^\w\s]` */
  predicate IsSpecial(c: char) { !IsWord(c) && !IsSpace(c) }
  predicate IsTerminator(c: char) { c == '.' || c == '!' || c == '?' }
  predicate NotTerminator(c: char) { !IsTerminator(c) }
  predicate IsNewline(c: char) { c == '\n' }
  predicate NonBlank(w: string) { Trim(w) != [] }
  predicate AtLeastThree(w: string) { |w| >= 3 }

  /** A word matched by `/\b\w+\d+\w+\b/`: a digit with a word character
      on each side. */
  predicate HasInnerDigit(w: string)
  {
    exists i :: 0 < i < |w| - 1 && IsDigit(w[i])
  }

  /** One artifact pattern: it matches every maximal run of `runs`
      characters that is of the given `kind`, once per run. */
  datatype Artifact = Artifact(runs: char -> bool, kind: string -> bool)

  /** `/\b\w+\d+\w+\b/g`, `/\b[a-z]+[A-Z][a-z]+\b/g`, `/\s{3,}/g`, `/\n{3,}/g` */
  const Artifacts: seq<Artifact> := [
    Artifact(IsWord, HasInnerDigit),
    Artifact(IsWord, IsCamelWord),
    Artifact(IsSpace, AtLeastThree),
    Artifact(IsNewline, AtLeastThree)]

  /** `(text.match(pattern) || []).length` */
  function MatchCount(a: Artifact, text: string): nat
  {
    |Filter(Runs(text, a.runs), a.kind)|
  }

  function TotalMatches(artifacts: seq<Artifact>, text: string): nat
  {
    if artifacts == [] then 0
    else TotalMatches(artifacts[..|artifacts| - 1], text) + MatchCount(artifacts[|artifacts| - 1], text)
  }

  /** `text.split(/[.!?]+/).filter((s) => s.trim().length > 0)`: the pieces
      between runs of terminators that are not blank. */
  function Sentences(text: string): seq<string>
  {
    Filter(Runs(text, NotTerminator), NonBlank)
  }

  /** `sentences.reduce((sum, s) => sum + s.length, 0)` */
  function TotalLength(ws: seq<string>): nat
  {
    if ws == [] then 0 else TotalLength(ws[..|ws| - 1]) + |ws[|ws| - 1]|
  }

  /** The issues `validateCleanedText` can report. */
  datatype Issue =
    | TextTooShort | TextTooLong | TooManySpecial | TooMuchWhitespace
    | ManyArtifacts | SentencesTooShort | SentencesTooLong

  /** The message reported for each issue. */
  function Message(i: Issue): string
  {
    match i
    case TextTooShort => "Text too short"
    case TextTooLong => "Text too long"
    case TooManySpecial => "Too many special characters"
    case TooMuchWhitespace => "Too much whitespace"
    case ManyArtifacts => "Multiple PDF parsing artifacts detected"
    case SentencesTooShort => "Sentences too short"
    case SentencesTooLong => "Sentences too long"
  }

  /** One test of `validateCleanedText`: whether it fails, the issue it
      reports and the penalty it subtracts. */
  datatype Check = Check(failed: bool, issue: Issue, penalty: nat)

  /** The seven tests, in order, over the measures of the text: its length,
      its special and whitespace characters, its artifacts, and the total
      length and number of its sentences. The ratio tests compare by
      cross-multiplication; on empty text the source divides 0 by 0 and
      compares NaN, which is false, and so is each product comparison. */
  function ChecksOf(len: nat, special: nat, spaces: nat, artifacts: nat, sum: nat, count: nat): seq<Check>
  {
    [Check(len < 50, TextTooShort, 30),
     Check(len > 10000, TextTooLong, 10),
     Check(10 * special > len, TooManySpecial, 20),
     Check(10 * spaces > 3 * len, TooMuchWhitespace, 15),
     Check(artifacts > 10, ManyArtifacts, 25),
     Check(sum < 10 * count, SentencesTooShort, 10),
     Check(sum > 200 * count, SentencesTooLong, 10)]
  }

  function Checks(text: string): seq<Check>
  {
    var sentences := Sentences(text);
    ChecksOf(|text|, |Filter(text, IsSpecial)|, |Filter(text, IsSpace)|,
             TotalMatches(Artifacts, text), TotalLength(sentences), |sentences|)
  }

  /** A failing check appends its message and subtracts its penalty. */
  function Step(c: Check, state: (seq<string>, int)): (seq<string>, int)
  {
    if c.failed then (state.0 + [Message(c.issue)], state.1 - c.penalty) else state
  }

  /** The checks applied in order, from no issues and a score of 100. */
  function Run(checks: seq<Check>): (seq<string>, int)
  {
    if checks == [] then ([], 100) else Step(checks[|checks| - 1], Run(checks[..|checks| - 1]))
  }

  /** `validateCleanedText`: the running issues and score after the seven
      checks; the score is floored at 0 and valid from 70 up. */
  function Validate(text: string): Validation
  {
    var r := Run(Checks(text));
    Validation(r.1 >= 70, r.0, if r.1 > 0 then r.1 else 0)
  }

  lemma RunStep(done: seq<Check>, c: Check)
    ensures Run(done + [c]) == Step(c, Run(done))
  {
    assert (done + [c])[..|done|] == done;
  }

  /** The artifact `forEach`. */
  method CountArtifacts(text: string) returns (artifactCount: nat)
    ensures artifactCount == TotalMatches(Artifacts, text)
  {
    artifactCount := 0;
    for i := 0 to |Artifacts|
      invariant artifactCount == TotalMatches(Artifacts[..i], text)
    {
      assert Artifacts[..i + 1][..i] == Artifacts[..i];
      artifactCount := artifactCount + MatchCount(Artifacts[i], text);
    }
    assert Artifacts[..|Artifacts|] == Artifacts;
  }

  /** One test of `validateCleanedText`: when it fails, push its message
      and subtract its penalty. */
  method Report(c: Check, issues: seq<string>, qualityScore: int) returns (issues': seq<string>, qualityScore': int)
    ensures (issues', qualityScore') == Step(c, (issues, qualityScore))
  {
    issues', qualityScore' := issues, qualityScore;
    if c.failed {
      issues' := issues' + [Message(c.issue)];
      qualityScore' := qualityScore' - c.penalty;
    }
  }

  /** The seven tests of `validateCleanedText` over the measures of the
      text, each pushing its message and subtracting its penalty when it
      fails. */
  method Score(len: nat, specialCount: nat, whitespaceCount: nat, artifactCount: nat, sum: nat, count: nat)
    returns (issues: seq<string>, qualityScore: int)
    ensures (issues, qualityScore) == Run(ChecksOf(len, specialCount, whitespaceCount, artifactCount, sum, count))
  {
    issues := [];
    qualityScore := 100;
    ghost var checks := ChecksOf(len, specialCount, whitespaceCount, artifactCount, sum, count);
    ghost var done: seq<Check> := [];

    RunStep(done, checks[0]);
    issues, qualityScore := Report(Check(len < 50, TextTooShort, 30), issues, qualityScore);
    done := done + [checks[0]];
    RunStep(done, checks[1]);
    issues, qualityScore := Report(Check(len > 10000, TextTooLong, 10), issues, qualityScore);
    done := done + [checks[1]];
    RunStep(done, checks[2]);
    issues, qualityScore := Report(Check(10 * specialCount > len, TooManySpecial, 20), issues, qualityScore);
    done := done + [checks[2]];
    RunStep(done, checks[3]);
    issues, qualityScore := Report(Check(10 * whitespaceCount > 3 * len, TooMuchWhitespace, 15), issues, qualityScore);
    done := done + [checks[3]];
    RunStep(done, checks[4]);
    issues, qualityScore := Report(Check(artifactCount > 10, ManyArtifacts, 25), issues, qualityScore);
    done := done + [checks[4]];
    RunStep(done, checks[5]);
    issues, qualityScore := Report(Check(sum < 10 * count, SentencesTooShort, 10), issues, qualityScore);
    done := done + [checks[5]];
    RunStep(done, checks[6]);
    issues, qualityScore := Report(Check(sum > 200 * count, SentencesTooLong, 10), issues, qualityScore);
    done := done + [checks[6]];
    assert done == checks;
  }

  method ValidateCleanedText(text: string) returns (v: Validation)
    ensures v == Validate(text)
  {
    var specialCount := |Filter(text, IsSpecial)|;
    var whitespaceCount := |Filter(text, IsSpace)|;
    var artifactCount := CountArtifacts(text);
    var sentences := Sentences(text);
    var sum := TotalLength(sentences);
    var issues, qualityScore := Score(|text|, specialCount, whitespaceCount, artifactCount, sum, |sentences|);
    v := Validation(qualityScore >= 70, issues, if qualityScore > 0 then qualityScore else 0);
  }
}
