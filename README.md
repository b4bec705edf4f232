# tailor.me text core in Dafny

This project models the string logic behind tailor.me, a resume-tailoring web app, and proves properties of that model. There are four pieces:

- **ATS keyword scorer** (`lib/ats-scoring.ts`). It normalises the resume and the job description, then extracts up to 50 frequent alphabetic keywords from each. It splits the job-description keywords into matched and missing, and computes a 0-100 score with a +10 bonus. A substring-based section analysis runs over three fixed vocabularies.
- **Extracted-text cleaner and quality gate** (`lib/text-cleaner.ts`). A five-stage cleaning pipeline appends report lines to a shared `issuesFixed` array. A penalty-based validator scores the cleaned text.
- **Upload-route cleaner** (`cleanExtractedText` in `app/api/parse-resume/route.ts`). This is the chain of regular-expression replacements that the upload handler applies.
- **Tailoring route** (`app/api/tailor/route.ts`). It checks that both texts are present. It hands them to the language model, which is a parameter of the model. It adds a skill-hit score to the model's answer.

Modules:

- `Chars`: character classes (`\w`, `\s`, ASCII letters and digits), ASCII `toLowerCase` and `trim`.
- `Seqs`: `filter`, `map`, `slice`, occurrence counts and de-duplication on sequences.
- `Rewrite`: the regular-expression shapes the sources use, written as scans:
  - a function applied to each maximal run of a character class (`/\s+/`, `/\t+/`, and `\b…\b` on word runs);
  - a space inserted between two adjacent classes (`/(X)(Y)/g` to `"$1 $2"`);
  - `\s*x\s*` replaced by a string;
  - `\r\n` replaced by `\n`.
- `Patterns`: the five whole-word fixes shared by both cleaners.
- `Whitespace`: the whitespace rewrites of the library cleaner and the fact that no run of three whitespace characters survives them.
- `AtsScoring`, `TextCleaner` (with `CleanerProperties`), `ParseResume` and `Tailor`: one module for each source file.

The imperative parts follow the source's form:

- `CountWords` fills the frequency map in a loop.
- The cleaner stages are methods that append to an `IssueLog` object, which stands for the shared `issuesFixed` array.
- `RunFixes` is the `forEach` with its `fixCount` counter.
- `Score` decrements `qualityScore` step by step.

Each method is proved equal to a specification function, and the properties are proved about those functions.

A text under 50 characters with no other problem is valid: it loses only the 30 points of the length check and scores exactly 70, and `isValid` is `qualityScore >= 70` (lib/text-cleaner.ts:310-313, 366-370). See `CleanerProperties.ShortTextStillValid`.

## Model

| member | source | states |
|---|---|---|
| Chars.LowerStr | lib/ats-scoring.ts:18-19 | lower-casing keeps the length, maps each character by ASCII `toLowerCase` and leaves no upper-case letter |
| Chars.Trim | lib/text-cleaner.ts:116 | the result has no whitespace at either end; it is empty iff the text is all whitespace, otherwise it is the slice between the leading and trailing whitespace runs |
| Chars.TrimUnchanged | lib/text-cleaner.ts:295 | trimming a text without whitespace at either end changes nothing |
| Rewrite.InsertBetween | lib/text-cleaner.ts:122-125 | inserting a space between adjacent X and Y lengthens the text exactly when such a pair exists; it adds only spaces and keeps the first and last character |
| Rewrite.MapRuns | lib/text-cleaner.ts:106-108 | a global regex replacement whose matches are exactly the maximal runs of one character class: each run is replaced by its image and every other character is kept; its properties are stated by `MapRunsSingle` and, for the uses, by `CollapseLongSpaceNoop`, `CollapseBlankLinesNoop` and `MapRunsKeepsNoPair` |
| Rewrite.MapRunsSingle | lib/text-cleaner.ts:106 | a text that is one single run of the class is replaced as a whole |
| Rewrite.ReplaceSpaced | app/api/parse-resume/route.ts:84-85 | `\s*x\s*` replaced globally: each `x` together with the whitespace on both sides becomes the replacement, and whitespace not followed by `x` is kept; its properties are `ReplaceSpacedBreaks` and `ReplaceSpacedKeepsSeparated` |
| Rewrite.InsertBetweenSeparates | lib/text-cleaner.ts:123-124 | after the insertion no X is directly followed by a Y |
| Rewrite.InsertBetweenKeepsNoPair | app/api/parse-resume/route.ts:66-68 | an insertion never creates a pair of other classes that the text did not have, so later insertions keep earlier separations |
| Rewrite.ReplaceCrLf | lib/text-cleaner.ts:109 | replacing CRLF shortens the text exactly when a CRLF pair occurs, and adds no new character |
| Patterns.FixWord | lib/text-cleaner.ts:56-62 | a whole-word fix changes a word iff the word is the fix's target (or `generate` followed by digits) |
| Patterns.ApplyWordFix | lib/text-cleaner.ts:56-62 | `text.replace(pattern, replacement)` for one word fix, applied to every maximal word run; `CollaborativeSplit`, `CollaborativeWholeWordOnly` and `GenerateNumberSplit` state it on examples and `WholeWordKeepsSeparated` in general |
| Patterns.CollaborativeSplit | lib/text-cleaner.ts:57 | "acollaborative" becomes "a collaborative" |
| Patterns.CollaborativeWholeWordOnly | lib/text-cleaner.ts:57 | because of `\b`, a longer word containing the target ("acollaboratives") is not changed |
| Patterns.GenerateNumberSplit | lib/text-cleaner.ts:61 | "generate3" becomes "generate 3" |
| Whitespace.ShortReplacementsShort | lib/text-cleaner.ts:106 | after every whitespace run of three or more is replaced by a space, no three consecutive whitespace characters remain |
| Whitespace.CollapseBlankLinesNoop | lib/text-cleaner.ts:107 | on a text without three consecutive whitespace characters, `/\n\s*\n\s*\n/` changes nothing |
| Whitespace.TabsToSpaceKeepsShort | lib/text-cleaner.ts:108 | replacing tab runs by a space keeps whitespace runs short |
| Whitespace.CrLfKeepsShort | lib/text-cleaner.ts:109 | replacing CRLF keeps whitespace runs short |
| Whitespace.CrToLfKeepsShort | lib/text-cleaner.ts:110 | replacing a lone CR by LF keeps whitespace runs short |
| Whitespace.InsertBetweenKeepsShort | lib/text-cleaner.ts:122-134 | the boundary insertions never join whitespace into a run of three |
| Whitespace.SingleSpaceChars | lib/text-cleaner.ts:149 | after `/\s+/` to a space, every character is a space or a non-whitespace character of the input |
| Whitespace.SingleSpace | lib/text-cleaner.ts:108 | the replacement " " of `/\t+/g` and `/\s+/g`, one space for a whole run; `TabsToSpaceKeepsShort` and `SingleSpaceChars` state its effect on the text |
| Whitespace.CollapseLongSpace | lib/text-cleaner.ts:106 | the replacement of `/\s{3,}/g`: a whitespace run of three or more becomes one space, a shorter run is kept; `ShortReplacementsShort` states the effect on the text |
| Whitespace.CollapseBlankLines | lib/text-cleaner.ts:107 | `/\n\s*\n\s*\n/g` on one whitespace run: with three or more line feeds, the stretch from the first to the last line feed becomes two line feeds; `CollapseBlankLinesNoop` and `CollapseBlankLinesNoNewline` state when it changes nothing |
| Whitespace.CollapseBlankLinesNoNewline | lib/text-cleaner.ts:294 | on a text without line feeds, `/\n\s*\n\s*\n/` changes nothing |
| AtsScoring.Normalize | lib/ats-scoring.ts:18-19 | normalising keeps the length; each word or whitespace character is lower-cased and every other character becomes a space |
| AtsScoring.Tokens | lib/ats-scoring.ts:134-135 | splitting on `\s+` yields nonempty tokens made of the text's non-whitespace characters |
| AtsScoring.KeywordTokens | lib/ats-scoring.ts:134-139 | the filter chain of `extractKeywords`: tokens longer than two characters, not stop words (tested before lower-casing), purely alphabetic, then lower-cased; `KeywordTokenShape` states the result |
| AtsScoring.CountMap | lib/ats-scoring.ts:141-144 | the frequency object after the `forEach`, each word adding one to an entry that starts at 0; `CountMapKeys` and `CountOfIsOccurrences` state its keys and values |
| AtsScoring.CountMapKeys | lib/ats-scoring.ts:141-144 | the frequency map has a key for exactly the words that occur |
| AtsScoring.CountWords | lib/ats-scoring.ts:141-144 | the counting loop yields the distinct words in first-occurrence order and the frequency map |
| AtsScoring.CountOfIsOccurrences | lib/ats-scoring.ts:141-144 | a word's count is its number of occurrences |
| Seqs.FirstIndex | lib/ats-scoring.ts:146 | the index of the first occurrence of a value, or the length when it does not occur; every earlier entry differs from it |
| Seqs.DistinctOrder | lib/ats-scoring.ts:141-146 | the distinct words, which `Object.keys` lists in insertion order, are in increasing order of first occurrence |
| Seqs.FilterIncreasing | lib/ats-scoring.ts:147 | a filter keeps an increasing order |
| AtsScoring.InsertByCountSorted | lib/ats-scoring.ts:148 | inserting a word behind every word of equal or higher count keeps the order non-increasing and is a permutation plus that word |
| AtsScoring.SortByCountSorted | lib/ats-scoring.ts:148 | the sort orders by non-increasing count and is a permutation of its input |
| AtsScoring.SortByCount | lib/ats-scoring.ts:148 | `sort((a, b) => counts[b] - counts[a])` as a stable insertion sort; it keeps the length, and `SortByCountSorted`, `SortStable` and `SortKeepsTies` state its order |
| AtsScoring.InsertTies | lib/ats-scoring.ts:148 | inserting a word whose key is above every listed key keeps words of equal count in increasing key order |
| AtsScoring.SortKeepsTies | lib/ats-scoring.ts:148 | when the input is in increasing key order, the sorted words of equal count are too |
| AtsScoring.RankedTies | lib/ats-scoring.ts:141-148 | ranked words of equal count are in the order of their first occurrence in the token list |
| AtsScoring.SortStable | lib/ats-scoring.ts:148 | the sort is stable: the words of each count keep their input order |
| AtsScoring.RankedWords | lib/ats-scoring.ts:141-148 | the frequent keys of the counting object in insertion order, sorted by count; `RankedWordsProperties` and `RankedTies` state its result |
| AtsScoring.TopWords | lib/ats-scoring.ts:149 | `slice(0, 50)` of the ranked words; `TopWordsProperties` and `TopWordsComplete` state its result |
| AtsScoring.SortKeepsDistinct | lib/ats-scoring.ts:146-148 | sorting distinct keys keeps them distinct |
| AtsScoring.RankedWordsProperties | lib/ats-scoring.ts:141-148 | the ranked keys are distinct, are exactly the words occurring at least twice (except "constructor"), are in non-increasing count order, and words of equal count are in first-occurrence order |
| AtsScoring.TopWordsProperties | lib/ats-scoring.ts:146-149 | the keyword list is distinct, has at most 50 entries, holds only words occurring at least twice, is in non-increasing count order, and keeps words of equal count in first-occurrence order |
| AtsScoring.TopWordsComplete | lib/ats-scoring.ts:149 | a frequent word is left out only when the list is full at 50 and every listed word is at least as frequent |
| AtsScoring.KeywordShape | lib/ats-scoring.ts:134-139 | every keyword is longer than two characters, alphabetic and lower-case, and on normalised text it is not a stop word |
| AtsScoring.KeywordTokenShape | lib/ats-scoring.ts:134-139 | every token that passes the three filters is longer than two characters, alphabetic and lower-case, and on normalised text it is not a stop word |
| AtsScoring.KeywordsProperties | lib/ats-scoring.ts:57-150 | `extractKeywords`: distinct, at most 50, each occurring at least twice among the filtered tokens, in non-increasing count order, with ties in first-occurrence order |
| AtsScoring.Keywords | lib/ats-scoring.ts:57-150 | `extractKeywords` as a function: the first 50 of the ranked keyword tokens; `KeywordsProperties` and `KeywordShape` state its result |
| AtsScoring.ExtractKeywords | lib/ats-scoring.ts:57-150 | the method with the counting loop computes the keyword function |
| AtsScoring.RoundedPercentage | lib/ats-scoring.ts:34-37 | `Math.round(m / t * 100)` as the integer nearest 100·m/t, with halves rounded up; 0 when t is 0; at most 100 when m ≤ t |
| AtsScoring.ScoreFor | lib/ats-scoring.ts:34-43 | the final score is within [0,100]; it is the rounded percentage, plus 10 exactly when there are at least 10 keywords and at least 5 matches, capped at 100 |
| AtsScoring.ScoreExamples | lib/ats-scoring.ts:37-43 | 5 of 10 scores 60, 5 of 9 scores 56, 10 of 10 scores 100, 0 of 0 scores 0 |
| AtsScoring.ScoreMonotone | lib/ats-scoring.ts:34-43 | one more match never lowers the score |
| AtsScoring.Matched | lib/ats-scoring.ts:24-26 | the job-description keywords that `includes` finds in the resume keywords, in job-description order; `MatchPartition` and `MatchIsTokenEquality` state it |
| AtsScoring.Missing | lib/ats-scoring.ts:28-30 | the job-description keywords that the resume keywords do not include, in order; `MatchPartition` states it |
| AtsScoring.MatchPercentage | lib/ats-scoring.ts:34-35 | `matchPercentage` as the exact fraction 100·m/t, and 0 when there are no keywords; `EmptyInputs` states the 0 case and `RoundedPercentage` its rounding |
| AtsScoring.MatchKeywords | lib/ats-scoring.ts:14-43 | the keyword half of `calculateATSScore`: the keywords of both normalised texts, matched and missing by exact membership, the score and the percentage; `MatchPartition`, `MatchIsTokenEquality` and `ScoreFor` state its result |
| AtsScoring.ATSScore | lib/ats-scoring.ts:14-55 | the whole result of `calculateATSScore`: the keyword match with the section analysis of the raw texts; `CalculateATSScore` computes it |
| AtsScoring.ScoreKeywords | lib/ats-scoring.ts:14-43 | the keyword half of `calculateATSScore`, which updates `finalScore` step by step, computes the keyword-match function, and its score is in [0,100] |
| AtsScoring.CalculateATSScore | lib/ats-scoring.ts:14-55 | the method computes the specification: the keyword match together with the section analysis |
| AtsScoring.MatchPartition | lib/ats-scoring.ts:24-32 | in the keyword match, matched and missing split the job-description keywords: their lengths add up to `totalKeywords`, their multisets add up to the keyword list, and each keyword is in matched iff it is also a resume keyword |
| AtsScoring.MatchIsTokenEquality | lib/ats-scoring.ts:18-28 | a keyword is matched iff it is a keyword of both normalised texts, as a whole token rather than a substring |
| AtsScoring.EmptyInputs | lib/ats-scoring.ts:34-41 | two empty texts give no keywords, percentage 0 and score 0 |
| AtsScoring.AnalyzeSections | lib/ats-scoring.ts:152-197 | `analyzeSections` on the lower-cased raw texts, one section per vocabulary (technical, experience, summary); `SectionSplit` states each section |
| AtsScoring.Section | lib/ats-scoring.ts:160-196 | one section: the vocabulary terms the job description contains, split by whether the resume contains them; `SectionSplit` and `SectionKeepsRepeats` state it |
| AtsScoring.SectionSplit | lib/ats-scoring.ts:160-196 | each section's matched and missing lists are the vocabulary terms found in the job description that are, or are not, also in the resume; they are in vocabulary order and together cover the terms found in the job description |
| AtsScoring.JavaInJavascript | lib/ats-scoring.ts:254 | a text containing "javascript" contains "java" |
| AtsScoring.JavascriptMatchesJava | lib/ats-scoring.ts:165-167 | when both texts mention "javascript", "java" is a matched skill |
| AtsScoring.RepeatedTechnicalTerms | lib/ats-scoring.ts:200-252 | "docker" and "kubernetes" each appear twice in the technical vocabulary |
| AtsScoring.SectionKeepsRepeats | lib/ats-scoring.ts:165-167 | a term present in both texts is matched once for each of its vocabulary occurrences |
| AtsScoring.DockerReportedTwice | lib/ats-scoring.ts:200-254 | when both texts mention "docker", it is listed at least twice among the matched skills |
| TextCleaner.IssueLog.constructor | lib/text-cleaner.ts:26 | the report starts empty |
| TextCleaner.IssueLog.Push | lib/text-cleaner.ts:74 | a push appends one line and changes nothing else |
| TextCleaner.SplitCamelWord | lib/text-cleaner.ts:77-85 | the camel-case callback on one word: a space before the capital when both lower-case parts are longer than two; `CamelSplitAt` and `CamelSplitChanges` state it |
| TextCleaner.SplitNumberWord | lib/text-cleaner.ts:87-92 | the digit-letter callback on one word: a space after the digits when the letters are longer than two; `NumberSplitAt` and `NumberSplitChanges` state it |
| TextCleaner.PdfStage | lib/text-cleaner.ts:53-95 | `fixCommonPDFIssues`: the five word fixes, then the camel-case and digit-letter splits, with one report line when a fix fired; `PdfStageLines` states the report |
| TextCleaner.WhitespaceRewrites | lib/text-cleaner.ts:104-110 | the five chained replacements of `cleanWhitespace` before the trim; `WhitespaceStageShape` and `LoneTabsUnreported` state their effect |
| TextCleaner.WhitespaceStage | lib/text-cleaner.ts:97-117 | `cleanWhitespace`: the five rewrites then trim, reporting when the rewrites changed the length; `WhitespaceStageShape` and `WhitespaceStageLines` state it |
| TextCleaner.BoundaryStage | lib/text-cleaner.ts:119-141 | `fixWordBoundaries`: the two boundary insertions with their report; `BoundaryStageText`, `BoundaryStageSeparates` and `BoundaryStageLines` state it |
| TextCleaner.SpecialStage | lib/text-cleaner.ts:143-166 | `removeSpecialCharacters`: the three replacements with their report; `SpecialStageText`, `SpecialStageChars` and `SpecialStageLines` state it |
| TextCleaner.FinalStage | lib/text-cleaner.ts:289-300 | `finalCleanup`: trim, collapse blank lines, trim, and the line "Applied final cleanup"; `FinalStageShape` and `FinalStagePlain` state it |
| TextCleaner.Clean | lib/text-cleaner.ts:15-51 | `cleanExtractedText`: the optional stages chained on the text, with the input and output lengths and the concatenated reports; `CleanOfStages`, `CleanShape` and `CleanReport` state it |
| TextCleaner.Stages | lib/text-cleaner.ts:29-43 | the five stages in order, the first and fourth only when their options are set, each on the previous text; `CleanOfStages` states how `Clean` uses them |
| TextCleaner.CleanOfStages | lib/text-cleaner.ts:29-49 | the result is the last stage's text with both lengths and the five stage reports in order |
| TextCleaner.ApplyFixes | lib/text-cleaner.ts:64-71 | at most one count per fix, and a count of 0 means the text is unchanged |
| TextCleaner.RunFixes | lib/text-cleaner.ts:64-71 | the `forEach` loop with its `fixCount` counter computes the fold |
| TextCleaner.FixCommonPDFIssues | lib/text-cleaner.ts:53-95 | stage 1 returns the stage text and appends exactly its report lines to the log |
| TextCleaner.CleanWhitespace | lib/text-cleaner.ts:97-117 | stage 2 returns the stage text and appends exactly its report lines to the log |
| TextCleaner.FixWordBoundaries | lib/text-cleaner.ts:119-141 | stage 3 returns the stage text and appends exactly its report lines to the log |
| TextCleaner.RemoveSpecialCharacters | lib/text-cleaner.ts:143-166 | stage 4 returns the stage text and appends exactly its report lines to the log |
| TextCleaner.FinalCleanup | lib/text-cleaner.ts:289-300 | stage 5 returns the stage text and appends "Applied final cleanup" |
| TextCleaner.CleanExtractedText | lib/text-cleaner.ts:15-51 | the method running the optional stages against the shared log computes the pipeline function |
| TextCleaner.RunStep | lib/text-cleaner.ts:308-364 | running one more check extends the fold by one step |
| TextCleaner.CountArtifacts | lib/text-cleaner.ts:332-345 | the artifact loop sums the match counts of the four patterns |
| TextCleaner.HasInnerDigit | lib/text-cleaner.ts:333 | a word matched by `/\b\w+\d+\w+\b/`: it has a digit with a character on each side |
| TextCleaner.Sentences | lib/text-cleaner.ts:352 | `split(/[.!?]+/)` followed by the non-blank filter: the maximal runs without a terminator that are not blank |
| TextCleaner.ChecksOf | lib/text-cleaner.ts:310-364 | the seven tests with their issues and penalties (30, 10, 20, 15, 25, 10, 10); the ratios are compared by cross-multiplication, so empty text fails neither the ratio nor the sentence tests, as NaN comparisons do; `ChecksOfBounds` and `DeductionAtMost100` state its bounds |
| TextCleaner.Validate | lib/text-cleaner.ts:302-371 | `validateCleanedText`: the issues and score after the seven checks, the score floored at 0, valid from 70; `ValidateBounds`, `RunIssues` and `RunScore` state it |
| TextCleaner.Report | lib/text-cleaner.ts:310-364 | one check pushes its issue and subtracts its penalty exactly when it fails |
| TextCleaner.Score | lib/text-cleaner.ts:307-364 | the sequence of checks yields the issues and score of the fold over all seven checks |
| TextCleaner.ValidateCleanedText | lib/text-cleaner.ts:302-371 | the method computes the validation function |
| CleanerProperties.CamelSplitAt | lib/text-cleaner.ts:77-85 | a `[a-z]+[A-Z][a-z]+` word is split before its capital iff both lower-case parts are longer than two |
| CleanerProperties.CamelSplitChanges | lib/text-cleaner.ts:77-85 | the camel-case heuristic changes a word iff such a split applies |
| CleanerProperties.NumberSplitAt | lib/text-cleaner.ts:87-92 | a `\d+[a-zA-Z]+` word is split after its digits iff the letter part is longer than two |
| CleanerProperties.NumberSplitChanges | lib/text-cleaner.ts:87-92 | the digit-letter heuristic changes a word iff such a split applies |
| CleanerProperties.FiveYears | lib/text-cleaner.ts:87-92 | "5years" becomes "5 years" |
| CleanerProperties.ThirdStays | lib/text-cleaner.ts:87-92 | "3rd" is unchanged |
| CleanerProperties.DeveloperTools | lib/text-cleaner.ts:77-85 | "developerTools" becomes "developer Tools" |
| CleanerProperties.MyAppStays | lib/text-cleaner.ts:77-85 | "myApp" is unchanged |
| CleanerProperties.TrimKeeps | lib/text-cleaner.ts:116 | trimming keeps whitespace runs short and adds no character |
| CleanerProperties.WhitespaceStageShape | lib/text-cleaner.ts:104-116 | after stage 2 there is no tab, no CR and no run of three whitespace characters, and no whitespace at either end |
| CleanerProperties.LoneTabsUnreported | lib/text-cleaner.ts:112-114 | a text whose only rewrites are single tabs turned into spaces gets no "Cleaned excessive whitespace" line |
| CleanerProperties.BoundaryStageText | lib/text-cleaner.ts:122-134 | stage 3 inserts a space after `.!?` and then after `,;:` before a capital |
| CleanerProperties.BoundaryStageSeparates | lib/text-cleaner.ts:122-138 | after stage 3 no mark is directly followed by a capital, and it reports at most one line |
| CleanerProperties.BoundaryStageKeepsShort | lib/text-cleaner.ts:122-134 | stage 3 creates no long whitespace run |
| CleanerProperties.SpecialStageText | lib/text-cleaner.ts:146-159 | stage 4 replaces disallowed characters and non-ASCII characters by a space, then each whitespace run by one space |
| CleanerProperties.SpecialStageChars | lib/text-cleaner.ts:146-159 | after stage 4 every character is ASCII and allowed, the only whitespace is the plain space, and no long run remains |
| CleanerProperties.FinalStageShape | lib/text-cleaner.ts:292-295 | the final stage leaves no whitespace at either end and keeps runs short |
| CleanerProperties.FinalStagePlain | lib/text-cleaner.ts:292-295 | the final stage keeps text ASCII and space-only |
| CleanerProperties.CleanShape | lib/text-cleaner.ts:29-49 | `originalLength` is the input length, `cleanedLength` is the output length, and the output is trimmed with no run of three whitespace characters |
| CleanerProperties.CleanIgnoresUnreadOptions | lib/text-cleaner.ts:19-24 | the result does not depend on `preserveFormatting` or `aggressiveCleaning` |
| CleanerProperties.CleanRemovesSpecial | lib/text-cleaner.ts:39-41 | with `removeSpecialChars` the output is ASCII, allowed characters only, with no whitespace but the space (so no newline) |
| CleanerProperties.PdfLineStage | lib/text-cleaner.ts:74 | the stage-1 report line is recognised as stage 1 |
| CleanerProperties.BoundaryLineStage | lib/text-cleaner.ts:137 | the stage-3 report line is recognised as stage 3 |
| CleanerProperties.SpecialLineStage | lib/text-cleaner.ts:162 | the stage-4 report line is recognised as stage 4 |
| CleanerProperties.PdfStageLines | lib/text-cleaner.ts:73-75 | stage 1 reports at most one line, and that line is recognised as stage 1 |
| CleanerProperties.WhitespaceStageLines | lib/text-cleaner.ts:112-114 | stage 2 reports at most one line, and that line is recognised as stage 2 |
| CleanerProperties.BoundaryStageLines | lib/text-cleaner.ts:136-138 | stage 3 reports at most one line, and that line is recognised as stage 3 |
| CleanerProperties.SpecialStageLines | lib/text-cleaner.ts:161-163 | stage 4 reports at most one line, and that line is recognised as stage 4 |
| CleanerProperties.ReportShape | lib/text-cleaner.ts:31-43 | the first four stages' reports of at most one line each, followed by the final line, make 1 to 5 lines in stage order ending with "Applied final cleanup" |
| CleanerProperties.CleanReport | lib/text-cleaner.ts:31-43 | `issuesFixed` has 1 to 5 lines in stage order and ends with "Applied final cleanup" |
| CleanerProperties.CleanEmpty | lib/text-cleaner.ts:15-51 | the empty text cleans to the empty text with the single line "Applied final cleanup" |
| CleanerProperties.RunIssues | lib/text-cleaner.ts:310-364 | the issues are the messages of the failed checks, in order |
| CleanerProperties.RunScore | lib/text-cleaner.ts:308-364 | the score is 100 minus the penalties of the failed checks |
| CleanerProperties.DeductionIsPenalty | lib/text-cleaner.ts:308-364 | the deduction equals the total penalty of the failed checks |
| CleanerProperties.DeductionAtMost100 | lib/text-cleaner.ts:310-364 | the seven checks can never deduct more than 100 together |
| CleanerProperties.ChecksOfBounds | lib/text-cleaner.ts:308-369 | the score stays in [0,100], and a passing score leaves at most three issues |
| CleanerProperties.ValidateBounds | lib/text-cleaner.ts:366-370 | `qualityScore` is in [0,100] and `isValid` holds iff the score is at least 70 |
| CleanerProperties.ShortTextStillValid | lib/text-cleaner.ts:310-313 | a text under 50 characters with no other problem scores exactly 70 with only "Text too short" |
| CleanerProperties.EmptyTextValid | lib/text-cleaner.ts:302-371 | the empty text is valid with score 70 and the issue "Text too short" |
| ParseResume.SplitAround | app/api/parse-resume/route.ts:78-79 | a word changes iff it has an interior character of the class; then spaces go around the rightmost such character |
| ParseResume.SplitDigit | app/api/parse-resume/route.ts:78 | the replacement of `\b(\w+)(\d+)(\w+)\b` on one word run; `SplitAround` and `YearSplit` state it |
| ParseResume.SplitCapital | app/api/parse-resume/route.ts:79 | the replacement of `\b(\w+)([A-Z])(\w+)\b` on one word run; `SplitAround` and `AcronymSplit` state it |
| ParseResume.JoinBreaks | app/api/parse-resume/route.ts:83 | `/\n\s*\n/` on one whitespace run; `JoinBreaksNoNewline` states that it changes nothing after line 82 |
| ParseResume.SplitGlued | app/api/parse-resume/route.ts:66-68 | afterwards no lower-case letter precedes a capital and no digit touches a letter; only spaces are added, and separated text is unchanged |
| ParseResume.FixWords | app/api/parse-resume/route.ts:71-75 | the five word fixes in order; `FixWordsKeepsSeparated` and `GenerateNeverFires` state it |
| ParseResume.SplitInner | app/api/parse-resume/route.ts:78-79 | the two inner splits, each on every word run; `SplitInnerKeepsSeparated` states it |
| ParseResume.NormalizeSpace | app/api/parse-resume/route.ts:82-83 | afterwards the only whitespace is single spaces, drawn from the input's characters |
| ParseResume.BreakBullets | app/api/parse-resume/route.ts:84-85 | the bullet and hyphen line breaks; `BreakBulletsKeepsSeparated`, `BreakBulletsBreaks` and `ReplaceSpacedFramed` state it |
| ParseResume.BreakBulletsBreaks | app/api/parse-resume/route.ts:84-85 | on a text without line feeds, every line feed the two replacements make is followed by a bullet or a hyphen |
| ParseResume.ReplaceSpacedFramed | app/api/parse-resume/route.ts:85 | after `\s*-\s*` becomes "\n- ", every hyphen stands between a line feed and a space, since every hyphen of the text was replaced |
| ParseResume.FramedSlice | app/api/parse-resume/route.ts:87 | any slice, the trim among them, keeps each hyphen at a line start and before a space, except at the ends |
| ParseResume.JoinBreaksNoNewline | app/api/parse-resume/route.ts:83 | with no newline left after line 82, the blank-line join changes nothing |
| ParseResume.GenerateNeverFires | app/api/parse-resume/route.ts:67-75 | once digits are separated from letters, the `generate(\d+)` fix never fires |
| ParseResume.WholeWordKeepsSeparated | app/api/parse-resume/route.ts:71-74 | a whole-word fix whose replacement is lower-case words keeps the separations |
| ParseResume.FixWordsKeepsSeparated | app/api/parse-resume/route.ts:71-75 | the word fixes keep the separations and only the first four can change anything |
| ParseResume.SplitInnerKeepsSeparated | app/api/parse-resume/route.ts:78-79 | the inner splits keep the separations |
| ParseResume.NormalizeSpaceKeepsSeparated | app/api/parse-resume/route.ts:82-83 | whitespace normalisation keeps the separations |
| ParseResume.ReplaceSpacedKeepsSeparated | app/api/parse-resume/route.ts:84-85 | a `\s*x\s*` replacement whose text holds no letter and no digit keeps the separations |
| ParseResume.BreakBulletsKeepsSeparated | app/api/parse-resume/route.ts:84-85 | the bullet and hyphen breaks keep the separations |
| ParseResume.TrimKeepsSeparated | app/api/parse-resume/route.ts:87 | trimming keeps the separations |
| ParseResume.ReplaceSpacedBreaks | app/api/parse-resume/route.ts:84-85 | after `\s*x\s*` to "\nx ", every newline is followed by x or an earlier mark |
| ParseResume.CleanSeparated | app/api/parse-resume/route.ts:62-89 | no lower-case letter before a capital and no digit next to a letter in the output |
| ParseResume.CleanSpacing | app/api/parse-resume/route.ts:82-87 | the only whitespace in the output is space and newline (no tab, no CR) |
| ParseResume.CleanBreaks | app/api/parse-resume/route.ts:82-87 | every newline in the output is immediately followed by "•" or "-" |
| ParseResume.CleanHyphens | app/api/parse-resume/route.ts:84-87 | every hyphen of the output, a word-internal one included, starts the text or follows a line feed, and ends the text or precedes a space |
| ParseResume.CleanShape | app/api/parse-resume/route.ts:62-89 | the output is separated as above, trimmed, free of tab and CR, has a bullet or hyphen after each newline, and every hyphen starts a "- " line |
| ParseResume.CleanExtractedText | app/api/parse-resume/route.ts:62-89 | the route's own `cleanExtractedText`: glued splits, word fixes, inner splits, whitespace normalisation, bullet and hyphen breaks, trim; `CleanSeparated`, `CleanSpacing`, `CleanBreaks`, `CleanHyphens` and `CleanShape` state its output |
| ParseResume.YearSplit | app/api/parse-resume/route.ts:78 | "2019" becomes "20 1 9" |
| ParseResume.AcronymSplit | app/api/parse-resume/route.ts:79 | an all-capitals word of three or more letters gets spaces around its next-to-last letter |
| ParseResume.ThreeLetterAcronym | app/api/parse-resume/route.ts:79 | "AWS" becomes "A W S" |
| ParseResume.FourLetterAcronym | app/api/parse-resume/route.ts:79 | "HTML" becomes "HT M L" |
| ParseResume.HyphenBreak | app/api/parse-resume/route.ts:85-87 | two plain lower-case words joined by a hyphen are broken into a new "- " line |
| ParseResume.FullStack | app/api/parse-resume/route.ts:85-87 | "full-stack" becomes "full\n- stack" |
| Tailor.HandleTailor | app/api/tailor/route.ts:8-33 | a request without both texts gets a 400 with the fixed message; otherwise the answer is the model's result with its score iff the model succeeds, and a 500 iff it fails, whose error is the model's message when that is nonempty and "LLM error" otherwise |
| Tailor.MissingInputIgnoresModel | app/api/tailor/route.ts:8-13 | a request without both texts is answered the same whatever the model would say |
| Tailor.Lowered | app/api/tailor/route.ts:19-21 | the keyword set holds every lower-cased keyword and is no larger than the list |
| Tailor.LoweredOnly | app/api/tailor/route.ts:19-21 | every word of the keyword set is the lower case of some keyword |
| Tailor.SkillHit | app/api/tailor/route.ts:22-24 | the hit count is at most the number of skills |
| Tailor.HitStep | app/api/tailor/route.ts:22-24 | the last skill adds one hit exactly when its lower case is a keyword, so a repeated skill counts once per entry |
| Tailor.Denominator | app/api/tailor/route.ts:25 | the denominator is at least 1, equals the set size when the set is nonempty and is 1 when it is empty |
| Tailor.NoKeywordsScoreZero | app/api/tailor/route.ts:19-25 | missing or empty keywords give score 0 |
| Tailor.AtsScore | app/api/tailor/route.ts:19-25 | `atsScore`: the rounded percentage of hits over `max(1, jdSet.size)`; `NoKeywordsScoreZero`, `DistinctSkillsAtMostHundred` and `RepeatedSkillScores200` state its range |
| Tailor.HitsAtMostShared | app/api/tailor/route.ts:22-24 | when the skills differ pairwise after lower-casing, the hits are at most the shared lower-cased words |
| Tailor.DistinctSkillsAtMostHundred | app/api/tailor/route.ts:22-25 | when no two skills agree after lower-casing, the score is at most 100 |
| Tailor.RepeatedSkillScores200 | app/api/tailor/route.ts:22-25 | there is no upper clamp: skills ["Go", "go"] against keywords ["go"] score 200 |

## Left out

- I/O is not modelled: the `POST` handlers beyond the lines cited above, JSON parsing of request bodies, `parsePDF` and document extraction, console logging, and the React and Supabase UI.
- `tailorWithGemini` is a parameter `llm`. Its network call and JSON parsing are not modelled, and neither is a thrown value that is not an `Error`: the model carries only a message string, "" when the thrown value has none.
- JSON values that are not strings (a non-string `resumeText`, or non-string entries of `skills` or `ats_keywords`) are not modelled: fields are either absent or strings.
- Unicode case mapping is not modelled: `toLowerCase` maps only A-Z, so non-ASCII upper-case letters stay as they are. `\s` is the full ECMAScript whitespace set. UTF-16 code units are not distinguished from code points, so `length` counts a character outside the BMP once.
- Floating point is not modelled:
  - `matchPercentage` is the exact fraction 100·m/t;
  - `Math.round` is half-up on that exact value, so binary rounding error at exact halves is not captured. In IEEE doubles, 23 matches of 40 keywords give `(23 / 40) * 100` = 57.49999999999999, which the source rounds to 57 (67 with the bonus) where the model gives 58 (68). Among keyword counts up to 50, 23 of 40 is the only such pair. The tailoring score differs the same way; with at most 100 keywords and at most twice as many hits the pairs are exactly 23/40, 41/40, 51/40, 46/80, 82/80 and 102/80, and larger sets add more (87/40, 69/120, 29/200, for example);
  - the ratio and average tests of `validateCleanedText` compare by cross-multiplication, and on empty text NaN comparisons are false.
- JavaScript prototypes are not modelled. The frequency dictionary is a map. In the source, the key "constructor" reads the inherited `Object.prototype.constructor`, so that word never reaches count 2. The model reproduces this outcome by leaving "constructor" out of the frequent words.
- AtsScoring.DockerReportedTwice: states "at least twice" rather than exactly twice. The exact count follows from `SectionKeepsRepeats` and `RepeatedTechnicalTerms` only with a count of the whole 51-entry vocabulary, which was not carried out.
- `fixOCRErrors`, `normalizeTextStructure` and `applyAggressiveCleaning` (lib/text-cleaner.ts:168-287) are not modelled because `cleanExtractedText` never calls them.
- `getCleaningStats` (lib/text-cleaner.ts:373-410) is not modelled: it only computes floating-point percentages for display, and it divides by zero on empty input.
- The regular-expression engine is not modelled in general: each pattern the core uses is written as its own scan, and a `\b…\b` pattern acts on whole maximal runs of word characters.
