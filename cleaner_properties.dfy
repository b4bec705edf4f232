/**
  What lib/text-cleaner.ts promises about its stages and its quality gate,
  proved over the model in module TextCleaner.
 */
module CleanerProperties {
  import opened Chars
  import opened Seqs
  import opened Rewrite
  import opened Patterns
  import opened Whitespace
  import opened TextCleaner

  // ---------------------------------------------------------------------
  // The splitting heuristics of stage 1

  /** `w` is `[a-z]+[A-Z][a-z]+` with the capital at `k`. */
  predicate CamelAt(w: string, k: nat)
  {
    0 < k && k + 1 < |w| && AllLower(w[..k]) && IsUpper(w[k]) && AllLower(w[k + 1..])
  }

  /** `w` is `\d+[a-zA-Z]+` with the letters starting at `k`. */
  predicate NumberAt(w: string, k: nat)
  {
    0 < k < |w| && AllDigits(w[..k]) && AllLetters(w[k..])
  }

  /** A camel-case word is split before its capital exactly when both
      lower-case parts are longer than two characters. */
  lemma CamelSplitAt(w: string, k: nat)
    requires CamelAt(w, k)
    ensures SplitCamelWord(w) == if k > 2 && |w| - k - 1 > 2 then w[..k] + " " + w[k..] else w
  {
    RunLengthSplit(w, k, IsLower);
    assert Hump(w) == k;
  }

  /** A word changes only when it is a camel-case word with both
      lower-case parts longer than two characters. */
  lemma CamelSplitChanges(w: string)
    ensures SplitCamelWord(w) != w <==> exists k :: CamelAt(w, k) && k > 2 && |w| - k - 1 > 2
  {
    var k := Hump(w);
    if IsCamelWord(w) {
      assert AllLower(w[..k]);
      assert CamelAt(w, k);
      assert w[..k] + " " + w[k..] != w by {
        assert |w[..k] + " " + w[k..]| == |w| + 1;
      }
    } else {
      forall j | CamelAt(w, j) ensures false {
        CamelSplitAt(w, j);
        RunLengthSplit(w, j, IsLower);
      }
    }
  }

  /** A number glued to a word is split off exactly when the letters are
      longer than two characters: "5years" splits, "3rd" stays. */
  lemma NumberSplitAt(w: string, k: nat)
    requires NumberAt(w, k)
    ensures SplitNumberWord(w) == if |w| - k > 2 then w[..k] + " " + w[k..] else w
  {
    RunLengthSplit(w, k, IsDigit);
    assert DigitPrefix(w) == k;
  }

  lemma NumberSplitChanges(w: string)
    ensures SplitNumberWord(w) != w <==> exists k :: NumberAt(w, k) && |w| - k > 2
  {
    var k := DigitPrefix(w);
    if IsNumberWord(w) {
      assert AllDigits(w[..k]);
      assert NumberAt(w, k);
      assert |w[..k] + " " + w[k..]| == |w| + 1;
      forall j | NumberAt(w, j) ensures j == k {
        RunLengthSplit(w, j, IsDigit);
      }
    } else {
      forall j | NumberAt(w, j) ensures false {
        RunLengthSplit(w, j, IsDigit);
      }
    }
  }

  lemma FiveYears(w: string)
    requires w == "5years"
    ensures SplitNumberWord(w) == "5 years"
  {
    assert NumberAt(w, 1);
    NumberSplitAt(w, 1);
  }

  lemma ThirdStays(w: string)
    requires w == "3rd"
    ensures SplitNumberWord(w) == w
  {
    assert NumberAt(w, 1);
    NumberSplitAt(w, 1);
  }

  lemma DeveloperTools(w: string)
    requires w == "developerTools"
    ensures SplitCamelWord(w) == "developer Tools"
  {
    assert CamelAt(w, 9);
    CamelSplitAt(w, 9);
  }

  lemma MyAppStays(w: string)
    requires w == "myApp"
    ensures SplitCamelWord(w) == w
  {
    assert CamelAt(w, 2);
    CamelSplitAt(w, 2);
  }

  // ---------------------------------------------------------------------
  // Stage 2: whitespace

  /** No whitespace at either end, as `trim` leaves it. */
  predicate Trimmed(s: string)
  {
    s == [] || (!IsSpace(s[0]) && !IsSpace(s[|s| - 1]))
  }

  /** Trimming keeps short whitespace runs and draws every character from
      the text it trims. */
  lemma TrimKeeps(s: string)
    ensures NoLongSpaceRun(s) ==> NoLongSpaceRun(Trim(s))
    ensures forall c :: c in Trim(s) ==> c in s
  {
    var r := Trim(s);
    if r != [] {
      var a, b := RunLength(s, IsSpace), |s| - TrailingSpaces(s);
      assert r == s[a..b];
      if NoLongSpaceRun(s) {
        NoLongSlice(s, a, b);
      }
      forall c | c in r ensures c in s {
        var i :| 0 <= i < |r| && r[i] == c;
        assert s[a..b][i] == s[a + i];
      }
    }
  }

  /** After `cleanWhitespace` no three whitespace characters are adjacent,
      no tab and no carriage return is left, and the text is trimmed. */
  lemma WhitespaceStageShape(text: string, preserveFormatting: bool)
    ensures var c := WhitespaceStage(text, preserveFormatting).cleaned;
            NoLongSpaceRun(c) && '\t' !in c && '\r' !in c && Trimmed(c)
  {
    var s1 := MapRuns(text, IsSpace, CollapseLongSpace);
    ShortReplacementsShort(text, CollapseLongSpace);
    CollapseBlankLinesNoop(s1);
    var s3 := MapRuns(s1, IsTab, SingleSpace);
    TabsToSpaceKeepsShort(s1);
    SingleSpaceChars(s1, IsTab);
    assert '\t' !in s3;
    var s4 := ReplaceCrLf(s3);
    CrLfKeepsShort(s3);
    assert '\t' !in s4;
    var s5 := Map(s4, CrToLf);
    CrToLfKeepsShort(s4);
    assert WhitespaceRewrites(text) == s5;
    assert '\t' !in s5 && '\r' !in s5;
    TrimKeeps(s5);
  }

  /** `/\s{3,}/g` changes nothing once no three whitespace characters are
      adjacent. */
  lemma {:induction false} CollapseLongSpaceNoop(s: string)
    requires NoLongSpaceRun(s)
    ensures MapRuns(s, IsSpace, CollapseLongSpace) == s
    decreases |s|
  {
    if s != [] {
      if !IsSpace(s[0]) {
        NoLongSuffix(s, 1);
        CollapseLongSpaceNoop(s[1..]);
      } else {
        var n := RunLength(s, IsSpace);
        NoLongLeading(s);
        NoLongSuffix(s, n);
        CollapseLongSpaceNoop(s[n..]);
        assert s == s[..n] + s[n..];
      }
    }
  }

  /** Replacing runs of tabs by one space keeps the length when no two tabs
      are adjacent. */
  lemma {:induction false} SingleTabsKeepLength(s: string)
    requires forall i :: 0 <= i < |s| - 1 ==> !(s[i] == '\t' && s[i + 1] == '\t')
    ensures |MapRuns(s, IsTab, SingleSpace)| == |s|
    decreases |s|
  {
    if s != [] {
      forall i | 0 <= i < |s[1..]| - 1 ensures !(s[1..][i] == '\t' && s[1..][i + 1] == '\t') {
        assert s[1..][i] == s[i + 1] && s[1..][i + 1] == s[i + 2];
      }
      SingleTabsKeepLength(s[1..]);
      if IsTab(s[0]) {
        assert RunLength(s, IsTab) == 1 by {
          if |s| > 1 {
            RunLengthSplit(s, 1, IsTab);
          }
        }
      }
    }
  }

  /** The stage reports only a change of length, so replacing lone tabs
      by spaces goes unreported. */
  lemma LoneTabsUnreported(text: string, preserveFormatting: bool)
    requires NoLongSpaceRun(text) && '\r' !in text
    requires forall i :: 0 <= i < |text| - 1 ==> !(text[i] == '\t' && text[i + 1] == '\t')
    ensures WhitespaceStage(text, preserveFormatting).issues == []
  {
    CollapseLongSpaceNoop(text);
    CollapseBlankLinesNoop(text);
    var s3 := MapRuns(text, IsTab, SingleSpace);
    SingleTabsKeepLength(text);
    SingleSpaceChars(text, IsTab);
    assert '\r' !in s3;
    assert |ReplaceCrLf(s3)| == |s3|;
  }

  // ---------------------------------------------------------------------
  // Stage 3: word boundaries

  /** The text a fix list produces, one fix at a time. */
  lemma ApplyFixesText(fixes: seq<Fix>, text: string)
    requires fixes != []
    ensures ApplyFixes(fixes, text).0 == Apply(fixes[|fixes| - 1], ApplyFixes(fixes[..|fixes| - 1], text).0)
  {
  }

  lemma BoundaryStageText(text: string)
    ensures BoundaryStage(text).cleaned
         == InsertBetween(InsertBetween(text, InMarks(SentenceMarks), IsUpper), InMarks(ClauseMarks), IsUpper)
  {
    assert BoundaryFixes[..1][..0] == [] && BoundaryFixes[..1] == [SpaceBeforeCapital(SentenceMarks)];
    ApplyFixesText(BoundaryFixes, text);
    ApplyFixesText(BoundaryFixes[..1], text);
  }

  /** After `fixWordBoundaries` no sentence or clause mark is directly
      followed by a capital, and at most one line is reported. */
  lemma BoundaryStageSeparates(text: string)
    ensures var st := BoundaryStage(text);
            NoPair(st.cleaned, InMarks(SentenceMarks), IsUpper)
            && NoPair(st.cleaned, InMarks(ClauseMarks), IsUpper)
            && |st.issues| <= 1
  {
    var a := InsertBetween(text, InMarks(SentenceMarks), IsUpper);
    BoundaryStageText(text);
    InsertBetweenSeparates(text, InMarks(SentenceMarks), IsUpper);
    InsertBetweenKeepsNoPair(a, InMarks(ClauseMarks), IsUpper, InMarks(SentenceMarks), IsUpper);
    InsertBetweenSeparates(a, InMarks(ClauseMarks), IsUpper);
  }

  lemma MarksAreNotSpace(marks: string)
    requires marks == SentenceMarks || marks == ClauseMarks
    ensures forall c :: InMarks(marks)(c) ==> !IsSpace(c)
  {
  }

  lemma CapitalsAreNotSpace()
    ensures forall c :: IsUpper(c) ==> !IsSpace(c)
  {
  }

  /** The spaces `fixWordBoundaries` inserts sit between two visible
      characters, so they never lengthen a whitespace run. */
  lemma BoundaryStageKeepsShort(text: string)
    requires NoLongSpaceRun(text)
    ensures NoLongSpaceRun(BoundaryStage(text).cleaned)
  {
    var a := InsertBetween(text, InMarks(SentenceMarks), IsUpper);
    BoundaryStageText(text);
    MarksAreNotSpace(SentenceMarks);
    MarksAreNotSpace(ClauseMarks);
    CapitalsAreNotSpace();
    InsertBetweenKeepsShort(text, InMarks(SentenceMarks), IsUpper);
    InsertBetweenKeepsShort(a, InMarks(ClauseMarks), IsUpper);
  }

  // ---------------------------------------------------------------------
  // Stage 4: special characters

  lemma SpecialStageText(text: string)
    ensures SpecialStage(text).cleaned == MapRuns(Map(Map(text, DisallowedSpace), NonAsciiSpace), IsSpace, SingleSpace)
  {
    assert SpecialCharFixes[..2][..1][..0] == [];
    assert SpecialCharFixes[..2][..1] == [DisallowedToSpace];
    assert SpecialCharFixes[..2] == [DisallowedToSpace, NonAsciiToSpace];
    ApplyFixesText(SpecialCharFixes, text);
    ApplyFixesText(SpecialCharFixes[..2], text);
    ApplyFixesText(SpecialCharFixes[..2][..1], text);
  }

  /** After `removeSpecialCharacters` every character is ASCII and one the
      first fix keeps, the only whitespace is the plain space (line breaks
      are gone too), and no two whitespace characters are adjacent. */
  lemma SpecialStageChars(text: string)
    ensures var c := SpecialStage(text).cleaned;
            NoLongSpaceRun(c)
            && forall i :: 0 <= i < |c| ==> IsAscii(c[i]) && Allowed(c[i]) && (IsSpace(c[i]) ==> c[i] == ' ')
  {
    var m1 := Map(text, DisallowedSpace);
    var m2 := Map(m1, NonAsciiSpace);
    var m3 := MapRuns(m2, IsSpace, SingleSpace);
    SpecialStageText(text);
    assert forall j :: 0 <= j < |m2| ==> IsAscii(m2[j]) && Allowed(m2[j]);
    SingleSpaceChars(m2, IsSpace);
    ShortReplacementsShort(m2, SingleSpace);
    forall i | 0 <= i < |m3| ensures IsAscii(m3[i]) && Allowed(m3[i]) && (IsSpace(m3[i]) ==> m3[i] == ' ') {
      assert m3[i] in m3;
    }
  }

  // ---------------------------------------------------------------------
  // The whole cleaner

  lemma FinalStageShape(text: string)
    requires NoLongSpaceRun(text)
    ensures NoLongSpaceRun(FinalStage(text).cleaned) && Trimmed(FinalStage(text).cleaned)
  {
    TrimKeeps(text);
    CollapseBlankLinesNoop(Trim(text));
    TrimKeeps(Trim(text));
  }

  /** The cleaned text is trimmed and never holds three whitespace
      characters in a row, whatever the options; the lengths reported are
      those of the input and the output. */
  lemma CleanShape(text: string, options: CleanTextOptions)
    ensures var r := Clean(text, options);
            r.originalLength == |text| && r.cleanedLength == |r.cleanedText|
            && Trimmed(r.cleanedText) && NoLongSpaceRun(r.cleanedText)
  {
    var st := Stages(text, options);
    WhitespaceStageShape(st[0].cleaned, options.preserveFormatting);
    BoundaryStageKeepsShort(st[1].cleaned);
    if options.removeSpecialChars {
      SpecialStageChars(st[2].cleaned);
    }
    FinalStageShape(st[3].cleaned);
  }

  /** `preserveFormatting` and `aggressiveCleaning` change nothing. */
  lemma CleanIgnoresUnreadOptions(text: string, o1: CleanTextOptions, o2: CleanTextOptions)
    requires o1.fixCommonIssues == o2.fixCommonIssues && o1.removeSpecialChars == o2.removeSpecialChars
    ensures Clean(text, o1) == Clean(text, o2)
  {
    assert Stages(text, o1) == Stages(text, o2);
  }

  /** ASCII characters the first special-character fix keeps, with the
      plain space as the only whitespace. */
  predicate PlainText(s: string)
  {
    forall i :: 0 <= i < |s| ==> IsAscii(s[i]) && Allowed(s[i]) && (IsSpace(s[i]) ==> s[i] == ' ')
  }

  lemma PlainChars(s: string, t: string)
    requires PlainText(s) && forall c :: c in t ==> c in s
    ensures PlainText(t)
  {
    forall i | 0 <= i < |t| ensures IsAscii(t[i]) && Allowed(t[i]) && (IsSpace(t[i]) ==> t[i] == ' ') {
      assert t[i] in t;
      var j :| 0 <= j < |s| && s[j] == t[i];
    }
  }

  lemma FinalStagePlain(text: string)
    requires PlainText(text)
    ensures PlainText(FinalStage(text).cleaned)
  {
    TrimKeeps(text);
    PlainChars(text, Trim(text));
    assert '\n' !in Trim(text);
    CollapseBlankLinesNoNewline(Trim(text));
    TrimKeeps(Trim(text));
    PlainChars(Trim(text), Trim(Trim(text)));
  }

  /** With `removeSpecialChars` the output is plain ASCII from the allowed
      set, with single spaces as its only whitespace: line breaks do not
      survive. */
  lemma CleanRemovesSpecial(text: string, options: CleanTextOptions)
    requires options.removeSpecialChars
    ensures PlainText(Clean(text, options).cleanedText)
  {
    var st := Stages(text, options);
    SpecialStageChars(st[2].cleaned);
    assert PlainText(st[3].cleaned);
    FinalStagePlain(st[3].cleaned);
  }

  // ---------------------------------------------------------------------
  // The report

  predicate EndsWith(s: string, suffix: string)
  {
    |suffix| <= |s| && s[|s| - |suffix|..] == suffix
  }

  const PdfSuffix := " specific PDF parsing issues"
  const BoundarySuffix := " word boundary issues"
  const SpecialSuffix := " types of special characters"

  /** The stage a report line comes from, read off the line itself: 1 to 5
      in pipeline order, 0 for a line no stage writes. */
  function StageOf(line: string): nat
  {
    if line == "Applied final cleanup" then 5
    else if line == "Cleaned excessive whitespace" then 2
    else if EndsWith(line, PdfSuffix) then 1
    else if EndsWith(line, BoundarySuffix) then 3
    else if EndsWith(line, SpecialSuffix) then 4
    else 0
  }

  lemma EndsWithAt(s: string, suffix: string, k: nat)
    requires k < |suffix|
    ensures EndsWith(s, suffix) ==> s[|s| - 1 - k] == suffix[|suffix| - 1 - k]
  {
    if EndsWith(s, suffix) {
      assert s[|s| - |suffix|..][|suffix| - 1 - k] == s[|s| - 1 - k];
    }
  }

  lemma EndsWithConcat(a: string, b: string)
    ensures EndsWith(a + b, b)
  {
    assert (a + b)[|a + b| - |b|..] == b;
  }

  lemma PdfLineStage(n: nat)
    ensures StageOf("Fixed " + NatToString(n) + PdfSuffix) == 1
  {
    EndsWithConcat("Fixed " + NatToString(n), PdfSuffix);
  }

  lemma BoundaryLineStage(n: nat)
    ensures StageOf("Fixed " + NatToString(n) + BoundarySuffix) == 3
  {
    var line := "Fixed " + NatToString(n) + BoundarySuffix;
    EndsWithConcat("Fixed " + NatToString(n), BoundarySuffix);
    assert line[0] == 'F';
    assert line[|line| - 8] == 'y';
    EndsWithAt(line, PdfSuffix, 7);
  }

  lemma SpecialLineStage(n: nat)
    ensures StageOf("Removed " + NatToString(n) + SpecialSuffix) == 4
  {
    var line := "Removed " + NatToString(n) + SpecialSuffix;
    EndsWithConcat("Removed " + NatToString(n), SpecialSuffix);
    assert line[|line| - 2] == 'r';
    EndsWithAt(line, PdfSuffix, 1);
    EndsWithAt(line, BoundarySuffix, 1);
  }

  /** Lines in strictly increasing stage order, each from some stage. */
  predicate InStageOrder(lines: seq<string>)
  {
    (forall i :: 0 <= i < |lines| ==> StageOf(lines[i]) > 0)
    && forall i, j :: 0 <= i < j < |lines| ==> StageOf(lines[i]) < StageOf(lines[j])
  }

  /** At most one line, written by stage `k`. */
  predicate LinesOfStage(lines: seq<string>, k: nat)
  {
    |lines| <= 1 && forall i :: 0 <= i < |lines| ==> StageOf(lines[i]) == k
  }

  lemma AppendStage(lines: seq<string>, more: seq<string>, k: nat)
    requires InStageOrder(lines) && forall i :: 0 <= i < |lines| ==> StageOf(lines[i]) < k
    requires LinesOfStage(more, k) && k > 0
    ensures InStageOrder(lines + more) && forall i :: 0 <= i < |lines + more| ==> StageOf((lines + more)[i]) <= k
  {
  }

  /** Stage 1 reports at most one line, recognised as its own. */
  lemma PdfStageLines(text: string)
    ensures LinesOfStage(PdfStage(text).issues, 1)
  {
    var n := ApplyFixes(SpecificFixes, text).1;
    assert PdfStage(text).issues == PdfReport(n);
    if n > 0 {
      PdfLineStage(n);
    }
  }

  /** Stage 2 reports at most one line, recognised as its own. */
  lemma WhitespaceStageLines(text: string, preserveFormatting: bool)
    ensures LinesOfStage(WhitespaceStage(text, preserveFormatting).issues, 2)
  {
  }

  /** Stage 3 reports at most one line, recognised as its own. */
  lemma BoundaryStageLines(text: string)
    ensures LinesOfStage(BoundaryStage(text).issues, 3)
  {
    var n := ApplyFixes(BoundaryFixes, text).1;
    assert BoundaryStage(text).issues == BoundaryReport(n);
    if n > 0 {
      BoundaryLineStage(n);
    }
  }

  /** Stage 4 reports at most one line, recognised as its own. */
  lemma SpecialStageLines(text: string)
    ensures LinesOfStage(SpecialStage(text).issues, 4)
  {
    var n := ApplyFixes(SpecialCharFixes, text).1;
    assert SpecialStage(text).issues == SpecialReport(n);
    if n > 0 {
      SpecialLineStage(n);
    }
  }

  /** Five pieces of at most one line each, the `k`th written by stage
      `k + 1`, joined in order, are in stage order. */
  lemma PiecesInOrder(l0: seq<string>, l1: seq<string>, l2: seq<string>, l3: seq<string>, l4: seq<string>)
    requires LinesOfStage(l0, 1) && LinesOfStage(l1, 2) && LinesOfStage(l2, 3)
    requires LinesOfStage(l3, 4) && LinesOfStage(l4, 5)
    ensures InStageOrder(l0 + l1 + l2 + l3 + l4)
  {
    AppendStage([], l0, 1);
    assert [] + l0 == l0;
    AppendStage(l0, l1, 2);
    AppendStage(l0 + l1, l2, 3);
    AppendStage(l0 + l1 + l2, l3, 4);
    AppendStage(l0 + l1 + l2 + l3, l4, 5);
  }

  /** The report holds one to five lines, at most one per stage, in
      pipeline order, and always ends with the final clean-up. */
  lemma CleanReport(text: string, options: CleanTextOptions)
    ensures var issues := Clean(text, options).issuesFixed;
            1 <= |issues| <= 5 && issues[|issues| - 1] == "Applied final cleanup" && InStageOrder(issues)
  {
    var st := Stages(text, options);
    assert LinesOfStage(st[0].issues, 1) by {
      if options.fixCommonIssues {
        PdfStageLines(text);
      }
    }
    WhitespaceStageLines(st[0].cleaned, options.preserveFormatting);
    BoundaryStageLines(st[1].cleaned);
    assert LinesOfStage(st[3].issues, 4) by {
      if options.removeSpecialChars {
        SpecialStageLines(st[2].cleaned);
      }
    }
    assert st[4].issues == ["Applied final cleanup"];
    ReportShape(st[0].issues, st[1].issues, st[2].issues, st[3].issues, st[4].issues);
  }

  lemma ReportShape(l0: seq<string>, l1: seq<string>, l2: seq<string>, l3: seq<string>, l4: seq<string>)
    requires LinesOfStage(l0, 1) && LinesOfStage(l1, 2) && LinesOfStage(l2, 3) && LinesOfStage(l3, 4)
    requires l4 == ["Applied final cleanup"]
    ensures var issues := l0 + l1 + l2 + l3 + l4;
            1 <= |issues| <= 5 && issues[|issues| - 1] == "Applied final cleanup" && InStageOrder(issues)
  {
    PiecesInOrder(l0, l1, l2, l3, l4);
    var issues := l0 + l1 + l2 + l3 + l4;
    assert issues[|issues| - 1] == l4[0];
  }

  /** Every fix leaves the empty text empty, so no fix counts. */
  lemma {:induction false} ApplyFixesEmpty(fixes: seq<Fix>)
    ensures ApplyFixes(fixes, []) == ([], 0)
  {
    if fixes != [] {
      ApplyFixesEmpty(fixes[..|fixes| - 1]);
      var f := fixes[|fixes| - 1];
      assert Apply(f, []) == [] by {
        match f
        case Word(w) =>
        case SpaceBeforeCapital(m) =>
        case DisallowedToSpace =>
        case NonAsciiToSpace =>
        case SpaceRunToSpace =>
      }
    }
  }

  /** Empty input: the empty text, and only the final clean-up reported. */
  lemma CleanEmpty(text: string, options: CleanTextOptions)
    requires text == []
    ensures Clean(text, options) == CleanTextResult([], 0, 0, ["Applied final cleanup"])
  {
    ApplyFixesEmpty(SpecificFixes);
    ApplyFixesEmpty(BoundaryFixes);
    ApplyFixesEmpty(SpecialCharFixes);
  }

  // ---------------------------------------------------------------------
  // The quality gate

  predicate Failed(c: Check) { c.failed }

  function MessageOf(c: Check): string { Message(c.issue) }

  function TotalPenalty(cs: seq<Check>): nat
  {
    if cs == [] then 0 else TotalPenalty(cs[..|cs| - 1]) + cs[|cs| - 1].penalty
  }

  lemma MapSnoc(f: seq<Check>, c: Check)
    ensures Map(f + [c], MessageOf) == Map(f, MessageOf) + [MessageOf(c)]
  {
  }

  lemma TotalPenaltySnoc(f: seq<Check>, c: Check)
    ensures TotalPenalty(f + [c]) == TotalPenalty(f) + c.penalty
  {
    assert (f + [c])[..|f|] == f;
  }

  /** The running issues are exactly the messages of the failed checks, in
      order. */
  lemma {:induction false} RunIssues(checks: seq<Check>)
    ensures Run(checks).0 == Map(Filter(checks, Failed), MessageOf)
  {
    if checks != [] {
      var init, c := checks[..|checks| - 1], checks[|checks| - 1];
      RunIssues(init);
      if c.failed {
        MapSnoc(Filter(init, Failed), c);
      }
    }
  }

  /** The score alone: 100 minus the penalty of each failed check. */
  function Deduction(checks: seq<Check>): nat
  {
    if checks == [] then 0
    else Deduction(checks[..|checks| - 1]) + (if checks[|checks| - 1].failed then checks[|checks| - 1].penalty else 0)
  }

  lemma DeductionStep(done: seq<Check>, c: Check)
    ensures Deduction(done + [c]) == Deduction(done) + (if c.failed then c.penalty else 0)
  {
    assert (done + [c])[..|done|] == done;
  }

  lemma {:induction false} RunScore(checks: seq<Check>)
    ensures Run(checks).1 == 100 - Deduction(checks)
  {
    if checks != [] {
      RunScore(checks[..|checks| - 1]);
    }
  }

  /** The deductions are the penalties of the failed checks. */
  lemma {:induction false} DeductionIsPenalty(checks: seq<Check>)
    ensures Deduction(checks) == TotalPenalty(Filter(checks, Failed))
  {
    if checks != [] {
      var init, c := checks[..|checks| - 1], checks[|checks| - 1];
      DeductionIsPenalty(init);
      assert Filter(checks, Failed) == Filter(init, Failed) + (if c.failed then [c] else []);
      if c.failed {
        TotalPenaltySnoc(Filter(init, Failed), c);
      } else {
        assert Filter(init, Failed) + [] == Filter(init, Failed);
      }
    }
  }

  /** At most one of the two length checks and one of the two sentence
      checks can fail, so the penalties never exceed 100. */
  lemma DeductionAtMost100(len: nat, special: nat, spaces: nat, artifacts: nat, sum: nat, count: nat)
    ensures Deduction(ChecksOf(len, special, spaces, artifacts, sum, count)) <= 100
  {
    var checks := ChecksOf(len, special, spaces, artifacts, sum, count);
    var done: seq<Check> := [];
    DeductionStep(done, checks[0]);
    done := done + [checks[0]];
    DeductionStep(done, checks[1]);
    done := done + [checks[1]];
    assert Deduction(done) <= 30;
    DeductionStep(done, checks[2]);
    done := done + [checks[2]];
    DeductionStep(done, checks[3]);
    done := done + [checks[3]];
    DeductionStep(done, checks[4]);
    done := done + [checks[4]];
    assert Deduction(done) <= 90;
    DeductionStep(done, checks[5]);
    done := done + [checks[5]];
    DeductionStep(done, checks[6]);
    done := done + [checks[6]];
    assert done == checks;
  }

  lemma {:induction false} PenaltyAtLeast(cs: seq<Check>)
    requires forall i :: 0 <= i < |cs| ==> cs[i].penalty >= 10
    ensures TotalPenalty(cs) >= 10 * |cs|
  {
    if cs != [] {
      PenaltyAtLeast(cs[..|cs| - 1]);
    }
  }

  /** A run of checks whose penalties are all at least 10 and total at
      most 100 ends with a score between 0 and 100, and a score of at least
      70 leaves at most three issues. */
  lemma RunBounds(checks: seq<Check>)
    requires Deduction(checks) <= 100
    requires forall i :: 0 <= i < |checks| ==> checks[i].penalty >= 10
    ensures var r := Run(checks); 0 <= r.1 <= 100 && (r.1 >= 70 ==> |r.0| <= 3)
  {
    RunScore(checks);
    RunIssues(checks);
    DeductionIsPenalty(checks);
    var failed := Filter(checks, Failed);
    forall i | 0 <= i < |failed| ensures failed[i].penalty >= 10 {
      assert failed[i] in checks;
    }
    PenaltyAtLeast(failed);
  }

  lemma ChecksOfBounds(len: nat, special: nat, spaces: nat, artifacts: nat, sum: nat, count: nat)
    ensures var r := Run(ChecksOf(len, special, spaces, artifacts, sum, count));
            0 <= r.1 <= 100 && (r.1 >= 70 ==> |r.0| <= 3)
  {
    var checks := ChecksOf(len, special, spaces, artifacts, sum, count);
    DeductionAtMost100(len, special, spaces, artifacts, sum, count);
    assert forall i :: 0 <= i < |checks| ==> checks[i].penalty >= 10;
    RunBounds(checks);
  }

  /** The score lies between 0 and 100 before the floor, so the floor never
      applies; the text is valid exactly when the score is at least 70, and
      a valid text has at most three issues (each penalty is at least 10). */
  lemma ValidateBounds(text: string)
    ensures var v := Validate(text);
            0 <= v.qualityScore <= 100 && v.qualityScore == Run(Checks(text)).1
            && (v.isValid <==> v.qualityScore >= 70)
            && (v.isValid ==> |v.issues| <= 3)
  {
    var sentences := Sentences(text);
    ChecksOfBounds(|text|, |Filter(text, IsSpecial)|, |Filter(text, IsSpace)|,
                   TotalMatches(Artifacts, text), TotalLength(sentences), |sentences|);
  }

  /** A text shorter than 50 characters that passes every other check
      scores 70 and is still valid, with one issue. */
  lemma ShortTextStillValid(len: nat, special: nat, spaces: nat, artifacts: nat, sum: nat, count: nat)
    requires len < 50 && 10 * special <= len && 10 * spaces <= 3 * len && artifacts <= 10
    requires 10 * count <= sum <= 200 * count
    ensures Run(ChecksOf(len, special, spaces, artifacts, sum, count)) == (["Text too short"], 70)
  {
    var checks := ChecksOf(len, special, spaces, artifacts, sum, count);
    var done: seq<Check> := [];
    assert checks[0] == Check(true, TextTooShort, 30);
    assert Run(done) == ([], 100);
    RunStep(done, checks[0]);
    assert [] + [Message(TextTooShort)] == ["Text too short"];
    done := done + [checks[0]];
    assert Run(done) == (["Text too short"], 70);
    RunStep(done, checks[1]);
    done := done + [checks[1]];
    RunStep(done, checks[2]);
    done := done + [checks[2]];
    RunStep(done, checks[3]);
    done := done + [checks[3]];
    RunStep(done, checks[4]);
    done := done + [checks[4]];
    RunStep(done, checks[5]);
    done := done + [checks[5]];
    RunStep(done, checks[6]);
    done := done + [checks[6]];
    assert done == checks;
  }

  lemma {:induction false} NoMatchesInEmpty(artifacts: seq<Artifact>)
    ensures TotalMatches(artifacts, []) == 0
  {
    if artifacts != [] {
      NoMatchesInEmpty(artifacts[..|artifacts| - 1]);
    }
  }

  /** The empty text is too short, passes the ratio checks (the source's
      0/0 comparisons are false) and so is valid with a score of 70. */
  lemma EmptyTextValid(text: string)
    requires text == []
    ensures Validate(text) == Validation(true, ["Text too short"], 70)
  {
    NoMatchesInEmpty(Artifacts);
    assert Sentences(text) == [];
    assert Checks(text) == ChecksOf(0, 0, 0, 0, 0, 0);
    ShortTextStillValid(0, 0, 0, 0, 0, 0);
  }
}
