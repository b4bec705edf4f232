/**
  The local clean-up in app/api/parse-resume/route.ts (lines 62-89) of the
  text that the PDF parser returns: one chain of global regular-expression
  replacements, then `trim`. Each group of lines of the chain is one stage
  below; the stages are composed in `CleanExtractedText`.
 */
module ParseResume {
  import opened Chars
  import opened Rewrite
  import opened Patterns
  import opened Whitespace

  const Bullet: char := '\U{2022}'

  // ---------------------------------------------------------------------
  // Lines 78-79: one character set apart inside a word

  /** The largest `k` in `[1, hi]` with `p(w[k])`, or 0 when there is none. */
  function LastInner(w: string, p: char -> bool, hi: int): (k: nat)
    requires hi < |w|
    ensures k == 0 || (1 <= k <= hi && p(w[k]))
    ensures forall j :: k < j <= hi && 1 <= j ==> !p(w[j])
    decreases hi
  {
    if hi < 1 then 0 else if p(w[hi]) then hi else LastInner(w, p, hi - 1)
  }

  /** `/\b(\w+)(P)(\w+)\b/g` to "$1 $2 $3" on one maximal run `w` of word
      characters, for a class `P` of word characters. The pattern can only
      match a whole run; the greedy first group leaves the LAST `P`-character
      that has a character on both sides, and only that one is set apart. */
  function SplitAround(w: string, p: char -> bool): (r: string)
    ensures r != w <==> exists k :: 1 <= k < |w| - 1 && p(w[k])
    ensures r != w ==> exists k :: 1 <= k < |w| - 1 && p(w[k])
                                   && (forall j :: k < j < |w| - 1 ==> !p(w[j]))
                                   && r == w[..k] + [' ', w[k], ' '] + w[k + 1..]
  {
    if |w| < 3 then w
    else
      var k := LastInner(w, p, |w| - 2);
      if k == 0 then w
      else
        var r := w[..k] + [' ', w[k], ' '] + w[k + 1..];
        assert |r| == |w| + 2;
        r
  }

  /** The replacement of line 78, `/\b(\w+)(\d+)(\w+)\b/g`. */
  function SplitDigit(w: string): string { SplitAround(w, IsDigit) }

  /** The replacement of line 79, `/\b(\w+)([A-Z])(\w+)\b/g`. */
  function SplitCapital(w: string): string { SplitAround(w, IsUpper) }

  /** `/\n\s*\n/g` to "\n\n" (line 83) on one whitespace run: when the run
      holds two or more line feeds, the stretch from its first to its last
      line feed becomes two line feeds. */
  function JoinBreaks(w: string): string
  {
    if CountChar(w, '\n') >= 2 then
      var i, j := IndexOf(w, '\n'), LastIndexOf(w, '\n');
      w[..i] + "\n\n" + w[j + 1..]
    else w
  }

  /** `/\n\s*\n/g` changes nothing in a text without line feeds. */
  lemma {:induction false} JoinBreaksNoNewline(s: string)
    requires '\n' !in s
    ensures MapRuns(s, IsSpace, JoinBreaks) == s
    decreases |s|
  {
    if s != [] {
      if !IsSpace(s[0]) {
        JoinBreaksNoNewline(s[1..]);
      } else {
        var n := RunLength(s, IsSpace);
        assert '\n' !in s[..n];
        JoinBreaksNoNewline(s[n..]);
        assert s == s[..n] + s[n..];
      }
    }
  }

  // ---------------------------------------------------------------------
  // The stages

  /** Lines 66-68: a space between a lower-case and a following capital
      letter, between a digit and a following letter, and between a letter
      and a following digit. */
  function SplitGlued(text: string): (r: string)
    ensures NoPair(r, IsLower, IsUpper) && NoPair(r, IsDigit, IsLetter) && NoPair(r, IsLetter, IsDigit)
    ensures forall i :: 0 <= i < |r| ==> r[i] == ' ' || r[i] in text
    ensures Separated(text) ==> r == text
  {
    var a := InsertBetween(text, IsLower, IsUpper);
    var b := InsertBetween(a, IsDigit, IsLetter);
    var c := InsertBetween(b, IsLetter, IsDigit);
    InsertBetweenSeparates(text, IsLower, IsUpper);
    InsertBetweenKeepsNoPair(a, IsDigit, IsLetter, IsLower, IsUpper);
    InsertBetweenKeepsNoPair(b, IsLetter, IsDigit, IsLower, IsUpper);
    InsertBetweenSeparates(a, IsDigit, IsLetter);
    InsertBetweenKeepsNoPair(b, IsLetter, IsDigit, IsDigit, IsLetter);
    InsertBetweenSeparates(b, IsLetter, IsDigit);
    c
  }

  /** Lines 71-75: the five targeted word fixes, in order. */
  function FixWords(text: string): string
  {
    var a := ApplyWordFix(WordFixes[0], text);
    var b := ApplyWordFix(WordFixes[1], a);
    var c := ApplyWordFix(WordFixes[2], b);
    var d := ApplyWordFix(WordFixes[3], c);
    ApplyWordFix(WordFixes[4], d)
  }

  /** Lines 78-79, each applied to every maximal word run. */
  function SplitInner(text: string): string
  {
    MapRuns(MapRuns(text, IsWord, SplitDigit), IsWord, SplitCapital)
  }

  /** Lines 82-83: every whitespace run becomes one space, then blank lines
      are joined. */
  function NormalizeSpace(text: string): (r: string)
    ensures r == MapRuns(text, IsSpace, SingleSpace)
    ensures NoPair(r, IsSpace, IsSpace)
    ensures forall i :: 0 <= i < |r| ==> (IsSpace(r[i]) ==> r[i] == ' ') && (r[i] == ' ' || r[i] in text)
  {
    var a := MapRuns(text, IsSpace, SingleSpace);
    SingleSpaceSeparates(text);
    SingleSpaceChars(text, IsSpace);
    assert '\n' !in a;
    JoinBreaksNoNewline(a);
    MapRuns(a, IsSpace, JoinBreaks)
  }

  /** Lines 84-85: a bullet or a hyphen, with the whitespace around it,
      becomes a line break, the mark and one space. */
  function BreakBullets(text: string): string
  {
    ReplaceSpaced(ReplaceSpaced(text, Bullet, ['\n', Bullet, ' ']), '-', "\n- ")
  }

  /** `cleanExtractedText` of app/api/parse-resume/route.ts. */
  function CleanExtractedText(text: string): string
  {
    Trim(BreakBullets(NormalizeSpace(SplitInner(FixWords(SplitGlued(text))))))
  }

  // ---------------------------------------------------------------------
  // Pairs of adjacent characters

  /** Every character of the class is a letter or a digit. */
  predicate Alnum(a: char -> bool)
  {
    forall c :: a(c) ==> IsLetter(c) || IsDigit(c)
  }

  /** The three separations that lines 66-68 establish. */
  predicate Separated(s: string)
  {
    NoPair(s, IsLower, IsUpper) && NoPair(s, IsDigit, IsLetter) && NoPair(s, IsLetter, IsDigit)
  }

  lemma NoPairSlice(s: string, i: nat, j: nat, a: char -> bool, b: char -> bool)
    requires NoPair(s, a, b) && i <= j <= |s|
    ensures NoPair(s[i..j], a, b)
  {
    forall k | 0 <= k < j - i - 1 ensures !(a(s[i..j][k]) && b(s[i..j][k + 1])) {
      assert s[i..j][k] == s[i + k] && s[i..j][k + 1] == s[i + k + 1];
    }
  }

  lemma NoPairConcat(x: string, y: string, a: char -> bool, b: char -> bool)
    requires NoPair(x, a, b) && NoPair(y, a, b)
    requires x != [] && y != [] ==> !(a(x[|x| - 1]) && b(y[0]))
    ensures NoPair(x + y, a, b)
  {
    var r := x + y;
    forall k | 0 <= k < |r| - 1 ensures !(a(r[k]) && b(r[k + 1])) {
      if k + 1 < |x| {
        assert r[k] == x[k] && r[k + 1] == x[k + 1];
      } else if k + 1 == |x| {
        assert r[k] == x[|x| - 1] && r[k + 1] == y[0];
      } else {
        assert r[k] == y[k - |x|] && r[k + 1] == y[k - |x| + 1];
      }
    }
  }

  /** Replacing maximal `p`-runs keeps a separation of two classes inside
      `p` when each replacement keeps it: the characters at the seams are
      outside `p`. */
  lemma {:induction false} MapRunsKeepsNoPair(s: string, p: char -> bool, f: string -> string,
                                              a: char -> bool, b: char -> bool)
    requires forall c :: a(c) ==> p(c)
    requires forall c :: b(c) ==> p(c)
    requires forall w :: NoPair(w, a, b) ==> NoPair(f(w), a, b)
    requires NoPair(s, a, b)
    ensures NoPair(MapRuns(s, p, f), a, b)
    decreases |s|
  {
    if s != [] {
      if !p(s[0]) {
        NoPairSlice(s, 1, |s|, a, b);
        MapRunsKeepsNoPair(s[1..], p, f, a, b);
        NoPairConcat([s[0]], MapRuns(s[1..], p, f), a, b);
      } else {
        var n := RunLength(s, p);
        NoPairSlice(s, 0, n, a, b);
        NoPairSlice(s, n, |s|, a, b);
        MapRunsKeepsNoPair(s[n..], p, f, a, b);
        var rest := MapRuns(s[n..], p, f);
        assert rest != [] ==> rest[0] == s[n];
        NoPairConcat(f(s[..n]), rest, a, b);
      }
    }
  }

  /** Replacing each whitespace run by one space keeps a separation of two
      classes without whitespace. */
  lemma {:induction false} SingleSpaceKeepsNoPair(s: string, a: char -> bool, b: char -> bool)
    requires forall c :: a(c) ==> !IsSpace(c)
    requires forall c :: b(c) ==> !IsSpace(c)
    requires NoPair(s, a, b)
    ensures NoPair(MapRuns(s, IsSpace, SingleSpace), a, b)
    decreases |s|
  {
    if s != [] {
      if !IsSpace(s[0]) {
        NoPairSlice(s, 1, |s|, a, b);
        SingleSpaceKeepsNoPair(s[1..], a, b);
        var rest := MapRuns(s[1..], IsSpace, SingleSpace);
        if |s| > 1 {
          assert rest[0] == s[1] || rest[0] == ' ';
        }
        NoPairConcat([s[0]], rest, a, b);
      } else {
        var n := RunLength(s, IsSpace);
        NoPairSlice(s, n, |s|, a, b);
        SingleSpaceKeepsNoPair(s[n..], a, b);
        NoPairConcat(" ", MapRuns(s[n..], IsSpace, SingleSpace), a, b);
      }
    }
  }

  /** After line 82 no two whitespace characters are adjacent. */
  lemma {:induction false} SingleSpaceSeparates(s: string)
    ensures NoPair(MapRuns(s, IsSpace, SingleSpace), IsSpace, IsSpace)
    decreases |s|
  {
    if s != [] {
      if !IsSpace(s[0]) {
        SingleSpaceSeparates(s[1..]);
        NoPairConcat([s[0]], MapRuns(s[1..], IsSpace, SingleSpace), IsSpace, IsSpace);
      } else {
        var n := RunLength(s, IsSpace);
        SingleSpaceSeparates(s[n..]);
        var rest := MapRuns(s[n..], IsSpace, SingleSpace);
        assert rest != [] ==> rest[0] == s[n];
        NoPairConcat(" ", rest, IsSpace, IsSpace);
      }
    }
  }

  /** The first character of a `\s*X\s*` replacement with a non-empty
      replacement is the first character of the text or of the replacement. */
  lemma ReplaceSpacedHead(s: string, x: char, r: string)
    requires s != [] && r != []
    ensures var t := ReplaceSpaced(s, x, r); t != [] && (t[0] == s[0] || t[0] == r[0])
  {
  }

  /** Neither class holds for whitespace or for any character of `r`. */
  predicate Avoids(r: string, a: char -> bool, b: char -> bool)
  {
    (forall c :: a(c) ==> !IsSpace(c)) && (forall c :: b(c) ==> !IsSpace(c)) &&
    forall i :: 0 <= i < |r| ==> !a(r[i]) && !b(r[i])
  }

  /** Lines 84-85 keep a separation of two classes that hold for no
      whitespace and no character of the replacement. */
  lemma {:induction false} ReplaceSpacedKeepsNoPair(s: string, x: char, r: string, a: char -> bool, b: char -> bool)
    requires r != [] && Avoids(r, a, b)
    requires NoPair(s, a, b)
    ensures NoPair(ReplaceSpaced(s, x, r), a, b)
    decreases |s|
  {
    if s != [] {
      var k, pre := ReplaceSpacedStep(s, x, r);
      NoPairSlice(s, k, |s|, a, b);
      ReplaceSpacedKeepsNoPair(s[k..], x, r, a, b);
      if k < |s| {
        ReplaceSpacedHead(s[k..], x, r);
      }
      StepNoPair(s, k, pre, ReplaceSpaced(s[k..], x, r), r, a, b);
    }
  }

  /** The replacement of one step glued to separated replaced rest stays
      separated. */
  lemma {:induction false} StepNoPair(s: string, k: nat, pre: string, t: string, r: string, a: char -> bool, b: char -> bool)
    requires 0 < k <= |s|
    requires pre == r || (pre == s[..k] && (k == 1 || IsSpace(s[k - 1])))
    requires r != [] && Avoids(r, a, b)
    requires NoPair(s, a, b) && NoPair(t, a, b)
    requires t != [] ==> t[0] == r[0] || (k < |s| && t[0] == s[k..][0])
    ensures NoPair(pre + t, a, b)
  {
    if pre == r {
      NoPairConcat(r, t, a, b);
    } else {
      KeptStepNoPair(s, k, t, r, a, b);
    }
  }

  /** Gluing the kept prefix `s[..k]` of the text to the replaced rest keeps
      a separation, when the prefix is one character or ends in whitespace. */
  lemma {:induction false} KeptStepNoPair(s: string, k: nat, t: string, r: string, a: char -> bool, b: char -> bool)
    requires 0 < k <= |s|
    requires k > 1 ==> IsSpace(s[k - 1])
    requires forall c :: a(c) ==> !IsSpace(c)
    requires forall i :: 0 <= i < |r| ==> !b(r[i])
    requires NoPair(s, a, b) && NoPair(t, a, b)
    requires t != [] ==> (r != [] && t[0] == r[0]) || (k < |s| && t[0] == s[k..][0])
    ensures NoPair(s[..k] + t, a, b)
  {
    NoPairSlice(s, 0, k, a, b);
    if t != [] && k == 1 && k < |s| && t[0] == s[k..][0] {
      assert s[..k][|s[..k]| - 1] == s[0] && t[0] == s[1];
    }
    NoPairConcat(s[..k], t, a, b);
  }

  // ---------------------------------------------------------------------
  // Each stage keeps the separations

  /** The replacement text of a whole-word fix is lower-case words and spaces. */
  predicate LowerWords(w: string)
  {
    forall i :: 0 <= i < |w| ==> IsLower(w[i]) || w[i] == ' '
  }

  lemma LowerWordsSeparated(w: string)
    requires LowerWords(w)
    ensures Separated(w)
  {
  }

  /** A whole-word fix whose replacement is lower-case words keeps the separations. */
  lemma WholeWordKeepsSeparated(fix: WordFix, s: string)
    requires fix.WholeWord? && LowerWords(fix.replacement)
    requires Separated(s)
    ensures Separated(ApplyWordFix(fix, s))
  {
    var f := Fixer(fix);
    LowerWordsSeparated(fix.replacement);
    forall w | NoPair(w, IsLower, IsUpper) ensures NoPair(f(w), IsLower, IsUpper) { }
    forall w | NoPair(w, IsDigit, IsLetter) ensures NoPair(f(w), IsDigit, IsLetter) { }
    forall w | NoPair(w, IsLetter, IsDigit) ensures NoPair(f(w), IsLetter, IsDigit) { }
    MapRunsKeepsNoPair(s, IsWord, f, IsLower, IsUpper);
    MapRunsKeepsNoPair(s, IsWord, f, IsDigit, IsLetter);
    MapRunsKeepsNoPair(s, IsWord, f, IsLetter, IsDigit);
  }

  /** Once no letter is directly followed by a digit, the fix
      `/\bgenerate(\d+)\b/g` finds nothing: "generate" ends in a letter. */
  lemma {:induction false} GenerateNeverFires(s: string)
    requires NoPair(s, IsLetter, IsDigit)
    ensures ApplyWordFix(WordFixes[4], s) == s
    decreases |s|
  {
    var f := Fixer(WordFixes[4]);
    if s != [] {
      if !IsWord(s[0]) {
        NoPairSlice(s, 1, |s|, IsLetter, IsDigit);
        GenerateNeverFires(s[1..]);
      } else {
        var n := RunLength(s, IsWord);
        var w := s[..n];
        if |w| > 8 {
          assert w[7] == s[7] && w[8] == s[8];
          assert !(IsLetter(w[7]) && IsDigit(w[8]));
          if w[..8] == "generate" {
            assert w[7] == w[..8][7] == 'e';
            assert w[8] == w[8..][0];
          }
        }
        assert f(w) == w;
        NoPairSlice(s, n, |s|, IsLetter, IsDigit);
        GenerateNeverFires(s[n..]);
        assert s == w + s[n..];
      }
    }
  }

  /** The first four fixes are whole-word fixes whose replacement is
      lower-case words. */
  lemma WholeFixLower(i: nat)
    requires i < 4
    ensures WordFixes[i].WholeWord? && LowerWords(WordFixes[i].replacement)
  {
  }

  /** Lines 71-75 keep the separations of lines 66-68, and the last of them
      never changes anything. */
  lemma FixWordsKeepsSeparated(s: string)
    requires Separated(s)
    ensures Separated(FixWords(s))
    ensures var a := ApplyWordFix(WordFixes[0], s);
            var b := ApplyWordFix(WordFixes[1], a);
            var c := ApplyWordFix(WordFixes[2], b);
            FixWords(s) == ApplyWordFix(WordFixes[3], c)
  {
    var a := ApplyWordFix(WordFixes[0], s);
    var b := ApplyWordFix(WordFixes[1], a);
    var c := ApplyWordFix(WordFixes[2], b);
    var d := ApplyWordFix(WordFixes[3], c);
    WholeFixLower(0);
    WholeFixLower(1);
    WholeFixLower(2);
    WholeFixLower(3);
    WholeWordKeepsSeparated(WordFixes[0], s);
    WholeWordKeepsSeparated(WordFixes[1], a);
    WholeWordKeepsSeparated(WordFixes[2], b);
    WholeWordKeepsSeparated(WordFixes[3], c);
    GenerateNeverFires(d);
  }

  /** Setting one character apart by spaces keeps a separation of two
      classes without the space. */
  lemma SplitAroundKeepsNoPair(w: string, p: char -> bool, a: char -> bool, b: char -> bool)
    requires !a(' ') && !b(' ')
    requires NoPair(w, a, b)
    ensures NoPair(SplitAround(w, p), a, b)
  {
    var r := SplitAround(w, p);
    if r != w {
      var k :| 1 <= k < |w| - 1 && p(w[k]) && r == w[..k] + [' ', w[k], ' '] + w[k + 1..];
      NoPairSlice(w, 0, k, a, b);
      NoPairSlice(w, k + 1, |w|, a, b);
      NoPairConcat(w[..k], [' ', w[k], ' '], a, b);
      NoPairConcat(w[..k] + [' ', w[k], ' '], w[k + 1..], a, b);
    }
  }

  lemma SplitRunsKeepsNoPair(s: string, f: string -> string, p: char -> bool, a: char -> bool, b: char -> bool)
    requires forall w :: f(w) == SplitAround(w, p)
    requires forall c :: a(c) ==> IsWord(c)
    requires forall c :: b(c) ==> IsWord(c)
    requires NoPair(s, a, b)
    ensures NoPair(MapRuns(s, IsWord, f), a, b)
  {
    forall w | NoPair(w, a, b) ensures NoPair(f(w), a, b) {
      SplitAroundKeepsNoPair(w, p, a, b);
    }
    MapRunsKeepsNoPair(s, IsWord, f, a, b);
  }

  /** Lines 78-79 keep the separations. */
  lemma SplitInnerKeepsSeparated(s: string)
    requires Separated(s)
    ensures Separated(SplitInner(s))
  {
    var d := MapRuns(s, IsWord, SplitDigit);
    SplitRunsKeepsNoPair(s, SplitDigit, IsDigit, IsLower, IsUpper);
    SplitRunsKeepsNoPair(s, SplitDigit, IsDigit, IsDigit, IsLetter);
    SplitRunsKeepsNoPair(s, SplitDigit, IsDigit, IsLetter, IsDigit);
    SplitRunsKeepsNoPair(d, SplitCapital, IsUpper, IsLower, IsUpper);
    SplitRunsKeepsNoPair(d, SplitCapital, IsUpper, IsDigit, IsLetter);
    SplitRunsKeepsNoPair(d, SplitCapital, IsUpper, IsLetter, IsDigit);
  }

  /** Lines 82-83 keep the separations. */
  lemma NormalizeSpaceKeepsSeparated(s: string)
    requires Separated(s)
    ensures Separated(NormalizeSpace(s))
  {
    SingleSpaceKeepsNoPair(s, IsLower, IsUpper);
    SingleSpaceKeepsNoPair(s, IsDigit, IsLetter);
    SingleSpaceKeepsNoPair(s, IsLetter, IsDigit);
  }

  /** Lines 84-85 keep the separations: their replacements hold no letter
      and no digit. */
  lemma BreakBulletsKeepsSeparated(s: string)
    requires Separated(s)
    ensures Separated(BreakBullets(s))
  {
    var r1, r2 := ['\n', Bullet, ' '], "\n- ";
    NoWordChars(r1);
    ReplaceSpacedKeepsSeparated(s, Bullet, r1);
    NoWordChars(r2);
    ReplaceSpacedKeepsSeparated(ReplaceSpaced(s, Bullet, r1), '-', r2);
  }

  /** A replacement of line breaks, spaces and marks holds for none of the
      three separated classes. */
  lemma NoWordChars(r: string)
    requires forall i :: 0 <= i < |r| ==> !IsLetter(r[i]) && !IsDigit(r[i])
    ensures Avoids(r, IsLower, IsUpper) && Avoids(r, IsDigit, IsLetter) && Avoids(r, IsLetter, IsDigit)
  {
  }

  /** One of lines 84-85 keeps the separations. */
  lemma ReplaceSpacedKeepsSeparated(s: string, x: char, r: string)
    requires r != [] && Avoids(r, IsLower, IsUpper) && Avoids(r, IsDigit, IsLetter) && Avoids(r, IsLetter, IsDigit)
    requires Separated(s)
    ensures Separated(ReplaceSpaced(s, x, r))
  {
    ReplaceSpacedKeepsNoPair(s, x, r, IsLower, IsUpper);
    ReplaceSpacedKeepsNoPair(s, x, r, IsDigit, IsLetter);
    ReplaceSpacedKeepsNoPair(s, x, r, IsLetter, IsDigit);
  }

  lemma TrimKeepsSeparated(s: string)
    requires Separated(s)
    ensures Separated(Trim(s))
  {
    var r := Trim(s);
    if r != [] {
      var i, j := RunLength(s, IsSpace), |s| - TrailingSpaces(s);
      NoPairSlice(s, i, j, IsLower, IsUpper);
      NoPairSlice(s, i, j, IsDigit, IsLetter);
      NoPairSlice(s, i, j, IsLetter, IsDigit);
    }
  }

  // ---------------------------------------------------------------------
  // Whitespace and line breaks

  /** Every character of a `\s*X\s*` replacement comes from the text or
      from the replacement. */
  lemma {:induction false} ReplaceSpacedChars(s: string, x: char, r: string)
    ensures forall c :: c in ReplaceSpaced(s, x, r) ==> c in s || c in r
    decreases |s|
  {
    if s != [] {
      var n := RunLength(s, IsSpace);
      var k;
      if n < |s| && s[n] == x {
        k := ReplaceSpacedMark(s, x, r);
      } else {
        k := ReplaceSpacedKept(s, x, r);
        assert forall c :: c in s[..k] ==> c in s;
      }
      ReplaceSpacedChars(s[k..], x, r);
      assert forall c :: c in s[k..] ==> c in s;
    }
  }

  /** Every line feed is directly followed by one of `marks`. */
  predicate BreaksBefore(s: string, marks: set<char>)
  {
    forall i :: 0 <= i < |s| && s[i] == '\n' ==> i + 1 < |s| && s[i + 1] in marks
  }

  lemma BreaksBeforeSuffix(s: string, k: nat, marks: set<char>)
    requires BreaksBefore(s, marks) && k <= |s|
    ensures BreaksBefore(s[k..], marks)
  {
    forall i | 0 <= i < |s[k..]| && s[k..][i] == '\n' ensures i + 1 < |s[k..]| && s[k..][i + 1] in marks {
      assert s[k..][i] == s[k + i];
    }
  }

  lemma BreaksBeforeConcat(x: string, y: string, marks: set<char>)
    requires forall i :: 0 <= i < |x| - 1 && x[i] == '\n' ==> x[i + 1] in marks
    requires x != [] && x[|x| - 1] == '\n' ==> y != [] && y[0] in marks
    requires BreaksBefore(y, marks)
    ensures BreaksBefore(x + y, marks)
  {
    var t := x + y;
    forall i | 0 <= i < |t| && t[i] == '\n' ensures i + 1 < |t| && t[i + 1] in marks {
      if i < |x| - 1 {
        assert t[i] == x[i] && t[i + 1] == x[i + 1];
      } else if i == |x| - 1 {
        assert t[i] == x[|x| - 1] && t[i + 1] == y[0];
      } else {
        assert t[i] == y[i - |x|] && t[i + 1] == y[i - |x| + 1];
      }
    }
  }

  lemma BreaksBeforeMore(s: string, marks: set<char>, more: set<char>)
    requires BreaksBefore(s, marks) && marks <= more
    ensures BreaksBefore(s, more)
  {
  }

  /** Replacing `\s*X\s*` by a line feed, `X` and a space puts `X` after
      the new line feeds and keeps each old line feed before its mark, when
      no mark is whitespace. */
  lemma {:induction false} ReplaceSpacedBreaks(s: string, x: char, marks: set<char>)
    requires !IsSpace(x)
    requires forall c :: c in marks ==> !IsSpace(c)
    requires BreaksBefore(s, marks)
    ensures BreaksBefore(ReplaceSpaced(s, x, ['\n', x, ' ']), marks + {x})
    decreases |s|
  {
    var r := ['\n', x, ' '];
    var m' := marks + {x};
    if s != [] {
      var n := RunLength(s, IsSpace);
      if n < |s| && s[n] == x {
        var k := ReplaceSpacedMark(s, x, r);
        BreaksBeforeSuffix(s, k, marks);
        ReplaceSpacedBreaks(s[k..], x, marks);
        MarkBreaks(x, ReplaceSpaced(s[k..], x, r), marks);
      } else if n == 0 {
        BreaksBeforeSuffix(s, 1, marks);
        ReplaceSpacedBreaks(s[1..], x, marks);
        KeptCharBreaks(s, x, marks);
      } else {
        BreaksBeforeSuffix(s, n, marks);
        ReplaceSpacedBreaks(s[n..], x, marks);
        KeptRunBreaks(s, n, x, marks);
      }
    }
  }

  lemma KeptRunBreaks(s: string, n: nat, x: char, marks: set<char>)
    requires n == RunLength(s, IsSpace) && 0 < n && (n == |s| || s[n] != x)
    requires forall c :: c in marks ==> !IsSpace(c)
    requires BreaksBefore(s, marks)
    requires BreaksBefore(ReplaceSpaced(s[n..], x, ['\n', x, ' ']), marks + {x})
    ensures BreaksBefore(ReplaceSpaced(s, x, ['\n', x, ' ']), marks + {x})
  {
    var r := ['\n', x, ' '];
    var m' := marks + {x};
    var rest := ReplaceSpaced(s[n..], x, r);
    var w := s[..n];
    assert ReplaceSpaced(s, x, r) == w + rest;
    forall i | 0 <= i < |w| - 1 ensures w[i] != '\n' {
      assert w[i] == s[i] && IsSpace(s[i + 1]);
    }
    if w[|w| - 1] == '\n' {
      assert s[n - 1] == '\n';
      assert s[n..][0] == s[n] && RunLength(s[n..], IsSpace) == 0;
      assert rest[0] == s[n];
    }
    BreaksBeforeConcat(w, rest, m');
  }

  lemma {:induction false} MarkBreaks(x: char, t: string, marks: set<char>)
    requires x != '\n'
    requires BreaksBefore(t, marks + {x})
    ensures BreaksBefore(['\n', x, ' '] + t, marks + {x})
  {
    var r := ['\n', x, ' '];
    assert r[0] == '\n' && r[1] == x && r[2] == ' ';
    forall i | 0 <= i < |r| - 1 && r[i] == '\n' ensures r[i + 1] in marks + {x} {
      assert i == 0;
    }
    BreaksBeforeConcat(r, t, marks + {x});
  }

  /** One step of `\s*X\s*` replacement: the first `k` characters of the
      text become `pre`, which is the replacement or the kept characters. */
  lemma {:induction false} ReplaceSpacedStep(s: string, x: char, r: string) returns (k: nat, pre: string)
    requires s != []
    ensures 0 < k <= |s|
    ensures ReplaceSpaced(s, x, r) == pre + ReplaceSpaced(s[k..], x, r)
    ensures pre == r || (pre == s[..k] && (k == 1 || IsSpace(s[k - 1])))
  {
    var n := RunLength(s, IsSpace);
    if n < |s| && s[n] == x {
      k := ReplaceSpacedMark(s, x, r);
      pre := r;
    } else {
      k := ReplaceSpacedKept(s, x, r);
      pre := s[..k];
    }
  }

  /** A mark with the whitespace around it is replaced as a whole; `k` is
      where the text after that whitespace starts. */
  lemma {:induction false} ReplaceSpacedMark(s: string, x: char, r: string) returns (k: nat)
    requires s != [] && RunLength(s, IsSpace) < |s| && s[RunLength(s, IsSpace)] == x
    ensures k == RunLength(s, IsSpace) + 1 + RunLength(s[RunLength(s, IsSpace) + 1..], IsSpace)
    ensures ReplaceSpaced(s, x, r) == r + ReplaceSpaced(s[k..], x, r)
    ensures 0 < k <= |s|
  {
    k := RunLength(s, IsSpace) + 1 + RunLength(s[RunLength(s, IsSpace) + 1..], IsSpace);
  }

  /** Text that does not start a mark is kept: one character when it does
      not start with whitespace, the whole whitespace run otherwise. */
  lemma {:induction false} ReplaceSpacedKept(s: string, x: char, r: string) returns (k: nat)
    requires s != [] && !(RunLength(s, IsSpace) < |s| && s[RunLength(s, IsSpace)] == x)
    ensures k == if RunLength(s, IsSpace) == 0 then 1 else RunLength(s, IsSpace)
    ensures ReplaceSpaced(s, x, r) == s[..k] + ReplaceSpaced(s[k..], x, r)
    ensures 0 < k <= |s|
  {
    k := if RunLength(s, IsSpace) == 0 then 1 else RunLength(s, IsSpace);
    assert RunLength(s, IsSpace) == 0 ==> s[..1] == [s[0]];
  }

  lemma KeptCharBreaks(s: string, x: char, marks: set<char>)
    requires s != [] && !IsSpace(s[0]) && s[0] != x
    requires BreaksBefore(ReplaceSpaced(s[1..], x, ['\n', x, ' ']), marks + {x})
    ensures BreaksBefore(ReplaceSpaced(s, x, ['\n', x, ' ']), marks + {x})
  {
    var r := ['\n', x, ' '];
    assert ReplaceSpaced(s, x, r) == [s[0]] + ReplaceSpaced(s[1..], x, r);
    BreaksBeforeConcat([s[0]], ReplaceSpaced(s[1..], x, r), marks + {x});
  }

  lemma TrimKeepsBreaks(s: string, marks: set<char>)
    requires forall c :: c in marks ==> !IsSpace(c)
    requires BreaksBefore(s, marks)
    ensures BreaksBefore(Trim(s), marks)
  {
    var r := Trim(s);
    if r != [] {
      var a, b := RunLength(s, IsSpace), |s| - TrailingSpaces(s);
      forall i | 0 <= i < |r| && r[i] == '\n' ensures i + 1 < |r| && r[i + 1] in marks {
        assert r[i] == s[a + i];
        assert s[a + i + 1] in marks;
        assert a + i + 1 < b;
        assert r[i + 1] == s[a + i + 1];
      }
    }
  }

  /** The only whitespace characters are the space and the line feed. */
  predicate PlainSpacing(s: string)
  {
    forall i :: 0 <= i < |s| && IsSpace(s[i]) ==> s[i] == ' ' || s[i] == '\n'
  }

  lemma ReplaceSpacedPlain(s: string, x: char, r: string)
    requires PlainSpacing(s) && PlainSpacing(r)
    ensures PlainSpacing(ReplaceSpaced(s, x, r))
  {
    var t := ReplaceSpaced(s, x, r);
    ReplaceSpacedChars(s, x, r);
    forall i | 0 <= i < |t| && IsSpace(t[i]) ensures t[i] == ' ' || t[i] == '\n' {
      assert t[i] in t;
      if t[i] in s {
        var j :| 0 <= j < |s| && s[j] == t[i];
      } else {
        var j :| 0 <= j < |r| && r[j] == t[i];
      }
    }
  }

  // ---------------------------------------------------------------------
  // The whole clean-up

  /** What `cleanExtractedText` guarantees about its result: no lower-case
      letter directly before a capital, no digit next to a letter, no
      whitespace at either end, no whitespace other than the space and the
      line feed (so no tab and no carriage return), every line feed
      directly followed by a bullet or a hyphen, and every hyphen at the
      start of a line and before a space. */
  lemma CleanShape(text: string)
    ensures var out := CleanExtractedText(text);
            && NoPair(out, IsLower, IsUpper)
            && NoPair(out, IsDigit, IsLetter)
            && NoPair(out, IsLetter, IsDigit)
            && (out == [] || (!IsSpace(out[0]) && !IsSpace(out[|out| - 1])))
            && PlainSpacing(out)
            && BreaksBefore(out, {Bullet, '-'})
            && HyphenLines(out)
  {
    CleanSeparated(text);
    CleanSpacing(text);
    CleanBreaks(text);
    CleanHyphens(text);
  }

  lemma CleanSeparated(text: string)
    ensures Separated(CleanExtractedText(text))
  {
    var a := SplitGlued(text);
    var b := FixWords(a);
    var c := SplitInner(b);
    var d := NormalizeSpace(c);
    FixWordsKeepsSeparated(a);
    SplitInnerKeepsSeparated(b);
    NormalizeSpaceKeepsSeparated(c);
    BreakBulletsKeepsSeparated(d);
    TrimKeepsSeparated(BreakBullets(d));
  }

  lemma TrimPlain(s: string)
    requires PlainSpacing(s)
    ensures PlainSpacing(Trim(s))
  {
    var out := Trim(s);
    forall i | 0 <= i < |out| && IsSpace(out[i]) ensures out[i] == ' ' || out[i] == '\n' {
      assert out[i] == s[RunLength(s, IsSpace) + i];
    }
  }

  lemma BreakBulletsPlain(d: string)
    requires PlainSpacing(d)
    ensures PlainSpacing(Trim(BreakBullets(d)))
  {
    var r1 := ['\n', Bullet, ' '];
    ReplaceSpacedPlain(d, Bullet, r1);
    ReplaceSpacedPlain(ReplaceSpaced(d, Bullet, r1), '-', "\n- ");
    TrimPlain(BreakBullets(d));
  }

  lemma CleanSpacing(text: string)
    ensures PlainSpacing(CleanExtractedText(text))
  {
    var d := NormalizeSpace(SplitInner(FixWords(SplitGlued(text))));
    assert PlainSpacing(d);
    BreakBulletsPlain(d);
  }

  lemma CleanBreaks(text: string)
    ensures BreaksBefore(CleanExtractedText(text), {Bullet, '-'})
  {
    var c := CleanTail(text);
    NormalizedNoNewline(c);
    TrimmedBreaks(NormalizeSpace(c));
  }

  /** Lines 84-85 and the trim on a text without line breaks. */
  lemma TrimmedBreaks(d: string)
    requires '\n' !in d
    ensures BreaksBefore(Trim(BreakBullets(d)), {Bullet, '-'})
  {
    BreakBulletsBreaks(d);
    TrimKeepsBreaks(BreakBullets(d), {Bullet, '-'});
  }

  /** The cleaned text is lines 82-85 and the trim applied to the text that
      lines 64-79 give. */
  lemma CleanTail(text: string) returns (c: string)
    ensures c == SplitInner(FixWords(SplitGlued(text)))
    ensures CleanExtractedText(text) == Trim(BreakBullets(NormalizeSpace(c)))
  {
    c := SplitInner(FixWords(SplitGlued(text)));
  }

  /** Lines 82-83 leave no line break. */
  lemma NormalizedNoNewline(c: string)
    ensures '\n' !in NormalizeSpace(c)
  {
  }

  /** After lines 84-85 every line break of a text without line breaks is
      followed by a bullet or a hyphen. */
  lemma BreakBulletsBreaks(d: string)
    requires '\n' !in d
    ensures BreaksBefore(BreakBullets(d), {Bullet, '-'})
  {
    var d1 := ReplaceSpaced(d, Bullet, ['\n', Bullet, ' ']);
    assert BreaksBefore(d, {});
    ReplaceSpacedBreaks(d, Bullet, {});
    assert {} + {Bullet} == {Bullet};
    ReplaceSpacedBreaks(d1, '-', {Bullet});
    assert {Bullet} + {'-'} == {Bullet, '-'};
  }

  /** Every `x` stands between a line feed and a space. */
  predicate Framed(s: string, x: char)
  {
    forall i :: 0 <= i < |s| && s[i] == x ==> 0 < i < |s| - 1 && s[i - 1] == '\n' && s[i + 1] == ' '
  }

  /** Every hyphen starts a line and is followed by a space, except where
      the text begins or ends. */
  predicate HyphenLines(s: string)
  {
    forall i :: 0 <= i < |s| && s[i] == '-' ==> (i == 0 || s[i - 1] == '\n') && (i + 1 == |s| || s[i + 1] == ' ')
  }

  lemma FramedConcat(a: string, b: string, x: char)
    requires Framed(a, x) && Framed(b, x)
    ensures Framed(a + b, x)
  {
    var t := a + b;
    forall i | 0 <= i < |t| && t[i] == x ensures 0 < i < |t| - 1 && t[i - 1] == '\n' && t[i + 1] == ' ' {
      if i < |a| {
        assert t[i] == a[i] && t[i - 1] == a[i - 1] && t[i + 1] == a[i + 1];
      } else {
        assert t[i] == b[i - |a|] && t[i - 1] == b[i - |a| - 1] && t[i + 1] == b[i - |a| + 1];
      }
    }
  }

  /** Replacing `\s*X\s*` by a line feed, `X` and a space leaves every `X`
      framed: the text's own marks are all replaced, so each remaining `X`
      is one the replacement put there. */
  lemma {:induction false} ReplaceSpacedFramed(s: string, x: char)
    requires !IsSpace(x) && x != '\n'
    ensures Framed(ReplaceSpaced(s, x, ['\n', x, ' ']), x)
    decreases |s|
  {
    if s != [] {
      var n := RunLength(s, IsSpace);
      var k;
      if n < |s| && s[n] == x {
        k := ReplaceSpacedMark(s, x, ['\n', x, ' ']);
        ReplaceSpacedFramed(s[k..], x);
        MarkFramed(x, ReplaceSpaced(s[k..], x, ['\n', x, ' ']));
      } else {
        k := ReplaceSpacedKept(s, x, ['\n', x, ' ']);
        ReplaceSpacedFramed(s[k..], x);
        KeptFramed(s, k, x, ReplaceSpaced(s[k..], x, ['\n', x, ' ']));
      }
    }
  }

  lemma MarkFramed(x: char, t: string)
    requires x != '\n' && x != ' ' && Framed(t, x)
    ensures Framed(['\n', x, ' '] + t, x)
  {
    var r := ['\n', x, ' '];
    assert r[0] == '\n' && r[1] == x && r[2] == ' ';
    FramedConcat(r, t, x);
  }

  /** The kept characters before the next mark hold no mark. */
  lemma KeptFramed(s: string, k: nat, x: char, t: string)
    requires !IsSpace(x) && 0 < k <= |s|
    requires k == if RunLength(s, IsSpace) == 0 then 1 else RunLength(s, IsSpace)
    requires !(RunLength(s, IsSpace) < |s| && s[RunLength(s, IsSpace)] == x)
    requires Framed(t, x)
    ensures Framed(s[..k] + t, x)
  {
    assert forall i :: 0 <= i < k ==> s[..k][i] == s[i];
    FramedConcat(s[..k], t, x);
  }

  /** Any slice of a text with framed hyphens keeps them at line starts. */
  lemma FramedSlice(s: string, a: nat, b: nat)
    requires Framed(s, '-') && a <= b <= |s|
    ensures HyphenLines(s[a..b])
  {
    var t := s[a..b];
    forall i | 0 <= i < |t| && t[i] == '-' ensures (i == 0 || t[i - 1] == '\n') && (i + 1 == |t| || t[i + 1] == ' ') {
      assert t[i] == s[a + i];
      if i > 0 { assert t[i - 1] == s[a + i - 1]; }
      if i + 1 < |t| { assert t[i + 1] == s[a + i + 1]; }
    }
  }

  /** Every hyphen of the cleaned text begins a "- " line (or the text),
      including a hyphen that was inside a word: line 85 replaces every
      hyphen and line 84's replacement holds none. */
  lemma CleanHyphens(text: string)
    ensures HyphenLines(CleanExtractedText(text))
  {
    var c := CleanTail(text);
    var d1 := ReplaceSpaced(NormalizeSpace(c), Bullet, ['\n', Bullet, ' ']);
    var e := ReplaceSpaced(d1, '-', "\n- ");
    ReplaceSpacedFramed(d1, '-');
    var t := Trim(e);
    if t == [] {
      assert HyphenLines(t);
    } else {
      FramedSlice(e, RunLength(e, IsSpace), |e| - TrailingSpaces(e));
    }
  }

  // ---------------------------------------------------------------------
  // Examples

  /** A run map that leaves alone every string made of `q`-characters
      leaves a text made of `q`-characters alone. */
  lemma {:induction false} MapRunsIdentity(s: string, p: char -> bool, f: string -> string, q: char -> bool)
    requires KeepsAllIn(f, q)
    requires AllIn(s, q)
    ensures MapRuns(s, p, f) == s
    decreases |s|
  {
    if s != [] {
      var n, pre := MapRunsStep(s, p, f);
      AllInSlice(s, q, 0, n);
      AllInSlice(s, q, n, |s|);
      if p(s[0]) {
        KeepsAllInApply(f, q, s[..n]);
      }
      MapRunsIdentity(s[n..], p, f, q);
      Rejoin(MapRuns(s, p, f), pre, MapRuns(s[n..], p, f), s, n);
    }
  }

  lemma KeepsAllInApply(f: string -> string, q: char -> bool, w: string)
    requires KeepsAllIn(f, q) && AllIn(w, q)
    ensures f(w) == w
  {
  }

  /** A text glued back from its two halves. */
  lemma Rejoin(whole: string, a: string, b: string, s: string, n: nat)
    requires n <= |s| && whole == a + b && a == s[..n] && b == s[n..]
    ensures whole == s
  {
    assert s == s[..n] + s[n..];
  }

  /** Every character of `w` is in class `q`. */
  predicate AllIn(w: string, q: char -> bool)
  {
    forall i :: 0 <= i < |w| ==> q(w[i])
  }

  /** `f` leaves alone every string made of `q`-characters. */
  ghost predicate KeepsAllIn(f: string -> string, q: char -> bool)
  {
    forall w :: AllIn(w, q) ==> f(w) == w
  }

  lemma AllInSlice(s: string, q: char -> bool, i: nat, j: nat)
    requires AllIn(s, q) && i <= j <= |s|
    ensures AllIn(s[i..j], q)
  {
    forall k | 0 <= k < j - i ensures q(s[i..j][k]) {
      assert s[i..j][k] == s[i + k];
    }
  }

  /** The first step of a run map: one character outside the class is
      copied, a run of the class is replaced as a whole. */
  lemma {:induction false} MapRunsStep(s: string, p: char -> bool, f: string -> string) returns (n: nat, pre: string)
    requires s != []
    ensures 0 < n <= |s|
    ensures MapRuns(s, p, f) == pre + MapRuns(s[n..], p, f)
    ensures !p(s[0]) ==> n == 1 && pre == [s[0]] == s[..1]
    ensures p(s[0]) ==> n == RunLength(s, p) && pre == f(s[..n])
  {
    if !p(s[0]) {
      n, pre := 1, [s[0]];
      MapRunsOther(s, p, f);
    } else {
      n := RunLength(s, p);
      pre := f(s[..n]);
      MapRunsRun(s, p, f);
    }
  }

  predicate NotLower(c: char) { !IsLower(c) }
  predicate NotUpper(c: char) { !IsUpper(c) }
  predicate NotDigit(c: char) { !IsDigit(c) }

  /** Every word fix starts its target with a lower-case letter. */
  lemma FixWordNoLower(fix: WordFix, w: string)
    requires fix in WordFixes
    requires forall i :: 0 <= i < |w| ==> NotLower(w[i])
    ensures Fixer(fix)(w) == w
  {
    if w != [] {
      assert !IsLower(w[0]);
    }
    if |w| > 8 {
      assert w[..8][0] == w[0];
    }
  }

  lemma ApplyWordFixNoLower(fix: WordFix, s: string)
    requires fix in WordFixes
    requires forall i :: 0 <= i < |s| ==> NotLower(s[i])
    ensures ApplyWordFix(fix, s) == s
  {
    forall w | AllIn(w, NotLower) ensures Fixer(fix)(w) == w {
      FixWordNoLower(fix, w);
    }
    MapRunsIdentity(s, IsWord, Fixer(fix), NotLower);
  }

  /** The word fixes of lines 71-75 change nothing in a text without
      lower-case letters. */
  lemma FixWordsNoLower(s: string)
    requires forall i :: 0 <= i < |s| ==> NotLower(s[i])
    ensures FixWords(s) == s
  {
    ApplyWordFixNoLower(WordFixes[0], s);
    ApplyWordFixNoLower(WordFixes[1], s);
    ApplyWordFixNoLower(WordFixes[2], s);
    ApplyWordFixNoLower(WordFixes[3], s);
    ApplyWordFixNoLower(WordFixes[4], s);
  }

  /** Line 82 changes nothing once every whitespace character is a lone space. */
  lemma {:induction false} SingleSpaceIdentity(s: string)
    requires NoPair(s, IsSpace, IsSpace)
    requires forall i :: 0 <= i < |s| && IsSpace(s[i]) ==> s[i] == ' '
    ensures MapRuns(s, IsSpace, SingleSpace) == s
    decreases |s|
  {
    if s != [] {
      NoPairSlice(s, 1, |s|, IsSpace, IsSpace);
      SingleSpaceIdentity(s[1..]);
      if IsSpace(s[0]) {
        assert RunLength(s, IsSpace) == 1 by {
          assert |s| > 1 ==> !IsSpace(s[1]);
          assert s[1..] != [] ==> s[1..][0] == s[1];
        }
        assert s == [s[0]] + s[1..];
      }
    }
  }

  /** Lines 84-85 change nothing in a text without their mark. */
  lemma {:induction false} ReplaceSpacedAbsent(s: string, x: char, r: string)
    requires x !in s
    ensures ReplaceSpaced(s, x, r) == s
    decreases |s|
  {
    if s != [] {
      var n := RunLength(s, IsSpace);
      if n == 0 {
        ReplaceSpacedAbsent(s[1..], x, r);
        assert s == [s[0]] + s[1..];
      } else {
        assert n < |s| ==> s[n] in s;
        ReplaceSpacedAbsent(s[n..], x, r);
        assert s == s[..n] + s[n..];
      }
    }
  }

  lemma {:induction false} RunLengthPrefix(s: string, k: nat, p: char -> bool)
    requires RunLength(s, p) <= k <= |s|
    ensures RunLength(s[..k], p) == RunLength(s, p)
  {
    if s != [] && p(s[0]) {
      assert s[..k][1..] == s[1..][..k - 1];
      RunLengthPrefix(s[1..], k - 1, p);
    }
  }

  /** A run map splits at any character outside the class. */
  lemma {:induction false} MapRunsAt(s: string, k: nat, p: char -> bool, f: string -> string)
    requires k < |s| && !p(s[k])
    ensures MapRuns(s, p, f) == MapRuns(s[..k], p, f) + [s[k]] + MapRuns(s[k + 1..], p, f)
    decreases |s|
  {
    if k == 0 {
      MapRunsOther(s, p, f);
      assert s[..0] == [] && s[1..] == s[k + 1..];
    } else {
      var n, pre := MapRunsStepBefore(s, k, p, f);
      var t := s[n..];
      if n < k {
        MapRunsAt(t, k - n, p, f);
        assert t[..k - n] == s[n..k] && t[k - n] == s[k] && t[k - n + 1..] == s[k + 1..];
      } else {
        MapRunsOther(t, p, f);
        assert s[n..k] == [] && t[0] == s[k] && t[1..] == s[k + 1..];
      }
      Regroup(MapRuns(s, p, f), pre, MapRuns(t, p, f), MapRuns(s[n..k], p, f), s[k], MapRuns(s[k + 1..], p, f));
    }
  }

  /** Regrouping a concatenation around one character. */
  lemma Regroup(whole: string, pre: string, rest: string, b: string, x: char, c: string)
    requires whole == pre + rest && rest == b + [x] + c
    ensures whole == (pre + b) + [x] + c
  {
  }

  /** A run ends before the first character outside its class. */
  lemma RunLengthBefore(s: string, p: char -> bool, k: nat)
    requires k < |s| && !p(s[k])
    ensures RunLength(s, p) <= k
  {
  }

  /** The first step of a run map, taken both on the text and on its first
      `k` characters, when the character at `k` is outside the class: both
      start with the same `pre` for the first `n` characters. */
  lemma {:induction false} MapRunsStepBefore(s: string, k: nat, p: char -> bool, f: string -> string)
    returns (n: nat, pre: string)
    requires 0 < k < |s| && !p(s[k])
    ensures 0 < n <= k
    ensures MapRuns(s, p, f) == pre + MapRuns(s[n..], p, f)
    ensures MapRuns(s[..k], p, f) == pre + MapRuns(s[n..k], p, f)
  {
    if !p(s[0]) {
      n, pre := 1, [s[0]];
      MapRunsOther(s, p, f);
      MapRunsOther(s[..k], p, f);
      assert s[..k][1..] == s[1..k];
    } else {
      n := RunLength(s, p);
      RunLengthBefore(s, p, k);
      pre := f(s[..n]);
      RunLengthPrefix(s, k, p);
      MapRunsRun(s, p, f);
      MapRunsRun(s[..k], p, f);
      assert s[..k][..n] == s[..n] && s[..k][n..] == s[n..k];
    }
  }

  /** A character outside the class is copied. */
  lemma {:induction false} MapRunsOther(s: string, p: char -> bool, f: string -> string)
    requires s != [] && !p(s[0])
    ensures MapRuns(s, p, f) == [s[0]] + MapRuns(s[1..], p, f)
  {
  }

  /** A run of the class is replaced as a whole. */
  lemma {:induction false} MapRunsRun(s: string, p: char -> bool, f: string -> string)
    requires s != [] && p(s[0])
    ensures MapRuns(s, p, f) == f(s[..RunLength(s, p)]) + MapRuns(s[RunLength(s, p)..], p, f)
  {
  }

  /** Line 78 or 79 leaves alone a run without its class. */
  lemma SplitAroundAbsent(p: char -> bool, q: char -> bool, f: string -> string)
    requires forall c :: q(c) ==> !p(c)
    requires forall w :: f(w) == SplitAround(w, p)
    ensures KeepsAllIn(f, q)
  {
  }

  /** Lines 82-86 leave alone a text that already has single spaces, no
      bullet or hyphen and no whitespace at its ends. */
  lemma TailIdentity(t: string)
    requires NoPair(t, IsSpace, IsSpace)
    requires forall i :: 0 <= i < |t| && IsSpace(t[i]) ==> t[i] == ' '
    requires Bullet !in t && '-' !in t
    requires t != [] && !IsSpace(t[0]) && !IsSpace(t[|t| - 1])
    ensures Trim(BreakBullets(NormalizeSpace(t))) == t
  {
    SingleSpaceIdentity(t);
    ReplaceSpacedAbsent(t, Bullet, ['\n', Bullet, ' ']);
    ReplaceSpacedAbsent(t, '-', "\n- ");
    TrimUnchanged(t);
  }

  lemma YearGlued(w: string)
    requires w == "2019"
    ensures SplitGlued(w) == w
  {
    assert Separated(w);
  }

  /** The character that lines 78-79 set apart is the last one of its
      class with a character on both sides. */
  lemma SplitAroundAt(w: string, p: char -> bool, k: nat)
    requires 1 <= k < |w| - 1 && p(w[k])
    requires forall j :: k < j < |w| - 1 ==> !p(w[j])
    ensures SplitAround(w, p) == w[..k] + [' ', w[k], ' '] + w[k + 1..]
  {
    var m := LastInner(w, p, |w| - 2);
    assert m == k;
  }

  lemma YearDigit(w: string)
    requires w == "2019"
    ensures MapRuns(w, IsWord, SplitDigit) == "20 1 9"
  {
    MapRunsSingle(w, IsWord, SplitDigit);
    SplitAroundAt(w, IsDigit, 2);
    assert w[..2] == "20" && w[3..] == "9";
  }

  /** Line 79 keeps what line 78 made when that has no capital. */
  lemma {:induction false} InnerWithoutCapitals(w: string, t: string)
    requires MapRuns(w, IsWord, SplitDigit) == t
    requires forall i :: 0 <= i < |t| ==> NotUpper(t[i])
    ensures SplitInner(w) == t
  {
    SplitAroundAbsent(IsUpper, NotUpper, SplitCapital);
    MapRunsIdentity(t, IsWord, SplitCapital, NotUpper);
  }

  lemma YearNoCapital(t: string)
    requires t == "20 1 9"
    ensures forall i :: 0 <= i < |t| ==> NotUpper(t[i])
  {
  }

  lemma YearTail(t: string)
    requires t == "20 1 9"
    ensures Trim(BreakBullets(NormalizeSpace(t))) == t
  {
    TailIdentity(t);
  }

  /** A year loses its last-but-one digit to line 78. */
  lemma YearSplit(w: string)
    requires w == "2019"
    ensures CleanExtractedText(w) == "20 1 9"
  {
    YearGlued(w);
    FixWordsNoLower(w);
    YearDigit(w);
    YearNoCapital("20 1 9");
    InnerWithoutCapitals(w, "20 1 9");
    YearTail("20 1 9");
  }

  /** Line 78 leaves a text without digits alone. */
  lemma NoDigitUnsplit(w: string)
    requires forall i :: 0 <= i < |w| ==> NotDigit(w[i])
    ensures MapRuns(w, IsWord, SplitDigit) == w
  {
    SplitAroundAbsent(IsDigit, NotDigit, SplitDigit);
    MapRunsIdentity(w, IsWord, SplitDigit, NotDigit);
  }

  /** Line 79 leaves a text without capitals alone. */
  lemma NoCapitalUnsplit(w: string)
    requires forall i :: 0 <= i < |w| ==> NotUpper(w[i])
    ensures MapRuns(w, IsWord, SplitCapital) == w
  {
    SplitAroundAbsent(IsUpper, NotUpper, SplitCapital);
    MapRunsIdentity(w, IsWord, SplitCapital, NotUpper);
  }

  /** Line 79 on a single word sets its last inner capital apart. */
  lemma WordCapitalSplit(w: string, k: nat)
    requires forall i :: 0 <= i < |w| ==> IsWord(w[i])
    requires 1 <= k < |w| - 1 && IsUpper(w[k])
    requires forall j :: k < j < |w| - 1 ==> !IsUpper(w[j])
    ensures MapRuns(w, IsWord, SplitCapital) == w[..k] + [' ', w[k], ' '] + w[k + 1..]
  {
    MapRunsSingle(w, IsWord, SplitCapital);
    SplitAroundAt(w, IsUpper, k);
  }

  /** Lines 66-75 leave alone a text of capitals. */
  lemma FrontNoLower(w: string)
    requires forall i :: 0 <= i < |w| ==> IsUpper(w[i])
    ensures FixWords(SplitGlued(w)) == w
  {
    assert Separated(w);
    FixWordsNoLower(w);
  }

  /** The text between lines 78-79 and the end of the chain for an acronym. */
  lemma AcronymTail(w: string, k: nat)
    requires forall i :: 0 <= i < |w| ==> IsUpper(w[i])
    requires 1 <= k < |w| - 1
    ensures var t := w[..k] + [' ', w[k], ' '] + w[k + 1..];
            Trim(BreakBullets(NormalizeSpace(t))) == t
  {
    var t := w[..k] + [' ', w[k], ' '] + w[k + 1..];
    assert forall i :: 0 <= i < |t| ==> IsUpper(t[i]) || (t[i] == ' ' && (i == k || i == k + 2));
    assert t[0] == w[0] && t[|t| - 1] == w[|w| - 1];
    TailIdentity(t);
  }

  /** An acronym of three or more capitals loses its last-but-one capital
      to line 79: "AWS" becomes "A W S" and "HTML" becomes "HT M L". */
  lemma AcronymSplit(w: string)
    requires |w| >= 3 && forall i :: 0 <= i < |w| ==> IsUpper(w[i])
    ensures var k := |w| - 2;
            CleanExtractedText(w) == w[..k] + [' ', w[k], ' '] + w[k + 1..]
  {
    var k := |w| - 2;
    FrontNoLower(w);
    NoDigitUnsplit(w);
    WordCapitalSplit(w, k);
    AcronymTail(w, k);
  }

  lemma ThreeLetterLayout(w: string)
    requires |w| == 3 && w[0] == 'A' && w[1] == 'W' && w[2] == 'S'
    ensures w[..1] + [' ', w[1], ' '] + w[2..] == "A W S"
  {
  }

  lemma ThreeLetterAcronym(w: string)
    requires |w| == 3 && w[0] == 'A' && w[1] == 'W' && w[2] == 'S'
    ensures CleanExtractedText(w) == "A W S"
  {
    ThreeLetterLayout(w);
    AcronymSplit(w);
  }

  lemma FourLetterLayout(w: string)
    requires |w| == 4 && w[0] == 'H' && w[1] == 'T' && w[2] == 'M' && w[3] == 'L'
    ensures w[..2] + [' ', w[2], ' '] + w[3..] == "HT M L"
  {
  }

  lemma FourLetterAcronym(w: string)
    requires |w| == 4 && w[0] == 'H' && w[1] == 'T' && w[2] == 'M' && w[3] == 'L'
    ensures CleanExtractedText(w) == "HT M L"
  {
    FourLetterLayout(w);
    AcronymSplit(w);
  }

  /** Lines 84-85 copy a prefix without whitespace and without their mark. */
  lemma {:induction false} ReplaceSpacedPrefix(a: string, t: string, x: char, r: string)
    requires forall i :: 0 <= i < |a| ==> !IsSpace(a[i]) && a[i] != x
    ensures ReplaceSpaced(a + t, x, r) == a + ReplaceSpaced(t, x, r)
  {
    if a != [] {
      ReplaceSpacedPrefix(a[1..], t, x, r);
      var s := a + t;
      assert s[0] == a[0] && s[1..] == a[1..] + t;
      assert RunLength(s, IsSpace) == 0;
      calc {
        ReplaceSpaced(s, x, r);
        [a[0]] + ReplaceSpaced(s[1..], x, r);
        [a[0]] + (a[1..] + ReplaceSpaced(t, x, r));
        ([a[0]] + a[1..]) + ReplaceSpaced(t, x, r);
        { assert a == [a[0]] + a[1..]; }
        a + ReplaceSpaced(t, x, r);
      }
    } else {
      assert a + t == t;
      assert a + ReplaceSpaced(t, x, r) == ReplaceSpaced(t, x, r);
    }
  }

  /** A word that is no fix target and not "generate" with a number is
      left alone by every word fix. */
  lemma OrdinaryWord(fix: WordFix, w: string)
    requires fix in WordFixes
    requires w != [] && forall i :: 0 <= i < |w| ==> IsWord(w[i])
    requires forall f | f in WordFixes && f.WholeWord? :: w != f.target
    requires !IsGenerateNumber(w)
    ensures ApplyWordFix(fix, w) == w
  {
    MapRunsSingle(w, IsWord, Fixer(fix));
  }

  /** A lower-case word that no fix targets. */
  predicate PlainWord(w: string)
  {
    w != [] && AllLower(w) && forall f | f in WordFixes && f.WholeWord? :: w != f.target
  }

  lemma PlainWordOrdinary(w: string)
    requires PlainWord(w)
    ensures w != [] && forall i :: 0 <= i < |w| ==> IsWord(w[i])
    ensures !IsGenerateNumber(w)
  {
    assert |w| > 8 ==> !IsDigit(w[8]) && w[8..][0] == w[8];
  }

  lemma HyphenFix(fix: WordFix, a: string, b: string)
    requires fix in WordFixes
    requires PlainWord(a) && PlainWord(b)
    ensures ApplyWordFix(fix, a + "-" + b) == a + "-" + b
  {
    var s := a + "-" + b;
    MapRunsAt(s, |a|, IsWord, Fixer(fix));
    assert s[..|a|] == a && s[|a|] == '-' && s[|a| + 1..] == b;
    PlainWordOrdinary(a);
    PlainWordOrdinary(b);
    OrdinaryWord(fix, a);
    OrdinaryWord(fix, b);
  }

  lemma HyphenFront(a: string, b: string)
    requires PlainWord(a) && PlainWord(b)
    ensures FixWords(SplitGlued(a + "-" + b)) == a + "-" + b
  {
    var s := a + "-" + b;
    assert forall i :: 0 <= i < |s| ==> IsLower(s[i]) || s[i] == '-';
    assert Separated(s);
    HyphenFix(WordFixes[0], a, b);
    HyphenFix(WordFixes[1], a, b);
    HyphenFix(WordFixes[2], a, b);
    HyphenFix(WordFixes[3], a, b);
    HyphenFix(WordFixes[4], a, b);
  }

  lemma HyphenMark(b: string, r: string)
    requires PlainWord(b)
    ensures ReplaceSpaced("-" + b, '-', r) == r + b
  {
    var t := "-" + b;
    assert t[0] == '-' && t[1..] == b;
    assert RunLength(t, IsSpace) == 0;
    assert RunLength(b, IsSpace) == 0;
    var k := ReplaceSpacedMark(t, '-', r);
    ReplaceSpacedAbsent(b, '-', r);
  }

  lemma HyphenNoBullet(a: string, b: string)
    requires PlainWord(a) && PlainWord(b)
    ensures ReplaceSpaced(a + "-" + b, Bullet, ['\n', Bullet, ' ']) == a + "-" + b
  {
    var s := a + "-" + b;
    assert forall i :: 0 <= i < |s| ==> IsLower(s[i]) || s[i] == '-';
    ReplaceSpacedAbsent(s, Bullet, ['\n', Bullet, ' ']);
  }

  lemma HyphenOnly(a: string, b: string)
    requires PlainWord(a) && PlainWord(b)
    ensures ReplaceSpaced(a + "-" + b, '-', "\n- ") == a + "\n- " + b
  {
    var r := "\n- ";
    assert a + "-" + b == a + ("-" + b);
    ReplaceSpacedPrefix(a, "-" + b, '-', r);
    HyphenMark(b, r);
    assert a + (r + b) == a + r + b;
  }

  lemma HyphenBullets(a: string, b: string)
    requires PlainWord(a) && PlainWord(b)
    ensures BreakBullets(a + "-" + b) == a + "\n- " + b
  {
    HyphenNoBullet(a, b);
    HyphenOnly(a, b);
  }

  lemma HyphenTail(a: string, b: string)
    requires PlainWord(a) && PlainWord(b)
    ensures Trim(BreakBullets(NormalizeSpace(a + "-" + b))) == a + "\n- " + b
  {
    var s := a + "-" + b;
    assert forall i :: 0 <= i < |s| ==> IsLower(s[i]) || s[i] == '-';
    SingleSpaceIdentity(s);
    HyphenBullets(a, b);
    TrimUnchanged(a + "\n- " + b);
  }

  /** A hyphen between two words, as in "full-stack", starts a new line
      (line 85): the result is "full\n- stack". */
  lemma HyphenBreak(a: string, b: string)
    requires PlainWord(a) && PlainWord(b)
    ensures CleanExtractedText(a + "-" + b) == a + "\n- " + b
  {
    var s := a + "-" + b;
    HyphenFront(a, b);
    HyphenInner(a, b);
    CleanAfterFront(s, s);
    HyphenTail(a, b);
  }

  /** Lines 78-79 leave two lower-case words joined by a hyphen alone. */
  lemma HyphenInner(a: string, b: string)
    requires AllLower(a) && AllLower(b)
    ensures SplitInner(a + "-" + b) == a + "-" + b
  {
    var s := a + "-" + b;
    assert forall i :: 0 <= i < |s| ==> IsLower(s[i]) || s[i] == '-';
    NoDigitUnsplit(s);
    NoCapitalUnsplit(s);
  }

  /** Once lines 64-75 give a text that lines 78-79 leave alone, only the
      spacing and line-break steps remain. */
  lemma CleanAfterFront(text: string, mid: string)
    requires FixWords(SplitGlued(text)) == mid && SplitInner(mid) == mid
    ensures CleanExtractedText(text) == Trim(BreakBullets(NormalizeSpace(mid)))
  {
  }

  lemma FullStackWords(a: string, b: string)
    requires a == "full" && b == "stack"
    ensures PlainWord(a) && PlainWord(b)
    ensures a + "\n- " + b == "full\n- stack"
  {
  }

  /** "full-stack" becomes "full\n- stack". */
  lemma FullStack(a: string, b: string)
    requires a == "full" && b == "stack"
    ensures CleanExtractedText(a + "-" + b) == "full\n- stack"
  {
    FullStackWords(a, b);
    HyphenBreak(a, b);
  }
}
