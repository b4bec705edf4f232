/**
  The whitespace rewrites of lib/text-cleaner.ts, each a global regular
  expression replacement written as a map over maximal runs, and the facts
  about runs of whitespace that the cleaning stages keep.
 */
module Whitespace {
  import opened Chars
  import opened Seqs
  import opened Rewrite

  /** No three consecutive whitespace characters. */
  predicate NoLongSpaceRun(s: string)
  {
    forall i :: 0 <= i < |s| - 2 ==> !(IsSpace(s[i]) && IsSpace(s[i + 1]) && IsSpace(s[i + 2]))
  }

  predicate IsTab(c: char) { c == '\t' }

  /** `/\s{3,}/g` to " ": a whitespace run of three or more becomes one space. */
  function CollapseLongSpace(w: string): string
  {
    if |w| >= 3 then " " else w
  }

  /** `/\n\s*\n\s*\n/g` to "\n\n", on one whitespace run: when the run holds
      three or more line feeds, the stretch from its first to its last line
      feed becomes two line feeds. */
  function CollapseBlankLines(w: string): string
  {
    if CountChar(w, '\n') >= 3 then
      var i, j := IndexOf(w, '\n'), LastIndexOf(w, '\n');
      w[..i] + "\n\n" + w[j + 1..]
    else w
  }

  /** The replacement " " of `/\t+/g` and `/\s+/g`. */
  function SingleSpace(w: string): string
  {
    " "
  }

  /** `/\r/g` to "\n", one character at a time. */
  function CrToLf(c: char): char
  {
    if c == '\r' then '\n' else c
  }

  // ---------------------------------------------------------------------
  // Runs of whitespace

  /** A prefix of `k` characters of class `p` adds `k` to the run length. */
  lemma {:induction false} RunLengthSplit(s: string, k: nat, p: char -> bool)
    requires k <= |s| && forall i :: 0 <= i < k ==> p(s[i])
    ensures RunLength(s, p) == k + RunLength(s[k..], p)
  {
    if k > 0 {
      RunLengthSplit(s[1..], k - 1, p);
      assert s[1..][k - 1..] == s[k..];
    }
  }

  lemma LeadingAtLeast(s: string, k: nat)
    requires k <= |s| && forall j :: 0 <= j < k ==> IsSpace(s[j])
    ensures RunLength(s, IsSpace) >= k
  {
  }

  lemma TrailingAtLeast(s: string, k: nat)
    requires k <= |s| && forall j :: |s| - k <= j < |s| ==> IsSpace(s[j])
    ensures TrailingSpaces(s) >= k
  {
  }

  lemma SeamAtLeast(x: string, y: string, a: nat, b: nat)
    requires a <= |x| && forall j :: |x| - a <= j < |x| ==> IsSpace(x[j])
    requires b <= |y| && forall j :: 0 <= j < b ==> IsSpace(y[j])
    ensures TrailingSpaces(x) + RunLength(y, IsSpace) >= a + b
  {
    TrailingAtLeast(x, a);
    LeadingAtLeast(y, b);
  }

  /** Three whitespace characters across the seam of `x + y` need three
      whitespace characters at the end of `x` and the start of `y` together. */
  lemma SeamTriple(x: string, y: string, i: nat)
    requires i < |x| <= i + 2 < |x| + |y|
    ensures var r := x + y;
            IsSpace(r[i]) && IsSpace(r[i + 1]) && IsSpace(r[i + 2]) ==>
            TrailingSpaces(x) + RunLength(y, IsSpace) >= 3
  {
    var r := x + y;
    if IsSpace(r[i]) && IsSpace(r[i + 1]) && IsSpace(r[i + 2]) {
      SeamAtLeast(x, y, |x| - i, i + 3 - |x|);
    }
  }

  /** A string without a long run starts with at most two whitespace characters. */
  lemma NoLongLeading(s: string)
    requires NoLongSpaceRun(s)
    ensures RunLength(s, IsSpace) <= 2
  {
    if |s| >= 3 && IsSpace(s[0]) && IsSpace(s[1]) {
      assert !IsSpace(s[2]);
      RunLengthSplit(s, 2, IsSpace);
    }
  }

  lemma NoLongSuffix(s: string, k: nat)
    requires NoLongSpaceRun(s) && k <= |s|
    ensures NoLongSpaceRun(s[k..])
  {
    forall i | 0 <= i < |s[k..]| - 2
      ensures !(IsSpace(s[k..][i]) && IsSpace(s[k..][i + 1]) && IsSpace(s[k..][i + 2]))
    {
      assert s[k..][i] == s[k + i] && s[k..][i + 1] == s[k + i + 1] && s[k..][i + 2] == s[k + i + 2];
    }
  }

  lemma NoLongSlice(s: string, a: nat, b: nat)
    requires NoLongSpaceRun(s) && a <= b <= |s|
    ensures NoLongSpaceRun(s[a..b])
  {
    forall i | 0 <= i < |s[a..b]| - 2
      ensures !(IsSpace(s[a..b][i]) && IsSpace(s[a..b][i + 1]) && IsSpace(s[a..b][i + 2]))
    {
      assert s[a..b][i] == s[a + i] && s[a..b][i + 1] == s[a + i + 1] && s[a..b][i + 2] == s[a + i + 2];
    }
  }

  /** Two pieces join without a long run when the whitespace at the seam is
      at most two characters. */
  lemma NoLongConcat(x: string, y: string)
    requires NoLongSpaceRun(x) && NoLongSpaceRun(y)
    requires TrailingSpaces(x) + RunLength(y, IsSpace) <= 2
    ensures NoLongSpaceRun(x + y)
  {
    var r := x + y;
    forall i | 0 <= i < |r| - 2 ensures !(IsSpace(r[i]) && IsSpace(r[i + 1]) && IsSpace(r[i + 2])) {
      if i + 2 < |x| {
        assert r[i] == x[i] && r[i + 1] == x[i + 1] && r[i + 2] == x[i + 2];
      } else if i >= |x| {
        assert r[i] == y[i - |x|] && r[i + 1] == y[i + 1 - |x|] && r[i + 2] == y[i + 2 - |x|];
      } else {
        SeamTriple(x, y, i);
      }
    }
  }

  /** A piece of at most two characters has no long run. */
  lemma ShortPiece(x: string)
    requires |x| <= 2
    ensures NoLongSpaceRun(x)
  {
  }

  // ---------------------------------------------------------------------
  // The steps of the whitespace stage

  /** Replacing every whitespace run by at most two characters leaves no
      three whitespace characters adjacent: this covers `/\s{3,}/g` to " "
      and `/\s+/g` to " ". */
  lemma {:induction false} ShortReplacementsShort(s: string, f: string -> string)
    requires forall w :: |f(w)| <= 2
    ensures NoLongSpaceRun(MapRuns(s, IsSpace, f))
    decreases |s|
  {
    if s != [] {
      if !IsSpace(s[0]) {
        var rest := MapRuns(s[1..], IsSpace, f);
        ShortReplacementsShort(s[1..], f);
        NoLongLeading(rest);
        ShortPiece([s[0]]);
        NoLongConcat([s[0]], rest);
      } else {
        var n := RunLength(s, IsSpace);
        var piece := f(s[..n]);
        var rest := MapRuns(s[n..], IsSpace, f);
        ShortReplacementsShort(s[n..], f);
        assert rest != [] ==> rest[0] == s[n];
        ShortPiece(piece);
        NoLongConcat(piece, rest);
      }
    }
  }

  /** Once no whitespace run is longer than two, `/\n\s*\n\s*\n/g` finds
      nothing to replace. */
  lemma {:induction false} CollapseBlankLinesNoop(s: string)
    requires NoLongSpaceRun(s)
    ensures MapRuns(s, IsSpace, CollapseBlankLines) == s
    decreases |s|
  {
    if s != [] {
      if !IsSpace(s[0]) {
        NoLongSuffix(s, 1);
        CollapseBlankLinesNoop(s[1..]);
      } else {
        var n := RunLength(s, IsSpace);
        NoLongLeading(s);
        NoLongSuffix(s, n);
        CollapseBlankLinesNoop(s[n..]);
        assert s == s[..n] + s[n..];
      }
    }
  }

  /** `/\n\s*\n\s*\n/g` changes nothing in a text without line feeds. */
  lemma {:induction false} CollapseBlankLinesNoNewline(s: string)
    requires '\n' !in s
    ensures MapRuns(s, IsSpace, CollapseBlankLines) == s
    decreases |s|
  {
    if s != [] {
      if !IsSpace(s[0]) {
        CollapseBlankLinesNoNewline(s[1..]);
      } else {
        var n := RunLength(s, IsSpace);
        assert '\n' !in s[..n];
        CollapseBlankLinesNoNewline(s[n..]);
        assert s == s[..n] + s[n..];
      }
    }
  }

  /** Replacing every run of tabs by one space keeps short whitespace runs
      and never lengthens the leading whitespace. */
  lemma {:induction false} TabsToSpaceKeepsShort(s: string)
    requires NoLongSpaceRun(s)
    ensures NoLongSpaceRun(MapRuns(s, IsTab, SingleSpace))
    ensures RunLength(MapRuns(s, IsTab, SingleSpace), IsSpace) <= RunLength(s, IsSpace)
    decreases |s|
  {
    if s != [] {
      var r := MapRuns(s, IsTab, SingleSpace);
      NoLongLeading(s);
      if !IsTab(s[0]) {
        var rest := MapRuns(s[1..], IsTab, SingleSpace);
        NoLongSuffix(s, 1);
        NoLongLeading(s[1..]);
        TabsToSpaceKeepsShort(s[1..]);
        assert r == [s[0]] + rest;
        ShortPiece([s[0]]);
        NoLongConcat([s[0]], rest);
      } else {
        var n := RunLength(s, IsTab);
        var rest := MapRuns(s[n..], IsTab, SingleSpace);
        NoLongSuffix(s, n);
        TabsToSpaceKeepsShort(s[n..]);
        RunLengthSplit(s, n, IsSpace);
        assert r == " " + rest;
        ShortPiece(" ");
        NoLongConcat(" ", rest);
      }
    }
  }

  /** `/\r\n/g` to "\n" keeps short whitespace runs and never lengthens the
      leading whitespace. */
  lemma {:induction false} CrLfKeepsShort(s: string)
    requires NoLongSpaceRun(s)
    ensures NoLongSpaceRun(ReplaceCrLf(s))
    ensures RunLength(ReplaceCrLf(s), IsSpace) <= RunLength(s, IsSpace)
    decreases |s|
  {
    if |s| >= 2 {
      var r := ReplaceCrLf(s);
      NoLongLeading(s);
      if s[0] == '\r' && s[1] == '\n' {
        var rest := ReplaceCrLf(s[2..]);
        NoLongSuffix(s, 2);
        CrLfKeepsShort(s[2..]);
        RunLengthSplit(s, 2, IsSpace);
        assert r == "\n" + rest;
        ShortPiece("\n");
        NoLongConcat("\n", rest);
      } else {
        var rest := ReplaceCrLf(s[1..]);
        NoLongSuffix(s, 1);
        NoLongLeading(s[1..]);
        CrLfKeepsShort(s[1..]);
        assert r == [s[0]] + rest;
        ShortPiece([s[0]]);
        NoLongConcat([s[0]], rest);
      }
    }
  }

  /** Inserting a space between two characters that are not whitespace
      keeps short whitespace runs, and the leading whitespace as it was. */
  lemma {:induction false} InsertBetweenKeepsShort(s: string, p: char -> bool, q: char -> bool)
    requires forall c :: p(c) ==> !IsSpace(c)
    requires forall c :: q(c) ==> !IsSpace(c)
    requires NoLongSpaceRun(s)
    ensures NoLongSpaceRun(InsertBetween(s, p, q))
    ensures RunLength(InsertBetween(s, p, q), IsSpace) == RunLength(s, IsSpace)
    decreases |s|
  {
    if |s| >= 2 {
      var head := InsertBetweenHead(s, p, q);
      var rest := InsertBetween(s[1..], p, q);
      NoLongSuffix(s, 1);
      InsertBetweenKeepsShort(s[1..], p, q);
      NoLongLeading(s);
      NoLongLeading(rest);
      HeadJoin(s, head, rest);
    }
  }

  /** One step of `InsertBetween`: the first character, followed by a space
      when it and the second form a pair. */
  lemma InsertBetweenHead(s: string, p: char -> bool, q: char -> bool) returns (head: string)
    requires |s| >= 2
    ensures InsertBetween(s, p, q) == head + InsertBetween(s[1..], p, q)
    ensures head == if p(s[0]) && q(s[1]) then [s[0], ' '] else [s[0]]
  {
    head := if p(s[0]) && q(s[1]) then [s[0], ' '] else [s[0]];
  }

  /** The first character of `s`, or it and a space when neither it nor the
      next is whitespace, joined to a rest without long runs that starts
      with the whitespace `s[1..]` starts with. */
  lemma HeadJoin(s: string, head: string, rest: string)
    requires |s| >= 2 && RunLength(s, IsSpace) <= 2
    requires head == [s[0]] || (head == [s[0], ' '] && !IsSpace(s[0]) && !IsSpace(s[1]))
    requires NoLongSpaceRun(rest) && rest != [] && rest[0] == s[1]
    requires RunLength(rest, IsSpace) == RunLength(s[1..], IsSpace)
    ensures NoLongSpaceRun(head + rest)
    ensures RunLength(head + rest, IsSpace) == RunLength(s, IsSpace)
  {
    if head == [s[0]] {
      KeptJoin(s[0], rest, RunLength(s[1..], IsSpace));
    } else {
      SpacedJoin(s[0], rest);
    }
  }

  lemma KeptJoin(c: char, rest: string, n: nat)
    requires NoLongSpaceRun(rest) && RunLength(rest, IsSpace) == n
    requires IsSpace(c) ==> n <= 1
    ensures NoLongSpaceRun([c] + rest)
    ensures RunLength([c] + rest, IsSpace) == if IsSpace(c) then 1 + n else 0
  {
    assert ([c] + rest)[1..] == rest;
    assert TrailingSpaces([c]) <= 1 by {
      assert [c][..0] == [];
    }
    NoLongLeading(rest);
    ShortPiece([c]);
    NoLongConcat([c], rest);
  }

  lemma SpacedJoin(c: char, rest: string)
    requires NoLongSpaceRun(rest) && !IsSpace(c) && rest != [] && !IsSpace(rest[0])
    ensures NoLongSpaceRun([c, ' '] + rest)
    ensures RunLength([c, ' '] + rest, IsSpace) == 0
  {
    assert TrailingSpaces([c, ' ']) == 1 by {
      assert [c, ' '][..1] == [c];
    }
    ShortPiece([c, ' ']);
    NoLongConcat([c, ' '], rest);
  }

  /** Turning carriage returns into line feeds keeps every character's
      whitespace class, so it keeps short runs. */
  lemma CrToLfKeepsShort(s: string)
    requires NoLongSpaceRun(s)
    ensures NoLongSpaceRun(Map(s, CrToLf))
  {
  }

  /** A run map whose replacement is a single space leaves no character of
      the class it maps: every output character is a space or a character
      of `s` outside the class. */
  lemma {:induction false} SingleSpaceChars(s: string, p: char -> bool)
    ensures forall c :: c in MapRuns(s, p, SingleSpace) ==> c == ' ' || (c in s && !p(c))
    decreases |s|
  {
    if s != [] {
      if !p(s[0]) {
        SingleSpaceChars(s[1..], p);
      } else {
        SingleSpaceChars(s[RunLength(s, p)..], p);
      }
    }
  }
}
