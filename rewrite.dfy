/**
  The shapes of global regular-expression replacement (`s.replace(/…/g, …)`)
  that the cleaners use, written as scans over characters and over maximal
  runs of one character class.
 */
module Rewrite {
  import opened Chars

  /** No character satisfying `a` is directly followed by one satisfying `b`. */
  predicate NoPair(s: string, a: char -> bool, b: char -> bool)
  {
    forall i :: 0 <= i < |s| - 1 ==> !(a(s[i]) && b(s[i + 1]))
  }

  /** Replaces every maximal run of `p`-characters `w` by `f(w)` and keeps
      every other character. A pattern that is all `\w` and anchored by `\b`
      on both sides (`/\bacollaborative\b/g`) can only match a whole maximal
      run of word characters, so it is `MapRuns(s, IsWord, f)`; a greedy
      whitespace pattern (`/\s{3,}/g`, `/\s+/g`) is `MapRuns(s, IsSpace, f)`. */
  function MapRuns(s: string, p: char -> bool, f: string -> string): (r: string)
    decreases |s|
  {
    if s == [] then []
    else if !p(s[0]) then [s[0]] + MapRuns(s[1..], p, f)
    else
      var n := RunLength(s, p);
      f(s[..n]) + MapRuns(s[n..], p, f)
  }

  /** A string that is one single run is replaced as a whole. */
  lemma MapRunsSingle(s: string, p: char -> bool, f: string -> string)
    requires s != [] && forall i :: 0 <= i < |s| ==> p(s[i])
    ensures MapRuns(s, p, f) == f(s)
  {
    assert RunLength(s, p) == |s|;
    assert s[..|s|] == s;
  }

  /** `s.replace(/(P)(Q)/g, "$1 $2")` for disjoint classes `P` and `Q`:
      a space between every `P`-character and a directly following
      `Q`-character. (A match ends on a `Q`-character, which cannot start the
      next match, so scanning on from it agrees with the regex.) The same
      holds for `/(\d+)([a-zA-Z])/g` and `/([a-zA-Z])(\d+)/g`: a greedy digit
      run is followed by a letter exactly when its last digit is. */
  function InsertBetween(s: string, p: char -> bool, q: char -> bool): (r: string)
    ensures |r| >= |s|
    ensures NoPair(s, p, q) ==> r == s
    ensures !NoPair(s, p, q) ==> |r| > |s|
    ensures forall i :: 0 <= i < |r| ==> r[i] == ' ' || r[i] in s
    ensures s != [] ==> r != [] && r[0] == s[0] && r[|r| - 1] == s[|s| - 1]
  {
    if |s| < 2 then s
    else
      var rest := InsertBetween(s[1..], p, q);
      assert NoPair(s, p, q) ==> NoPair(s[1..], p, q) by {
        if NoPair(s, p, q) {
          forall i | 0 <= i < |s[1..]| - 1 ensures !(p(s[1..][i]) && q(s[1..][i + 1])) {
            assert s[1..][i] == s[i + 1] && s[1..][i + 1] == s[i + 2];
          }
        }
      }
      assert !NoPair(s, p, q) && !(p(s[0]) && q(s[1])) ==> !NoPair(s[1..], p, q) by {
        if !NoPair(s, p, q) && !(p(s[0]) && q(s[1])) {
          var i :| 0 <= i < |s| - 1 && p(s[i]) && q(s[i + 1]);
          assert s[1..][i - 1] == s[i] && s[1..][i] == s[i + 1];
        }
      }
      if p(s[0]) && q(s[1]) then [s[0], ' '] + rest else [s[0]] + rest
  }

  /** Inserting spaces never creates a pair of characters that are not spaces. */
  lemma {:induction false} InsertBetweenKeepsNoPair(s: string, p: char -> bool, q: char -> bool,
                                                    a: char -> bool, b: char -> bool)
    requires NoPair(s, a, b) && !a(' ') && !b(' ')
    ensures NoPair(InsertBetween(s, p, q), a, b)
  {
    if |s| >= 2 {
      assert NoPair(s[1..], a, b) by {
        forall i | 0 <= i < |s[1..]| - 1 ensures !(a(s[1..][i]) && b(s[1..][i + 1])) {
          assert s[1..][i] == s[i + 1];
        }
      }
      InsertBetweenKeepsNoPair(s[1..], p, q, a, b);
      var rest := InsertBetween(s[1..], p, q);
      var r := InsertBetween(s, p, q);
      if p(s[0]) && q(s[1]) {
        assert r == [s[0], ' '] + rest;
        forall i | 0 <= i < |r| - 1 ensures !(a(r[i]) && b(r[i + 1])) {
          if i >= 2 { assert r[i] == rest[i - 2] && r[i + 1] == rest[i - 1]; }
        }
      } else {
        assert r == [s[0]] + rest;
        forall i | 0 <= i < |r| - 1 ensures !(a(r[i]) && b(r[i + 1])) {
          if i >= 1 { assert r[i] == rest[i - 1] && r[i + 1] == rest[i]; }
          else { assert r[1] == rest[0] == s[1]; }
        }
      }
    }
  }

  /** After inserting the spaces no `P`-character is followed by a `Q`-character. */
  lemma {:induction false} InsertBetweenSeparates(s: string, p: char -> bool, q: char -> bool)
    requires !p(' ') && !q(' ')
    ensures NoPair(InsertBetween(s, p, q), p, q)
  {
    if |s| >= 2 {
      InsertBetweenSeparates(s[1..], p, q);
      var rest := InsertBetween(s[1..], p, q);
      var r := InsertBetween(s, p, q);
      if p(s[0]) && q(s[1]) {
        assert r == [s[0], ' '] + rest;
        forall i | 0 <= i < |r| - 1 ensures !(p(r[i]) && q(r[i + 1])) {
          if i >= 2 { assert r[i] == rest[i - 2] && r[i + 1] == rest[i - 1]; }
        }
      } else {
        assert r == [s[0]] + rest;
        forall i | 0 <= i < |r| - 1 ensures !(p(r[i]) && q(r[i + 1])) {
          if i >= 1 { assert r[i] == rest[i - 1] && r[i + 1] == rest[i]; }
          else { assert r[1] == rest[0] == s[1]; }
        }
      }
    }
  }

  /** `s.replace(/\r\n/g, "\n")` */
  function ReplaceCrLf(s: string): (r: string)
    ensures |r| <= |s|
    ensures |r| == |s| <==> forall i :: 0 <= i < |s| - 1 ==> !(s[i] == '\r' && s[i + 1] == '\n')
    ensures forall i :: 0 <= i < |r| ==> r[i] in s
  {
    if |s| < 2 then s
    else if s[0] == '\r' && s[1] == '\n' then "\n" + ReplaceCrLf(s[2..])
    else
      var rest := ReplaceCrLf(s[1..]);
      assert forall i :: 1 <= i < |s| - 1 ==> s[1..][i - 1] == s[i] && s[1..][i] == s[i + 1];
      [s[0]] + rest
  }

  /** Global replacement of the pattern `\s*X\s*` by `r`, for a character `X`
      that is not whitespace: `X` together with the whitespace around it
      becomes `r`; a whitespace run that is not followed by `X` is kept. */
  function ReplaceSpaced(s: string, x: char, r: string): string
    decreases |s|
  {
    if s == [] then []
    else
      var n := RunLength(s, IsSpace);
      if n < |s| && s[n] == x then
        var m := RunLength(s[n + 1..], IsSpace);
        r + ReplaceSpaced(s[n + 1 + m..], x, r)
      else if n == 0 then [s[0]] + ReplaceSpaced(s[1..], x, r)
      else s[..n] + ReplaceSpaced(s[n..], x, r)
  }

  /** `s.includes(t)` */
  predicate Contains(s: string, t: string)
  {
    exists i :: 0 <= i <= |s| && t <= s[i..]
  }

  /** Index of the first `c` in `s`, or `|s|` if there is none. */
  function IndexOf(s: string, c: char): (k: nat)
    ensures k <= |s|
    ensures k < |s| ==> s[k] == c
    ensures forall i :: 0 <= i < k ==> s[i] != c
  {
    if s == [] || s[0] == c then 0 else 1 + IndexOf(s[1..], c)
  }

  /** Number of occurrences of `c` in `s`. */
  function CountChar(s: string, c: char): (n: nat)
    ensures n <= |s|
    ensures n == 0 <==> c !in s
  {
    if s == [] then 0 else (if s[0] == c then 1 else 0) + CountChar(s[1..], c)
  }

  /** The decimal form of a number, as a template literal writes it. */
  function NatToString(n: nat): (r: string)
    ensures |r| > 0
    ensures forall i :: 0 <= i < |r| ==> IsDigit(r[i])
  {
    if n < 10 then [('0' as int + n) as char]
    else NatToString(n / 10) + [('0' as int + n % 10) as char]
  }

  /** Index of the last `c` in `s`, or `|s|` if there is none. */
  function LastIndexOf(s: string, c: char): (k: nat)
    ensures k <= |s|
    ensures k < |s| ==> s[k] == c && forall i :: k < i < |s| ==> s[i] != c
    ensures k == |s| ==> c !in s
  {
    if s == [] then 0
    else if s[|s| - 1] == c then |s| - 1
    else
      var k := LastIndexOf(s[..|s| - 1], c);
      if k == |s| - 1 then |s| else k
  }

  /** The maximal runs of `p`-characters of `s`, in order: the non-empty
      pieces of splitting `s` at every character outside `p`. */
  function Runs(s: string, p: char -> bool): (r: seq<string>)
    ensures forall w :: w in r ==> |w| > 0 && forall i :: 0 <= i < |w| ==> p(w[i])
    decreases |s|
  {
    if s == [] then []
    else if !p(s[0]) then Runs(s[1..], p)
    else
      var n := RunLength(s, p);
      [s[..n]] + Runs(s[n..], p)
  }
}
