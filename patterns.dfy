/**
  The five targeted word fixes that both resume cleaners apply in the same
  order (lib/text-cleaner.ts and app/api/parse-resume/route.ts). Each pattern
  is all word characters anchored by `\b` on both sides, so it only ever
  matches a whole maximal run of word characters.
 */
module Patterns {
  import opened Chars
  import opened Rewrite

  datatype WordFix =
    | WholeWord(target: string, replacement: string)   // `/\btarget\b/g`
    | GenerateNumber                                    // `/\bgenerate(\d+)\b/g` to "generate $1"

  const WordFixes: seq<WordFix> := [
    WholeWord("acollaborative", "a collaborative"),
    WholeWord("algorithmbased", "algorithm based"),
    WholeWord("onuser", "on user"),
    WholeWord("similarityto", "similarity to"),
    GenerateNumber]

  /** "generate" directly followed by one or more digits. */
  predicate IsGenerateNumber(w: string)
  {
    |w| > 8 && w[..8] == "generate" && AllDigits(w[8..])
  }

  /** The fix applied to one maximal word run. */
  function FixWord(fix: WordFix, w: string): (r: string)
    ensures r != w <==> match fix
                        case WholeWord(t, rep) => w == t && rep != t
                        case GenerateNumber => IsGenerateNumber(w)
  {
    match fix
    case WholeWord(t, rep) => if w == t then rep else w
    case GenerateNumber =>
      if IsGenerateNumber(w) then assert |"generate " + w[8..]| != |w|; "generate " + w[8..] else w
  }

  function Fixer(fix: WordFix): string -> string
  {
    w => FixWord(fix, w)
  }

  /** `text.replace(pattern, replacement)` for one of the word fixes. */
  function ApplyWordFix(fix: WordFix, text: string): string
  {
    MapRuns(text, IsWord, Fixer(fix))
  }

  /** The first targeted fix splits the whole word "acollaborative". */
  lemma CollaborativeSplit(w: string)
    requires w == "acollaborative"
    ensures ApplyWordFix(WordFixes[0], w) == "a collaborative"
  {
    MapRunsSingle(w, IsWord, Fixer(WordFixes[0]));
  }

  /** It leaves a longer word that merely starts the same way alone. */
  lemma CollaborativeWholeWordOnly(w: string)
    requires w == "acollaboratives"
    ensures ApplyWordFix(WordFixes[0], w) == w
  {
    MapRunsSingle(w, IsWord, Fixer(WordFixes[0]));
  }

  /** The last fix separates the number from "generate". */
  lemma GenerateNumberSplit(w: string)
    requires w == "generate3"
    ensures ApplyWordFix(WordFixes[4], w) == "generate 3"
  {
    MapRunsSingle(w, IsWord, Fixer(WordFixes[4]));
    assert w[..8] == "generate" && w[8..] == "3";
  }
}
