/**
  The tailoring endpoint of app/api/tailor/route.ts: it refuses a request
  without both texts, hands the texts to the language model, and adds to the
  model's answer a score for how many of the suggested skills are among the
  model's own ATS keywords. The language model is a parameter.
 */
module Tailor {
  import opened Chars
  import opened Seqs
  import opened AtsScoring

  datatype Option<T> = None | Some(value: T)

  /** The two fields the route reads from the JSON body; a missing body or
      field is `None`. */
  datatype TailorRequest = TailorRequest(resumeText: Option<string>, jdText: Option<string>)

  /** The model's answer as far as the route reads it: `ats_keywords` and
      `skills`; everything else it holds is passed on unread in `rest`. */
  datatype TailorResult = TailorResult(atsKeywords: Option<seq<string>>, skills: Option<seq<string>>, rest: string)

  /** The outcome of `tailorWithGemini`: an answer, or a thrown error with its
      `message` ("" when it has none). */
  datatype LlmOutcome = Succeeded(result: TailorResult) | Failed(message: string)

  /** `NextResponse.json(...)`: the answer spread with `atsScore` added
      (status 200), or `{ error }` with a status. */
  datatype Response = Tailored(result: TailorResult, atsScore: nat) | Error(status: nat, error: string)

  const MissingInput: string := "Missing resume text or job description"
  const DefaultLlmError: string := "LLM error"

  /** A field is truthy: present and not the empty string. */
  predicate Present(field: Option<string>)
  {
    field.Some? && field.value != []
  }

  /** `list || []` */
  function OrEmpty(list: Option<seq<string>>): (r: seq<string>)
    ensures list.None? ==> r == []
    ensures list.Some? ==> r == list.value
  {
    if list.Some? then list.value else []
  }

  // ---------------------------------------------------------------------
  // The skill-hit score, lines 19-25

  /** `new Set(list.map((s) => s.toLowerCase()))` */
  function Lowered(list: seq<string>): (r: set<string>)
    ensures forall s :: s in list ==> LowerStr(s) in r
    ensures |r| <= |list|
  {
    if list == [] then {}
    else
      var init := Lowered(list[..|list| - 1]);
      var last := list[|list| - 1];
      assert list == list[..|list| - 1] + [last];
      init + {LowerStr(last)}
  }

  /** Every word of the set is the lower case of some list entry. */
  lemma {:induction false} LoweredOnly(list: seq<string>)
    ensures forall w :: w in Lowered(list) ==> exists i :: 0 <= i < |list| && LowerStr(list[i]) == w
  {
    if list != [] {
      var init := list[..|list| - 1];
      LoweredOnly(init);
      LoweredSnoc(list);
      forall w | w in Lowered(list) ensures exists i :: 0 <= i < |list| && LowerStr(list[i]) == w {
        if w != LowerStr(list[|list| - 1]) {
          var i :| 0 <= i < |init| && LowerStr(init[i]) == w;
          assert list[i] == init[i];
        }
      }
    }
  }

  predicate InSet(jdSet: set<string>, s: string)
  {
    LowerStr(s) in jdSet
  }

  /** `skills.filter((s) => jdSet.has(s.toLowerCase())).length`: repeats
      count each time. */
  function SkillHit(skills: seq<string>, jdSet: set<string>): (n: nat)
    ensures n <= |skills|
  {
    |Filter(skills, s => InSet(jdSet, s))|
  }

  /** `Math.max(1, jdSet.size)` */
  function Denominator(jdSet: set<string>): (d: nat)
    ensures d >= 1 && d >= |jdSet|
    ensures jdSet != {} ==> d == |jdSet|
    ensures jdSet == {} ==> d == 1
  {
    if |jdSet| > 1 then |jdSet| else 1
  }

  /** `Math.round((skillHit / Math.max(1, jdSet.size)) * 100)` for the
      model's answer. */
  function AtsScore(result: TailorResult): nat
  {
    var jdSet := Lowered(OrEmpty(result.atsKeywords));
    RoundedPercentage(SkillHit(OrEmpty(result.skills), jdSet), Denominator(jdSet))
  }

  // ---------------------------------------------------------------------
  // The handler

  /** `POST` of app/api/tailor/route.ts with the model call as `llm`. */
  function HandleTailor(request: TailorRequest, llm: (string, string) -> LlmOutcome): (r: Response)
    ensures r == Error(400, MissingInput) <==> !Present(request.resumeText) || !Present(request.jdText)
    ensures Present(request.resumeText) && Present(request.jdText) ==>
              var outcome := llm(request.resumeText.value, request.jdText.value);
              (r.Tailored? <==> outcome.Succeeded?)
              && (r.Tailored? ==> r.result == outcome.result && r.atsScore == AtsScore(outcome.result))
              && (r.Error? ==> r.status == 500 && r.error != [])
              && (outcome.Failed? && outcome.message != [] ==> r.error == outcome.message)
              && (outcome.Failed? && outcome.message == [] ==> r.error == DefaultLlmError)
  {
    if !Present(request.resumeText) || !Present(request.jdText) then
      Error(400, MissingInput)
    else
      match llm(request.resumeText.value, request.jdText.value)
      case Failed(message) => Error(500, if message != [] then message else DefaultLlmError)
      case Succeeded(result) => Tailored(result, AtsScore(result))
  }

  // ---------------------------------------------------------------------
  // Properties

  /** A request without both texts is answered before the model is asked:
      the answer is the same whatever the model would say. */
  lemma MissingInputIgnoresModel(request: TailorRequest, llm1: (string, string) -> LlmOutcome,
                                 llm2: (string, string) -> LlmOutcome)
    requires !Present(request.resumeText) || !Present(request.jdText)
    ensures HandleTailor(request, llm1) == HandleTailor(request, llm2) == Error(400, MissingInput)
  {
  }

  /** Nothing passes the skill filter when the keyword set is empty. */
  lemma {:induction false} NoHitWithoutKeywords(skills: seq<string>)
    ensures SkillHit(skills, {}) == 0
  {
    var hits := Filter(skills, s => InSet({}, s));
    if hits != [] {
      assert hits[0] in hits;
    }
  }

  /** Without keywords (missing or empty `ats_keywords`) the score is 0. */
  lemma NoKeywordsScoreZero(result: TailorResult)
    requires OrEmpty(result.atsKeywords) == []
    ensures AtsScore(result) == 0
  {
    NoHitWithoutKeywords(OrEmpty(result.skills));
  }

  /** The lower-case forms of the skills are pairwise different. */
  predicate DistinctLowered(skills: seq<string>)
  {
    forall i, j :: 0 <= i < j < |skills| ==> LowerStr(skills[i]) != LowerStr(skills[j])
  }

  /** The last of pairwise different skills is new after lower-casing. */
  lemma LastSkillNew(skills: seq<string>)
    requires skills != [] && DistinctLowered(skills)
    ensures LowerStr(skills[|skills| - 1]) !in Lowered(skills[..|skills| - 1])
  {
    var init, last := skills[..|skills| - 1], skills[|skills| - 1];
    LoweredOnly(init);
    forall i | 0 <= i < |init| ensures LowerStr(init[i]) != LowerStr(last) {
      assert init[i] == skills[i];
    }
  }

  /** With pairwise different skills each hit uses up its own keyword. */
  lemma {:induction false} HitsAtMostShared(skills: seq<string>, jdSet: set<string>)
    requires DistinctLowered(skills)
    ensures SkillHit(skills, jdSet) <= |jdSet * Lowered(skills)|
  {
    if skills != [] {
      DistinctLoweredInit(skills);
      HitsAtMostShared(skills[..|skills| - 1], jdSet);
      HitStep(skills, jdSet);
      SharedStep(skills, jdSet);
    }
  }

  lemma DistinctLoweredInit(skills: seq<string>)
    requires skills != [] && DistinctLowered(skills)
    ensures DistinctLowered(skills[..|skills| - 1])
  {
    var init := skills[..|skills| - 1];
    forall i, j | 0 <= i < j < |init| ensures LowerStr(init[i]) != LowerStr(init[j]) {
      assert init[i] == skills[i] && init[j] == skills[j];
    }
  }

  /** The last skill adds one hit exactly when it is a keyword. */
  lemma HitStep(skills: seq<string>, jdSet: set<string>)
    requires skills != []
    ensures SkillHit(skills, jdSet) ==
      SkillHit(skills[..|skills| - 1], jdSet) + if InSet(jdSet, skills[|skills| - 1]) then 1 else 0
  {
    var p := s => InSet(jdSet, s);
    var last := skills[|skills| - 1];
    assert Filter(skills, p) == Filter(skills[..|skills| - 1], p) + (if p(last) then [last] else []);
  }

  /** A new last skill adds one shared keyword exactly when it is a keyword. */
  lemma SharedStep(skills: seq<string>, jdSet: set<string>)
    requires skills != [] && DistinctLowered(skills)
    ensures |jdSet * Lowered(skills)| ==
      |jdSet * Lowered(skills[..|skills| - 1])| + if InSet(jdSet, skills[|skills| - 1]) then 1 else 0
  {
    LoweredSnoc(skills);
    LastSkillNew(skills);
    IntersectionAddNew(jdSet, Lowered(skills[..|skills| - 1]), LowerStr(skills[|skills| - 1]));
  }

  lemma LoweredSnoc(list: seq<string>)
    requires list != []
    ensures Lowered(list) == Lowered(list[..|list| - 1]) + {LowerStr(list[|list| - 1])}
  {
  }

  /** Adding a new element to one side of an intersection adds it to the
      intersection exactly when the other side has it. */
  lemma IntersectionAddNew(a: set<string>, b: set<string>, x: string)
    requires x !in b
    ensures |a * (b + {x})| == |a * b| + if x in a then 1 else 0
  {
    if x in a {
      assert a * (b + {x}) == (a * b) + {x};
    } else {
      assert a * (b + {x}) == a * b;
    }
  }

  lemma IntersectionAtMost(a: set<string>, b: set<string>)
    ensures |a * b| <= |a|
  {
    assert a == (a * b) + (a - b);
    assert (a * b) * (a - b) == {};
  }

  /** The score exceeds 100 only through repeated skills: when no two skills
      agree after lower-casing, it is at most 100. */
  lemma DistinctSkillsAtMostHundred(result: TailorResult)
    requires DistinctLowered(OrEmpty(result.skills))
    ensures AtsScore(result) <= 100
  {
    var jdSet := Lowered(OrEmpty(result.atsKeywords));
    var skills := OrEmpty(result.skills);
    HitsAtMostShared(skills, jdSet);
    IntersectionAtMost(jdSet, Lowered(skills));
  }

  /** The keyword set and the lower-case skills of the repeated-skill example. */
  lemma RepeatedSkillWords(result: TailorResult)
    requires result.skills == Some(["Go", "go"]) && result.atsKeywords == Some(["go"])
    ensures Lowered(OrEmpty(result.atsKeywords)) == {"go"}
    ensures LowerStr("Go") == "go" && LowerStr("go") == "go"
  {
    assert LowerStr("Go")[0] == Lower('G') == 'g';
    assert LowerStr("Go")[1] == Lower('o') == 'o';
    assert LowerStr("go")[0] == Lower('g') == 'g';
    assert LowerStr("go")[1] == Lower('o') == 'o';
    assert LowerStr("Go") == "go";
    assert LowerStr("go") == "go";
    var ks := OrEmpty(result.atsKeywords);
    assert ks[..0] == [];
  }

  /** The score has no upper bound: a skill repeated with different case
      counts twice against one keyword, so skills ["Go", "go"] against
      keywords ["go"] score 200. */
  lemma RepeatedSkillScores200(result: TailorResult)
    requires result.skills == Some(["Go", "go"]) && result.atsKeywords == Some(["go"])
    ensures AtsScore(result) == 200
  {
    RepeatedSkillWords(result);
    var skills := OrEmpty(result.skills);
    var p := s => InSet({"go"}, s);
    assert Filter(skills, p) == skills by {
      assert skills == ["Go"] + ["go"];
      assert skills[..1] == ["Go"];
      assert Filter(skills[..1], p) == ["Go"] by {
        assert skills[..1][..0] == [];
      }
    }
    assert Denominator({"go"}) == 1;
  }
}
