/** The smoke test's fixture: three stored questions and three answers that
    score 2 out of 6, whichever copy of the padding rule is used. */
module ScoringFixture {
  import opened Js
  import opened Codec
  import opened Scoring

  /** Question 1: `"Photosynthesis"`, weight 2, half credit for `photo` and for `synthesis`. */
  const Meta1: Json := JObj(map[
    "correctAnswer" := JStr("Photosynthesis"),
    "weight" := JNum(2.0),
    "partials" := JArr([PhotoRule, SynthesisRule])])

  const PhotoRule: Json := JObj(map["match" := JStr("photo"), "score" := JNum(0.5)])
  const SynthesisRule: Json := JObj(map["match" := JStr("synthesis"), "score" := JNum(0.5)])

  /** Question 2: `"42"`, weight 3, no partial credit. */
  const Meta2: Json := JObj(map["correctAnswer" := JStr("42"), "weight" := JNum(3.0)])

  /** Question 0 is the legacy plaintext `A`; the others are encrypted JSON. */
  function Questions(rt: Runtime): seq<string> {
    [rt.encrypt("A"), rt.encrypt(rt.stringify(Meta1)), rt.encrypt(rt.stringify(Meta2))]
  }

  const Answers: seq<Submitted> := [
    Submitted(0, Some(JStr("A"))),
    Submitted(1, Some(JStr("photo process"))),
    Submitted(2, Some(JStr("41")))]

  /** A string with no white space at either end is its own trim. */
  lemma TrimUnchanged(s: string)
    requires |s| > 0 && !IsSpace(s[0]) && !IsSpace(s[|s| - 1])
    ensures Trim(s) == s
  {
  }

  /** A string without upper-case ASCII letters is its own lower case. */
  lemma LowerUnchanged(s: string)
    requires forall i :: 0 <= i < |s| ==> !('A' <= s[i] <= 'Z')
    ensures Lower(s) == s
  {
  }

  lemma DecodesTo(rt: Runtime)
    requires SoundCipher(rt) && SoundJson(rt) && rt.parse("A") == None
    ensures DecodeAll(rt, Questions(rt)) == Some(FixtureDecoded)
  {
    var qs := Questions(rt);
    assert Decode(rt, qs[0]) == Some(Legacy("A"));
    assert Decode(rt, qs[1]) == Some(Structured(Meta1));
    assert Decode(rt, qs[2]) == Some(Structured(Meta2));
    assert Decrypts(rt, qs);
    var ds := DecodeAll(rt, qs).value;
    assert ds[0] == Legacy("A");
    assert ds[1] == Structured(Meta1);
    assert ds[2] == Structured(Meta2);
    assert ds == FixtureDecoded;
  }

  /** `A` against the legacy answer `A`: an exact match, worth 1. */
  lemma FirstAnswer(numberText: real -> string)
    ensures Award(LegacyMeta("A"), "A", numberText) == 1.0
  {
    TrimUnchanged("A");
    assert ExactMatch(LegacyMeta("A"), "A", numberText);
  }

  lemma PhotoApplies()
    ensures RuleCredit(PhotoRule, "photo process", 2.0) == 1.0
  {
    LowerUnchanged("photo");
    assert StartsWith("photo process", "photo");
  }

  /** `t` cannot occur in `s` where no early enough character of `s` is `t`'s first. */
  lemma NotIncluded(s: string, t: string)
    requires |t| > 0
    requires forall i :: 0 <= i <= |s| - |t| ==> s[i] != t[0]
    ensures !Includes(s, t)
  {
    IncludesIffOccurs(s, t);
    forall i | OccursAt(s, t, i)
      ensures false
    {
    }
  }

  lemma SynthesisNotInAnswer()
    ensures !Includes("photo process", Lower("synthesis"))
  {
    LowerUnchanged("synthesis");
    var s := "photo process";
    assert s[0] == 'p' && s[1] == 'h' && s[2] == 'o' && s[3] == 't' && s[4] == 'o';
    NotIncluded(s, "synthesis");
  }

  /** A rule whose `match` does not occur adds nothing. */
  lemma NoCreditWithoutMatch(rule: Json, lowered: string, weight: real, m: string)
    requires Prop(rule, "match") == Some(JStr(m)) && !Includes(lowered, Lower(m))
    ensures RuleCredit(rule, lowered, weight) == 0.0
  {
  }

  lemma SynthesisDoesNotApply()
    ensures RuleCredit(SynthesisRule, "photo process", 2.0) == 0.0
  {
    SynthesisNotInAnswer();
    assert Prop(SynthesisRule, "match") == Some(JStr("synthesis"));
    NoCreditWithoutMatch(SynthesisRule, "photo process", 2.0, "synthesis");
  }

  lemma NotExactlyPhotosynthesis(numberText: real -> string)
    ensures !ExactMatch(Meta1, "photo process", numberText)
  {
    TrimUnchanged("photo process");
    TrimUnchanged("Photosynthesis");
    assert Correct(Meta1) == JStr("Photosynthesis");
  }

  lemma TwoRules(r0: Json, r1: Json, lowered: string, weight: real)
    ensures PartialSum([r0, r1], lowered, weight) == RuleCredit(r0, lowered, weight) + RuleCredit(r1, lowered, weight)
  {
    assert [r0, r1][..1] == [r0] && [r0][..0] == [];
    assert PartialSum([r0], lowered, weight) == RuleCredit(r0, lowered, weight);
  }

  /** Without an exact match, an answer to a question with two partial rules
      earns their capped sum. */
  lemma TwoRuleAward(meta: Json, answer: string, lowered: string, numberText: real -> string, r0: Json, r1: Json,
                     weight: real, c0: real, c1: real)
    requires !ExactMatch(meta, answer, numberText) && Prop(meta, "partials") == Some(JArr([r0, r1]))
    requires Weight(meta) == weight && Lower(answer) == lowered
    requires RuleCredit(r0, lowered, weight) == c0 && RuleCredit(r1, lowered, weight) == c1
    ensures Award(meta, answer, numberText) == Capped(c0 + c1, weight)
  {
    TwoRules(r0, r1, lowered, weight);
  }

  lemma PhotoProcessLower()
    ensures Lower("photo process") == "photo process"
  {
    LowerUnchanged("photo process");
  }

  lemma Meta1Shape()
    ensures Prop(Meta1, "partials") == Some(JArr([PhotoRule, SynthesisRule]))
    ensures Weight(Meta1) == 2.0
  {
  }

  /** `photo process` contains `photo` but not `synthesis`: half of weight 2. */
  lemma SecondAnswer(numberText: real -> string)
    ensures Award(Meta1, "photo process", numberText) == 1.0
  {
    NotExactlyPhotosynthesis(numberText);
    PhotoProcessLower();
    PhotoApplies();
    SynthesisDoesNotApply();
    Meta1Shape();
    TwoRuleAward(Meta1, "photo process", "photo process", numberText, PhotoRule, SynthesisRule, 2.0, 1.0, 0.0);
  }

  /** `41` against `42`, with no partial rules: nothing. */
  lemma ThirdAnswer(numberText: real -> string)
    ensures Award(Meta2, "41", numberText) == 0.0
  {
    TrimUnchanged("41");
    TrimUnchanged("42");
    assert "41" != "42";
    assert Prop(Meta2, "partials") == None;
  }

  lemma ScoredSnoc(decoded: seq<Decoded>, answers: seq<Submitted>, a: Submitted, numberText: real -> string)
    ensures Scored(decoded, answers + [a], numberText) == Scored(decoded, answers, numberText) + [ScoreOne(decoded, a, numberText)]
  {
    assert (answers + [a])[..|answers|] == answers;
  }

  lemma ThreeScored(decoded: seq<Decoded>, a0: Submitted, a1: Submitted, a2: Submitted, numberText: real -> string,
                    w0: real, w1: real, w2: real)
    requires ScoreOne(decoded, a0, numberText).awarded == w0
    requires ScoreOne(decoded, a1, numberText).awarded == w1
    requires ScoreOne(decoded, a2, numberText).awarded == w2
    ensures SumAwarded(Scored(decoded, [a0, a1, a2], numberText)) == w0 + w1 + w2
  {
    var r0, r1, r2 := ScoreOne(decoded, a0, numberText), ScoreOne(decoded, a1, numberText), ScoreOne(decoded, a2, numberText);
    ScoredSnoc(decoded, [], a0, numberText);
    assert [] + [a0] == [a0] && [] + [r0] == [r0];
    ScoredSnoc(decoded, [a0], a1, numberText);
    assert [a0] + [a1] == [a0, a1];
    ScoredSnoc(decoded, [a0, a1], a2, numberText);
    assert [a0, a1] + [a2] == [a0, a1, a2];
    SumAwardedStep([], r0);
    SumAwardedStep([r0], r1);
    assert [r0] + [r1] == [r0, r1];
    SumAwardedStep([r0, r1], r2);
  }

  lemma ThreeWeights(decoded: seq<Decoded>, i: int, j: int, k: int)
    ensures WeightSum(decoded, [i, j, k])
         == Weight(MetaAt(decoded, i)) + Weight(MetaAt(decoded, j)) + Weight(MetaAt(decoded, k))
  {
    assert [i, j, k][..2] == [i, j] && [i, j][..1] == [i] && [i][..0] == [];
    assert WeightSum(decoded, [i]) == Weight(MetaAt(decoded, i));
    assert WeightSum(decoded, [i, j]) == Weight(MetaAt(decoded, i)) + Weight(MetaAt(decoded, j));
  }

  const FixtureDecoded: seq<Decoded> := [Legacy("A"), Structured(Meta1), Structured(Meta2)]

  lemma FirstRecord(numberText: real -> string)
    ensures ScoreOne(FixtureDecoded, Answers[0], numberText).awarded == 1.0
  {
    FirstAnswer(numberText);
    assert MetaAt(FixtureDecoded, 0) == LegacyMeta("A");
  }

  lemma SecondRecord(numberText: real -> string)
    ensures ScoreOne(FixtureDecoded, Answers[1], numberText).awarded == 1.0
  {
    SecondAnswer(numberText);
    assert MetaAt(FixtureDecoded, 1) == Meta1;
  }

  lemma ThirdRecord(numberText: real -> string)
    ensures ScoreOne(FixtureDecoded, Answers[2], numberText).awarded == 0.0
  {
    ThirdAnswer(numberText);
    assert MetaAt(FixtureDecoded, 2) == Meta2;
  }

  lemma FixtureScored(numberText: real -> string)
    ensures SumAwarded(Scored(FixtureDecoded, Answers, numberText)) == 2.0
  {
    FirstRecord(numberText);
    SecondRecord(numberText);
    ThirdRecord(numberText);
    ThreeScored(FixtureDecoded, Answers[0], Answers[1], Answers[2], numberText, 1.0, 1.0, 0.0);
    assert Answers == [Answers[0], Answers[1], Answers[2]];
  }

  lemma FixtureTotal()
    ensures WeightSum(FixtureDecoded, QuestionIndexes(Answers)) == 6.0
    ensures Missing(3, Indices(Answers)) == []
  {
    var decoded := FixtureDecoded;
    assert Weight(MetaAt(decoded, 0)) == 1.0;
    assert Weight(MetaAt(decoded, 1)) == 2.0;
    assert Weight(MetaAt(decoded, 2)) == 3.0;
    ThreeWeights(decoded, 0, 1, 2);
    assert QuestionIndexes(Answers) == [0, 1, 2];
    var answered := Indices(Answers);
    assert Answers[0].questionIndex == 0 && Answers[1].questionIndex == 1 && Answers[2].questionIndex == 2;
    assert 0 in answered && 1 in answered && 2 in answered;
    assert Missing(1, answered) == [];
    assert Missing(2, answered) == [];
  }

  /** The fixture scores 2 out of 6: every question answered, so nothing is
      padded, and the padding rule makes no difference. */
  lemma SmokeFixture(rt: Runtime, padding: Padding)
    requires SoundCipher(rt) && SoundJson(rt) && rt.parse("A") == None
    ensures DecodeAll(rt, Questions(rt)).Some?
    ensures Score(DecodeAll(rt, Questions(rt)).value, Answers, rt.numberText, padding).score == 2.0
    ensures Score(DecodeAll(rt, Questions(rt)).value, Answers, rt.numberText, padding).total == 6.0
    ensures |Score(DecodeAll(rt, Questions(rt)).value, Answers, rt.numberText, padding).records| == 3
  {
    DecodesTo(rt);
    FixtureScored(rt.numberText);
    FixtureTotal();
  }
}
