/** What the scoring engine promises: per-answer scoring rules, the shape of
    the records handed to `Result.create`, and how `score` and `total`
    relate to them. */
module ScoringProps {
  import opened Js
  import opened Codec
  import opened Scoring

  // ---------------------------------------------------------------------
  // Decoding a stored question

  /** A plaintext that `JSON.parse` rejects (such as `A`) is a legacy bare
      correct answer with weight 1. */
  lemma LegacyQuestion(rt: Runtime, q: string, text: string)
    requires rt.decrypt(q) == Some(text) && rt.parse(text) == None
    ensures DecodeAll(rt, [q]) == Some([Legacy(text)])
    ensures Correct(MetaAt([Legacy(text)], 0)) == JStr(text)
    ensures Weight(MetaAt([Legacy(text)], 0)) == 1.0
  {
    assert Decrypts(rt, [q]);
    assert Decode(rt, q) == Some(Legacy(text));
    assert DecodeAll(rt, [q]).value == [Legacy(text)];
  }

  /** A plaintext that parses to something other than an object (`42`, a
      string, an array) has no `correctAnswer`: nothing can match it exactly,
      and its weight is 1. A parsed `null` falls back to the default metadata. */
  lemma NonObjectQuestion(rt: Runtime, q: string, text: string, v: Json, answer: string, numberText: real -> string)
    requires rt.decrypt(q) == Some(text) && rt.parse(text) == Some(v) && !v.JObj?
    ensures DecodeAll(rt, [q]) == Some([Structured(v)])
    ensures Correct(MetaAt([Structured(v)], 0)) == JNull
    ensures Weight(MetaAt([Structured(v)], 0)) == 1.0
    ensures Award(MetaAt([Structured(v)], 0), answer, numberText) == 0.0
  {
    var meta := MetaAt([Structured(v)], 0);
    assert Decrypts(rt, [q]);
    assert Decode(rt, q) == Some(Structured(v));
    assert DecodeAll(rt, [q]).value == [Structured(v)];
    assert meta == v || meta == DefaultMeta;
  }

  /** A stored question that does not decrypt fails the whole submission,
      whatever the answers: the `catch` decrypts again and throws again. */
  lemma UndecryptableQuestionFails(rt: Runtime, exams: map<string, seq<string>>, id: string, k: int,
                                   answers: seq<Option<Submitted>>, padding: Padding)
    requires id != "" && id in exams && 0 <= k < |exams[id]| && rt.decrypt(exams[id][k]).None?
    ensures VerifyAndSave(rt, exams, Some(JStr(id)), AnswerList(answers), padding) == Undecryptable
  {
    assert !Decrypts(rt, exams[id]);
  }

  /** Once the questions decrypt, a `null` or `undefined` element anywhere in
      `answers` makes the scoring `map` throw, whatever the other elements. */
  lemma NullElementThrows(rt: Runtime, exams: map<string, seq<string>>, id: string, answers: seq<Option<Submitted>>,
                          k: int, padding: Padding)
    requires id != "" && id in exams && Decrypts(rt, exams[id])
    requires 0 <= k < |answers| && answers[k].None?
    ensures VerifyAndSave(rt, exams, Some(JStr(id)), AnswerList(answers), padding) == ElementThrows
  {
    assert !Present(answers);
  }

  /** An array of answer objects for an exam whose questions decrypt is scored
      and handed to `Result.create`. */
  lemma ObjectsAreScored(rt: Runtime, exams: map<string, seq<string>>, id: string, answers: seq<Submitted>,
                         padding: Padding)
    requires id != "" && id in exams && Decrypts(rt, exams[id])
    ensures var items := seq(|answers|, k requires 0 <= k < |answers| => Some(answers[k]));
      && Present(items) && Elements(items) == answers
      && VerifyAndSave(rt, exams, Some(JStr(id)), AnswerList(items), padding)
         == Saved(Score(DecodeAll(rt, exams[id]).value, answers, rt.numberText, padding))
  {
    var items := seq(|answers|, k requires 0 <= k < |answers| => Some(answers[k]));
    assert Elements(items) == answers;
  }

  // ---------------------------------------------------------------------
  // Scoring one answer

  /** An index the exam does not have is scored against
      `{correctAnswer: null, weight: 1}` and earns nothing. */
  lemma OutOfRangeEarnsNothing(decoded: seq<Decoded>, a: Submitted, numberText: real -> string)
    requires !(0 <= a.questionIndex < |decoded|)
    ensures ScoreOne(decoded, a, numberText) == Record(a.questionIndex, a.answer, JNull, JNum(1.0), 0.0)
  {
    assert MetaAt(decoded, a.questionIndex) == DefaultMeta;
    assert Prop(DefaultMeta, "partials") == None;
  }

  /** An exact (trimmed, case-sensitive) match earns the full weight, whatever
      partial rules the question carries. */
  lemma ExactMatchEarnsWeight(meta: Json, answer: string, numberText: real -> string, rules: seq<Json>)
    requires meta.JObj? && ExactMatch(meta, answer, numberText)
    ensures Award(meta, answer, numberText) == Weight(meta)
    ensures Award(JObj(meta.fields["partials" := JArr(rules)]), answer, numberText) == Weight(meta)
  {
    var meta' := JObj(meta.fields["partials" := JArr(rules)]);
    assert Prop(meta', "correctAnswer") == Prop(meta, "correctAnswer");
    assert Prop(meta', "weight") == Prop(meta, "weight");
  }

  /** Without an exact match and without a `partials` array nothing is earned. */
  lemma NoPartialsEarnsNothing(meta: Json, answer: string, numberText: real -> string)
    requires !ExactMatch(meta, answer, numberText)
    requires !(Prop(meta, "partials").Some? && Prop(meta, "partials").value.JArr?)
    ensures Award(meta, answer, numberText) == 0.0
  {
  }

  /** A rule applies when it has a string `match` that occurs, lower-cased,
      somewhere in the lower-cased answer. */
  ghost predicate Applies(rule: Json, lowered: string) {
    Prop(rule, "match").Some? && Prop(rule, "match").value.JStr?
    && exists i :: OccursAt(lowered, Lower(Prop(rule, "match").value.s), i)
  }

  /** The rules that apply, in order. */
  ghost function Matching(rules: seq<Json>, lowered: string): seq<Json>
    decreases |rules|
  {
    if |rules| == 0 then []
    else
      var init := Matching(rules[..|rules| - 1], lowered);
      if Applies(rules[|rules| - 1], lowered) then init + [rules[|rules| - 1]] else init
  }

  /** One rule adds score × weight exactly when it applies. */
  lemma RuleCreditApplies(rule: Json, lowered: string, weight: real)
    ensures RuleCredit(rule, lowered, weight) == if Applies(rule, lowered) then RuleScore(rule) * weight else 0.0
  {
    match Prop(rule, "match")
    case Some(JStr(m)) => IncludesIffOccurs(lowered, Lower(m));
    case _ =>
  }

  /** The scores of the given rules added up, non-numeric scores counting 0. */
  function ScoreTotal(rules: seq<Json>): real {
    if |rules| == 0 then 0.0 else ScoreTotal(rules[..|rules| - 1]) + RuleScore(rules[|rules| - 1])
  }

  lemma ScoreTotalSnoc(rules: seq<Json>, r: Json)
    ensures ScoreTotal(rules + [r]) == ScoreTotal(rules) + RuleScore(r)
  {
    assert (rules + [r])[..|rules|] == rules;
  }

  /** Each rule's score times the weight, added up. */
  function WeightedTotal(rules: seq<Json>, weight: real): real {
    if |rules| == 0 then 0.0 else WeightedTotal(rules[..|rules| - 1], weight) + RuleScore(rules[|rules| - 1]) * weight
  }

  lemma WeightedTotalSnoc(rules: seq<Json>, r: Json, weight: real)
    ensures WeightedTotal(rules + [r], weight) == WeightedTotal(rules, weight) + RuleScore(r) * weight
  {
    assert (rules + [r])[..|rules|] == rules;
  }

  /** Scaling each score by the weight scales their total. */
  lemma {:induction false} WeightedTotalIsScaled(rules: seq<Json>, weight: real)
    ensures WeightedTotal(rules, weight) == ScoreTotal(rules) * weight
    decreases |rules|
  {
    if |rules| > 0 {
      var init := rules[..|rules| - 1];
      WeightedTotalIsScaled(init, weight);
      var a, b := ScoreTotal(init), RuleScore(rules[|rules| - 1]);
      assert (a + b) * weight == a * weight + b * weight;
    }
  }

  /** The partials loop adds score × weight over exactly the matching rules. */
  lemma {:induction false} PartialSumIsMatchingScore(rules: seq<Json>, lowered: string, weight: real)
    ensures PartialSum(rules, lowered, weight) == WeightedTotal(Matching(rules, lowered), weight)
    decreases |rules|
  {
    if |rules| > 0 {
      var init := rules[..|rules| - 1];
      var rule := rules[|rules| - 1];
      PartialSumIsMatchingScore(init, lowered, weight);
      RuleCreditApplies(rule, lowered, weight);
      if Applies(rule, lowered) {
        WeightedTotalSnoc(Matching(init, lowered), rule, weight);
      }
    }
  }

  /** Without an exact match, an answer earns each applying partial rule's
      score times the weight, added up and capped above at the weight
      (`WeightedTotalIsScaled` turns the sum into total score × weight). */
  lemma PartialCreditCapped(meta: Json, answer: string, numberText: real -> string)
    requires !ExactMatch(meta, answer, numberText)
    requires Prop(meta, "partials").Some? && Prop(meta, "partials").value.JArr?
    ensures Award(meta, answer, numberText)
         == Capped(WeightedTotal(Matching(Prop(meta, "partials").value.items, Lower(answer)), Weight(meta)), Weight(meta))
    ensures Award(meta, answer, numberText) <= Weight(meta)
  {
    var rules, lowered, w := Prop(meta, "partials").value.items, Lower(answer), Weight(meta);
    assert Prop(meta, "partials") == Some(JArr(rules));
    PartialSumIsMatchingScore(rules, lowered, w);
  }

  lemma {:induction false} PartialSumNonNegative(rules: seq<Json>, lowered: string, weight: real)
    requires weight >= 0.0
    requires forall k :: 0 <= k < |rules| ==> 0.0 <= RuleScore(rules[k])
    ensures 0.0 <= PartialSum(rules, lowered, weight)
    decreases |rules|
  {
    if |rules| > 0 {
      PartialSumNonNegative(rules[..|rules| - 1], lowered, weight);
      assert 0.0 <= RuleScore(rules[|rules| - 1]);
    }
  }

  /** With a non-negative weight and every partial score a fraction in [0, 1],
      as the controller's comment intends, an answer earns between 0 and its weight. */
  lemma AwardWithinWeight(meta: Json, answer: string, numberText: real -> string)
    requires Weight(meta) >= 0.0
    requires Prop(meta, "partials").Some? && Prop(meta, "partials").value.JArr? ==>
      forall k :: 0 <= k < |Prop(meta, "partials").value.items| ==>
        0.0 <= RuleScore(Prop(meta, "partials").value.items[k]) <= 1.0
    ensures 0.0 <= Award(meta, answer, numberText) <= Weight(meta)
  {
    if !ExactMatch(meta, answer, numberText) && Prop(meta, "partials").Some? && Prop(meta, "partials").value.JArr? {
      var rules := Prop(meta, "partials").value.items;
      PartialSumNonNegative(rules, Lower(answer), Weight(meta));
      assert Prop(meta, "partials") == Some(JArr(rules));
    }
  }

  /** There is no lower clamp: a single matching rule with score -1 takes a
      whole weight away. */
  lemma NegativeScoreIsNotClamped(answer: string, numberText: real -> string)
    ensures var rule := JObj(map["match" := JStr(""), "score" := JNum(-1.0)]);
            var meta := JObj(map["weight" := JNum(2.0), "partials" := JArr([rule])]);
            Award(meta, answer, numberText) == -2.0
  {
    var rule := JObj(map["match" := JStr(""), "score" := JNum(-1.0)]);
    var meta := JObj(map["weight" := JNum(2.0), "partials" := JArr([rule])]);
    assert Prop(meta, "correctAnswer") == None;
    assert Lower("") == "";
    assert StartsWith(Lower(answer), "");
    assert [rule][..0] == [];
    assert PartialSum([rule], Lower(answer), 2.0) == -2.0;
  }

  // ---------------------------------------------------------------------
  // The records

  /** The submitted records come first, in submission order, one per answer. */
  lemma SubmittedFirst(decoded: seq<Decoded>, answers: seq<Submitted>, numberText: real -> string,
                       padding: Padding, k: nat)
    requires k < |answers|
    ensures k < |Score(decoded, answers, numberText, padding).records|
    ensures Score(decoded, answers, numberText, padding).records[k] == ScoreOne(decoded, answers[k], numberText)
  {
    ScoredAt(decoded, answers, numberText, k);
  }

  /** After them come the padded records: one per exam index no answer
      names, in ascending index order, with answer `null` and nothing awarded. */
  lemma PaddedAfter(decoded: seq<Decoded>, answers: seq<Submitted>, numberText: real -> string,
                    padding: Padding, k: nat)
    requires |answers| <= k < |Score(decoded, answers, numberText, padding).records|
    ensures var r := Score(decoded, answers, numberText, padding).records[k];
      && r.answer == Some(JNull) && r.awarded == 0.0
      && 0 <= r.questionIndex < |decoded| && r.questionIndex !in Indices(answers)
      && r.questionIndex == Missing(|decoded|, Indices(answers))[k - |answers|]
  {
    var scored := Scored(decoded, answers, numberText);
    var missing := Missing(|decoded|, Indices(answers));
    var padded := PadAll(decoded, missing, padding);
    var j := k - |answers|;
    assert Score(decoded, answers, numberText, padding).records[k] == padded[j] by {
      assert Score(decoded, answers, numberText, padding).records == scored + padded;
    }
    PadAllAt(decoded, missing, padding, j);
    MissingSound(|decoded|, Indices(answers));
    assert 0 <= missing[j] < |decoded| && missing[j] !in Indices(answers);
  }

  /** There are as many records as answers plus unanswered exam indices. */
  lemma RecordCount(decoded: seq<Decoded>, answers: seq<Submitted>, numberText: real -> string, padding: Padding)
    ensures |Score(decoded, answers, numberText, padding).records|
         == |answers| + |Missing(|decoded|, Indices(answers))|
  {
  }

  /** Every exam index has a record. */
  lemma RecordsCoverExam(decoded: seq<Decoded>, answers: seq<Submitted>, numberText: real -> string,
                         padding: Padding, i: int)
    requires 0 <= i < |decoded|
    ensures HasIndex(Score(decoded, answers, numberText, padding).records, i)
  {
    var records := Score(decoded, answers, numberText, padding).records;
    if i in Indices(answers) {
      var k :| 0 <= k < |answers| && answers[k].questionIndex == i;
      SubmittedFirst(decoded, answers, numberText, padding, k);
      assert records[k].questionIndex == i;
    } else {
      var missing := Missing(|decoded|, Indices(answers));
      MissingComplete(|decoded|, Indices(answers), i);
      var j :| 0 <= j < |missing| && missing[j] == i;
      PaddedAfter(decoded, answers, numberText, padding, |answers| + j);
    }
  }

  lemma {:induction false} SumAwardedConcat(a: seq<Record>, b: seq<Record>)
    ensures SumAwarded(a + b) == SumAwarded(a) + SumAwarded(b)
    decreases |b|
  {
    if |b| == 0 {
      assert a + b == a;
    } else {
      var b' := b[..|b| - 1];
      SumAwardedConcat(a, b');
      assert a + b == (a + b') + [b[|b| - 1]];
      SumAwardedStep(a + b', b[|b| - 1]);
    }
  }

  lemma {:induction false} PaddingAwardsNothing(decoded: seq<Decoded>, missing: seq<int>, padding: Padding)
    ensures SumAwarded(PadAll(decoded, missing, padding)) == 0.0
    decreases |missing|
  {
    if |missing| > 0 {
      var m := missing[..|missing| - 1];
      PaddingAwardsNothing(decoded, m, padding);
      SumAwardedStep(PadAll(decoded, m, padding), PadOne(decoded, missing[|missing| - 1], padding));
    }
  }

  /** `score` is the sum of `awarded` over every record. */
  lemma ScoreIsSumOfAwarded(decoded: seq<Decoded>, answers: seq<Submitted>, numberText: real -> string, padding: Padding)
    ensures Score(decoded, answers, numberText, padding).score
         == SumAwarded(Score(decoded, answers, numberText, padding).records)
  {
    var missing := Missing(|decoded|, Indices(answers));
    SumAwardedConcat(Scored(decoded, answers, numberText), PadAll(decoded, missing, padding));
    PaddingAwardsNothing(decoded, missing, padding);
  }

  lemma IndicesAreQuestionIndexes(answers: seq<Submitted>)
    ensures forall i :: i in Indices(answers) <==> i in QuestionIndexes(answers)
  {
    forall i
      ensures i in Indices(answers) <==> i in QuestionIndexes(answers)
    {
      if i in QuestionIndexes(answers) {
        var k :| 0 <= k < |answers| && QuestionIndexes(answers)[k] == i;
        assert answers[k].questionIndex == i;
      }
    }
  }

  /** `total` depends only on the submitted indices and the exam, never on
      the answers' text, the way numbers print or the padding variant. */
  lemma TotalIgnoresAnswerText(decoded: seq<Decoded>, answers: seq<Submitted>, answers': seq<Submitted>,
                               numberText: real -> string, numberText': real -> string,
                               padding: Padding, padding': Padding)
    requires QuestionIndexes(answers) == QuestionIndexes(answers')
    ensures Score(decoded, answers, numberText, padding).total == Score(decoded, answers', numberText', padding').total
  {
    IndicesAreQuestionIndexes(answers);
    IndicesAreQuestionIndexes(answers');
    assert Indices(answers) == Indices(answers');
  }

  /** An answer naming an index the submission already names is scored
      again: it adds its own record, its points and the question's weight
      once more, and the padded records stay as they were. */
  lemma {:induction false} DuplicatesCountTwice(decoded: seq<Decoded>, answers: seq<Submitted>, a: Submitted,
                                                numberText: real -> string, padding: Padding)
    requires a.questionIndex in Indices(answers)
    ensures var before := Score(decoded, answers, numberText, padding);
      var after := Score(decoded, answers + [a], numberText, padding);
      && after.total == before.total + Weight(MetaAt(decoded, a.questionIndex))
      && after.score == before.score + ScoreOne(decoded, a, numberText).awarded
      && after.records == Scored(decoded, answers, numberText) + [ScoreOne(decoded, a, numberText)]
                          + Padded(decoded, answers, padding)
  {
    var more := answers + [a];
    assert more[..|answers|] == answers;
    assert Indices(more) == Indices(answers) by {
      forall i | i in Indices(more) ensures i in Indices(answers) {
        var k :| 0 <= k < |more| && more[k].questionIndex == i;
        if k < |answers| {
          assert answers[k].questionIndex == i;
        }
      }
      forall i | i in Indices(answers) ensures i in Indices(more) {
        var k :| 0 <= k < |answers| && answers[k].questionIndex == i;
        assert more[k].questionIndex == i;
      }
    }
    assert QuestionIndexes(more) == QuestionIndexes(answers) + [a.questionIndex];
    WeightSumSnoc(decoded, QuestionIndexes(answers), a.questionIndex);
    var r := ScoreOne(decoded, a, numberText);
    assert Scored(decoded, more, numberText) == Scored(decoded, answers, numberText) + [r];
    SumAwardedStep(Scored(decoded, answers, numberText), r);
  }

  /** The submission `[a, a]` on a one-question exam: two records, twice the
      points and twice the weight. */
  lemma SameAnswerTwice(decoded: seq<Decoded>, a: Submitted, numberText: real -> string, padding: Padding)
    requires |decoded| == 1 && a.questionIndex == 0
    ensures var o := Score(decoded, [a, a], numberText, padding);
      && |o.records| == 2
      && o.total == 2.0 * Weight(MetaAt(decoded, 0))
      && o.score == 2.0 * ScoreOne(decoded, a, numberText).awarded
  {
    var r := ScoreOne(decoded, a, numberText);
    assert [a] + [a] == [a, a];
    assert Indices([a]) == {0} by {
      assert [a][0].questionIndex == 0;
    }
    assert Missing(1, {0}) == [];
    assert QuestionIndexes([a]) == [0];
    assert WeightSum(decoded, [0]) == Weight(MetaAt(decoded, 0)) by {
      assert [0][..0] == [];
    }
    assert Scored(decoded, [a], numberText) == [r] by {
      assert [a][..0] == [];
    }
    assert SumAwarded([r]) == r.awarded by {
      assert [r][..0] == [];
    }
    DuplicatesCountTwice(decoded, [a], a, numberText, padding);
  }

  // ---------------------------------------------------------------------
  // The weight a padded record shows

  /** The weight a record carries, when it is a number. */
  function StoredWeight(r: Record): real {
    if r.weight.JNum? then r.weight.n else 0.0
  }

  function StoredWeightSum(rs: seq<Record>): real {
    if |rs| == 0 then 0.0 else StoredWeightSum(rs[..|rs| - 1]) + StoredWeight(rs[|rs| - 1])
  }

  lemma StoredWeightSumSnoc(rs: seq<Record>, r: Record)
    ensures StoredWeightSum(rs + [r]) == StoredWeightSum(rs) + StoredWeight(r)
  {
    assert (rs + [r])[..|rs|] == rs;
  }

  lemma {:induction false} StoredWeightSumConcat(a: seq<Record>, b: seq<Record>)
    ensures StoredWeightSum(a + b) == StoredWeightSum(a) + StoredWeightSum(b)
    decreases |b|
  {
    if |b| == 0 {
      assert a + b == a;
    } else {
      var b' := b[..|b| - 1];
      StoredWeightSumConcat(a, b');
      assert a + b == (a + b') + [b[|b| - 1]];
      StoredWeightSumSnoc(a + b', b[|b| - 1]);
    }
  }

  /** A scored record shows the numeric weight that `total` counts for it. */
  lemma {:induction false} ScoredWeightsAddUp(decoded: seq<Decoded>, answers: seq<Submitted>, numberText: real -> string)
    ensures StoredWeightSum(Scored(decoded, answers, numberText)) == WeightSum(decoded, QuestionIndexes(answers))
    decreases |answers|
  {
    if |answers| > 0 {
      var n := |answers| - 1;
      ScoredWeightsAddUp(decoded, answers[..n], numberText);
      StoredWeightSumSnoc(Scored(decoded, answers[..n], numberText), ScoreOne(decoded, answers[n], numberText));
      QuestionIndexesWeightStep(decoded, answers);
    }
  }

  lemma QuestionIndexesWeightStep(decoded: seq<Decoded>, answers: seq<Submitted>)
    requires |answers| > 0
    ensures var n := |answers| - 1;
      WeightSum(decoded, QuestionIndexes(answers))
        == WeightSum(decoded, QuestionIndexes(answers[..n])) + Weight(MetaAt(decoded, answers[n].questionIndex))
  {
    var n := |answers| - 1;
    assert QuestionIndexes(answers) == QuestionIndexes(answers[..n]) + [answers[n].questionIndex];
    WeightSumSnoc(decoded, QuestionIndexes(answers[..n]), answers[n].questionIndex);
  }

  /** The smoke test's padded record shows the numeric weight that `total` counts for it. */
  lemma {:induction false} SmokePaddedWeightsAddUp(decoded: seq<Decoded>, missing: seq<int>)
    ensures StoredWeightSum(PadAll(decoded, missing, SmokeTestPadding)) == WeightSum(decoded, missing)
    decreases |missing|
  {
    if |missing| > 0 {
      var m := missing[..|missing| - 1];
      SmokePaddedWeightsAddUp(decoded, m);
      StoredWeightSumSnoc(PadAll(decoded, m, SmokeTestPadding), PadOne(decoded, missing[|missing| - 1], SmokeTestPadding));
    }
  }

  /** With the smoke test's padding every record shows a numeric weight, and
      `total` is the sum of the weights the records show. */
  lemma SmokeTotalIsStoredWeights(decoded: seq<Decoded>, answers: seq<Submitted>, numberText: real -> string)
    ensures forall k :: 0 <= k < |Score(decoded, answers, numberText, SmokeTestPadding).records| ==>
      Score(decoded, answers, numberText, SmokeTestPadding).records[k].weight.JNum?
    ensures Score(decoded, answers, numberText, SmokeTestPadding).total
         == StoredWeightSum(Score(decoded, answers, numberText, SmokeTestPadding).records)
  {
    var records := Score(decoded, answers, numberText, SmokeTestPadding).records;
    var missing := Missing(|decoded|, Indices(answers));
    forall k | 0 <= k < |records|
      ensures records[k].weight.JNum?
    {
      if k < |answers| {
        SubmittedFirst(decoded, answers, numberText, SmokeTestPadding, k);
      } else {
        PadAllAt(decoded, missing, SmokeTestPadding, k - |answers|);
      }
    }
    StoredWeightSumConcat(Scored(decoded, answers, numberText), PadAll(decoded, missing, SmokeTestPadding));
    ScoredWeightsAddUp(decoded, answers, numberText);
    SmokePaddedWeightsAddUp(decoded, missing);
  }

  /** A one-question exam whose weight is the string `"2"`. */
  const StringWeightExam: seq<Decoded> := [Structured(JObj(map["weight" := JStr("2")]))]

  /** With nothing answered, every exam index is padded and counted. */
  lemma NothingAnswered(decoded: seq<Decoded>, numberText: real -> string, padding: Padding)
    ensures var missing := Missing(|decoded|, {});
      Score(decoded, [], numberText, padding)
        == Outcome(PadAll(decoded, missing, padding), 0.0, WeightSum(decoded, missing))
  {
    var none: seq<Submitted> := [];
    assert Indices(none) == {};
    assert QuestionIndexes(none) == [];
    assert Scored(decoded, none, numberText) == [];
  }

  lemma StringWeightPadded()
    ensures PadAll(StringWeightExam, [0], ControllerPadding) == [Record(0, Some(JNull), JNull, JStr("2"), 0.0)]
  {
    assert MetaAt(StringWeightExam, 0) == JObj(map["weight" := JStr("2")]);
    assert [0][..0] == [];
  }

  lemma StringWeightCounted()
    ensures WeightSum(StringWeightExam, [0]) == 1.0
  {
    assert MetaAt(StringWeightExam, 0) == JObj(map["weight" := JStr("2")]);
    assert [0][..0] == [];
  }

  /** The controller's padded record hands `meta.weight ?? 1` on as it is: a
      question whose weight is the string `"2"` is padded with weight `"2"`,
      which is not a number, while `total` counts it as 1. */
  lemma ControllerPaddingMismatch(numberText: real -> string)
    ensures var o := Score(StringWeightExam, [], numberText, ControllerPadding);
            && o.records == [Record(0, Some(JNull), JNull, JStr("2"), 0.0)]
            && o.total == 1.0
            && StoredWeightSum(o.records) != o.total
  {
    NothingAnswered(StringWeightExam, numberText, ControllerPadding);
    assert Missing(1, {}) == [0];
    StringWeightPadded();
    StringWeightCounted();
    var r := Record(0, Some(JNull), JNull, JStr("2"), 0.0);
    assert StoredWeightSum([r]) == 0.0 by {
      assert [r][..0] == [];
    }
  }
}
