/** The scoring engine behind `POST /results/verify`: decode each stored
    question, score each submitted answer (exact match, else additive partial
    credit capped at the weight), pad the unanswered questions, and total the
    awarded and possible points. */
module Scoring {
  import opened Js
  import opened Codec

  /** A stored question after decryption: either `JSON.parse` accepted the
      plaintext, or the plaintext is a legacy bare correct answer. */
  datatype Decoded = Structured(value: Json) | Legacy(plaintext: string)

  /** One element of `exam.questions.map(...)`: `None` when `decrypt` throws,
      both in the `try` and again in the `catch`, so nothing catches it. */
  function Decode(rt: Runtime, cipher: string): (d: Option<Decoded>)
    ensures d.None? <==> rt.decrypt(cipher).None?
    ensures d.Some? ==> (d.value.Legacy? <==> rt.parse(rt.decrypt(cipher).value).None?)
    ensures d.Some? && d.value.Legacy? ==> d.value.plaintext == rt.decrypt(cipher).value
    ensures d.Some? && d.value.Structured? ==> rt.parse(rt.decrypt(cipher).value) == Some(d.value.value)
  {
    match rt.decrypt(cipher)
    case None => None
    case Some(raw) =>
      match rt.parse(raw)
      case Some(v) => Some(Structured(v))
      case None => Some(Legacy(raw))
  }

  /** The decoded exam, or `None` when some question does not decrypt. */
  function DecodeAll(rt: Runtime, questions: seq<string>): (ds: Option<seq<Decoded>>)
    ensures ds.Some? <==> Decrypts(rt, questions)
    ensures ds.Some? ==> |ds.value| == |questions|
    ensures ds.Some? ==> forall i :: 0 <= i < |questions| ==> Some(ds.value[i]) == Decode(rt, questions[i])
  {
    if Decrypts(rt, questions) then
      Some(seq(|questions|, i requires 0 <= i < |questions| && rt.decrypt(questions[i]).Some? => Decode(rt, questions[i]).value))
    else None
  }

  const One: Json := JNum(1.0)

  /** `{ correctAnswer: null, weight: 1 }`, used for an index the exam does not have. */
  const DefaultMeta: Json := JObj(map["correctAnswer" := JNull, "weight" := One])

  /** `{ correctAnswer: plaintext, weight: 1 }`, the metadata of a legacy question. */
  function LegacyMeta(plaintext: string): Json {
    JObj(map["correctAnswer" := JStr(plaintext), "weight" := One])
  }

  /** `decrypted[i] ?? { correctAnswer: null, weight: 1 }` */
  function MetaAt(decoded: seq<Decoded>, i: int): Json {
    if 0 <= i < |decoded| then
      match decoded[i]
      case Legacy(p) => LegacyMeta(p)
      case Structured(v) => Coalesce(Some(v), DefaultMeta)
    else DefaultMeta
  }

  /** `meta.correctAnswer ?? null` */
  function Correct(meta: Json): Json {
    Coalesce(Prop(meta, "correctAnswer"), JNull)
  }

  /** `typeof meta.weight === "number" ? meta.weight : 1` */
  function Weight(meta: Json): real {
    match Prop(meta, "weight")
    case Some(JNum(w)) => w
    case _ => 1.0
  }

  /** `typeof p.score === "number" ? p.score : 0` */
  function RuleScore(rule: Json): real {
    match Prop(rule, "score")
    case Some(JNum(s)) => s
    case _ => 0.0
  }

  /** What one partial rule adds for an answer already lower-cased: rules
      without a string `match` are skipped. */
  function RuleCredit(rule: Json, lowered: string, weight: real): real {
    match Prop(rule, "match")
    case Some(JStr(m)) => if Includes(lowered, Lower(m)) then RuleScore(rule) * weight else 0.0
    case _ => 0.0
  }

  /** The uncapped sum the partials loop accumulates, in rule order. */
  function PartialSum(rules: seq<Json>, lowered: string, weight: real): real
    decreases |rules|
  {
    if |rules| == 0 then 0.0
    else PartialSum(rules[..|rules| - 1], lowered, weight) + RuleCredit(rules[|rules| - 1], lowered, weight)
  }

  /** `if (awarded > weight) awarded = weight` */
  function Capped(awarded: real, weight: real): real {
    if awarded > weight then weight else awarded
  }

  /** A non-null correct answer equal to the answer after trimming both (case-sensitive). */
  predicate ExactMatch(meta: Json, answer: string, numberText: real -> string) {
    Correct(meta) != JNull && Trim(answer) == Trim(Str(Correct(meta), numberText))
  }

  /** The points one answer earns; `answer` is `String(a.answer)`. */
  function Award(meta: Json, answer: string, numberText: real -> string): real {
    var w := Weight(meta);
    if ExactMatch(meta, answer, numberText) then w
    else
      match Prop(meta, "partials")
      case Some(JArr(rules)) => Capped(PartialSum(rules, Lower(answer), w), w)
      case _ => 0.0
  }

  /** One element of the request's `answers` array; `answer` is `None` when undefined. */
  datatype Submitted = Submitted(questionIndex: int, answer: Option<Json>)

  /** One element of `answerRecords`, the array handed to `Result.create`. */
  datatype Record = Record(questionIndex: int, answer: Option<Json>, correctAnswer: Json, weight: Json, awarded: real)

  function ScoreOne(decoded: seq<Decoded>, a: Submitted, numberText: real -> string): Record {
    var meta := MetaAt(decoded, a.questionIndex);
    Record(a.questionIndex, a.answer, Correct(meta), JNum(Weight(meta)),
           Award(meta, StrOpt(a.answer, numberText), numberText))
  }

  /** The two copies of the algorithm disagree on the `weight` stored in a
      padded record: the controller keeps `meta.weight ?? 1` whatever its type,
      the smoke test records the numeric weight it also adds to the total. */
  datatype Padding = ControllerPadding | SmokeTestPadding

  function PadOne(decoded: seq<Decoded>, i: int, padding: Padding): Record {
    var meta := MetaAt(decoded, i);
    var w := if padding == ControllerPadding then Coalesce(Prop(meta, "weight"), One) else JNum(Weight(meta));
    Record(i, Some(JNull), Correct(meta), w, 0.0)
  }

  /** The question indices the submission names. */
  function Indices(answers: seq<Submitted>): set<int> {
    set k | 0 <= k < |answers| :: answers[k].questionIndex
  }

  function QuestionIndexes(answers: seq<Submitted>): (r: seq<int>)
    ensures |r| == |answers|
    ensures forall k :: 0 <= k < |answers| ==> r[k] == answers[k].questionIndex
  {
    seq(|answers|, k requires 0 <= k < |answers| => answers[k].questionIndex)
  }

  /** The exam indices below `n` that no answer names, in ascending order. */
  function Missing(n: nat, answered: set<int>): (r: seq<int>)
    ensures |r| <= n
  {
    if n == 0 then []
    else Missing(n - 1, answered) + (if n - 1 in answered then [] else [n - 1])
  }

  /** Every missing index is an exam index no answer names. */
  lemma {:induction false} MissingSound(n: nat, answered: set<int>)
    ensures forall k :: 0 <= k < |Missing(n, answered)| ==>
      0 <= Missing(n, answered)[k] < n && Missing(n, answered)[k] !in answered
  {
    if n > 0 {
      MissingSound(n - 1, answered);
    }
  }

  /** Every exam index no answer names is missing. */
  lemma {:induction false} MissingComplete(n: nat, answered: set<int>, i: int)
    requires 0 <= i < n && i !in answered
    ensures i in Missing(n, answered)
  {
    if i < n - 1 {
      MissingComplete(n - 1, answered, i);
    }
  }

  /** The missing indices come out in strictly ascending order. */
  lemma {:induction false} MissingAscending(n: nat, answered: set<int>)
    ensures forall j, k :: 0 <= j < k < |Missing(n, answered)| ==> Missing(n, answered)[j] < Missing(n, answered)[k]
  {
    if n > 0 {
      MissingAscending(n - 1, answered);
      MissingSound(n - 1, answered);
    }
  }

  function SumAwarded(rs: seq<Record>): real {
    if |rs| == 0 then 0.0 else SumAwarded(rs[..|rs| - 1]) + rs[|rs| - 1].awarded
  }

  /** The sum of the numeric-defaulted weights of the given indices. */
  function WeightSum(decoded: seq<Decoded>, idx: seq<int>): real {
    if |idx| == 0 then 0.0 else WeightSum(decoded, idx[..|idx| - 1]) + Weight(MetaAt(decoded, idx[|idx| - 1]))
  }

  function Scored(decoded: seq<Decoded>, answers: seq<Submitted>, numberText: real -> string): (rs: seq<Record>)
    ensures |rs| == |answers|
  {
    if |answers| == 0 then []
    else Scored(decoded, answers[..|answers| - 1], numberText) + [ScoreOne(decoded, answers[|answers| - 1], numberText)]
  }

  function PadAll(decoded: seq<Decoded>, missing: seq<int>, padding: Padding): (rs: seq<Record>)
    ensures |rs| == |missing|
  {
    if |missing| == 0 then []
    else PadAll(decoded, missing[..|missing| - 1], padding) + [PadOne(decoded, missing[|missing| - 1], padding)]
  }

  function Padded(decoded: seq<Decoded>, answers: seq<Submitted>, padding: Padding): seq<Record> {
    var missing := Missing(|decoded|, Indices(answers));
    PadAll(decoded, missing, padding)
  }

  datatype Outcome = Outcome(records: seq<Record>, score: real, total: real)

  /** The reference definition of a scored submission. */
  function Score(decoded: seq<Decoded>, answers: seq<Submitted>, numberText: real -> string, padding: Padding): Outcome {
    var scored := Scored(decoded, answers, numberText);
    Outcome(scored + Padded(decoded, answers, padding),
            SumAwarded(scored),
            WeightSum(decoded, QuestionIndexes(answers)) + WeightSum(decoded, Missing(|decoded|, Indices(answers))))
  }

  /** The request's `answers` field: an array, or anything else. An element
      is `None` when it is `null` or `undefined`. */
  datatype AnswersField = NotAnArray | AnswerList(items: seq<Option<Submitted>>)

  /** Every element of the array is an object `a.questionIndex` can be read from. */
  predicate Present(items: seq<Option<Submitted>>) {
    forall k :: 0 <= k < |items| ==> items[k].Some?
  }

  function Elements(items: seq<Option<Submitted>>): (answers: seq<Submitted>)
    requires Present(items)
    ensures |answers| == |items|
    ensures forall k :: 0 <= k < |items| ==> items[k] == Some(answers[k])
  {
    seq(|items|, k requires 0 <= k < |items| && items[k].Some? => items[k].value)
  }

  /** The handler's outcome: 400, 404, a stored question that does not
      decrypt (the handler throws before anything is saved), a `null` or
      `undefined` element whose `questionIndex` the scoring `map` reads (a
      TypeError, again before anything is saved), or the figures handed to
      `Result.create`. */
  datatype Verdict = BadRequest | ExamNotFound | Undecryptable | ElementThrows | Saved(outcome: Outcome)

  /** `verifyAndSave`: `exams` maps stored exam ids to their ciphertexts. */
  function VerifyAndSave(rt: Runtime, exams: map<string, seq<string>>, examId: Option<Json>,
                         answers: AnswersField, padding: Padding): (v: Verdict)
    ensures v.BadRequest? <==> examId.None? || !Truthy(examId.value) || answers.NotAnArray?
    ensures v.ExamNotFound? <==> !v.BadRequest? && !(examId.value.JStr? && examId.value.s in exams)
    ensures v.Undecryptable? <==> !v.BadRequest? && !v.ExamNotFound? && !Decrypts(rt, exams[examId.value.s])
    ensures v.ElementThrows? <==> !v.BadRequest? && !v.ExamNotFound? && !v.Undecryptable? && !Present(answers.items)
    ensures v.Saved? ==>
      && examId.value.JStr? && examId.value.s in exams && answers.AnswerList? && Present(answers.items)
      && DecodeAll(rt, exams[examId.value.s]).Some?
      && v.outcome == Score(DecodeAll(rt, exams[examId.value.s]).value, Elements(answers.items), rt.numberText, padding)
  {
    if examId.None? || !Truthy(examId.value) || answers.NotAnArray? then BadRequest
    else if !(examId.value.JStr? && examId.value.s in exams) then ExamNotFound
    else
      match DecodeAll(rt, exams[examId.value.s])
      case None => Undecryptable
      case Some(decoded) =>
        if !Present(answers.items) then ElementThrows
        else Saved(Score(decoded, Elements(answers.items), rt.numberText, padding))
  }

  lemma PartialSumStep(rules: seq<Json>, p: nat, lowered: string, weight: real)
    requires p < |rules|
    ensures PartialSum(rules[..p + 1], lowered, weight)
         == PartialSum(rules[..p], lowered, weight) + RuleCredit(rules[p], lowered, weight)
  {
    assert rules[..p + 1][..p] == rules[..p];
  }

  lemma WeightSumStep(decoded: seq<Decoded>, idx: seq<int>, k: nat)
    requires k < |idx|
    ensures WeightSum(decoded, idx[..k + 1]) == WeightSum(decoded, idx[..k]) + Weight(MetaAt(decoded, idx[k]))
  {
    assert idx[..k + 1][..k] == idx[..k];
  }

  /** The controller's exact-match test and partials loop for one answer. */
  method AnswerPoints(meta: Json, text: string, numberText: real -> string) returns (awarded: real)
    ensures awarded == Award(meta, text, numberText)
  {
    var correct := Correct(meta);
    var weight := Weight(meta);
    awarded := 0.0;
    if correct != JNull && Trim(text) == Trim(Str(correct, numberText)) {
      awarded := weight;
    } else if Prop(meta, "partials").Some? && Prop(meta, "partials").value.JArr? {
      var rules := Prop(meta, "partials").value.items;
      var lowered := Lower(text);
      var p := 0;
      while p < |rules|
        invariant 0 <= p <= |rules|
        invariant awarded == PartialSum(rules[..p], lowered, weight)
      {
        PartialSumStep(rules, p, lowered, weight);
        match Prop(rules[p], "match") {
          case Some(JStr(m)) =>
            if Includes(lowered, Lower(m)) {
              awarded := awarded + RuleScore(rules[p]) * weight;
            }
          case _ =>
        }
        p := p + 1;
      }
      assert rules[..p] == rules;
      if awarded > weight {
        awarded := weight;
      }
    }
  }

  /** `answerRecords.find(r => r.questionIndex === i)` found something. */
  method HasRecordFor(records: seq<Record>, i: int) returns (found: bool)
    ensures found <==> HasIndex(records, i)
  {
    found := false;
    var j := 0;
    while j < |records| && !found
      invariant 0 <= j <= |records|
      invariant found <==> exists r :: 0 <= r < j && records[r].questionIndex == i
    {
      if records[j].questionIndex == i {
        found := true;
      }
      j := j + 1;
    }
  }

  /** Some record carries question index `i`. */
  predicate HasIndex(rs: seq<Record>, i: int) {
    exists r :: 0 <= r < |rs| && rs[r].questionIndex == i
  }

  lemma {:induction false} PadAllAt(decoded: seq<Decoded>, missing: seq<int>, padding: Padding, j: nat)
    requires j < |missing|
    ensures PadAll(decoded, missing, padding)[j] == PadOne(decoded, missing[j], padding)
    decreases |missing|
  {
    var n := |missing| - 1;
    if j < n {
      PadAllAt(decoded, missing[..n], padding, j);
    }
  }

  /** The scored records carry exactly the submitted question indices. */
  lemma ScoredIndexes(decoded: seq<Decoded>, answers: seq<Submitted>, numberText: real -> string)
    ensures forall i :: HasIndex(Scored(decoded, answers, numberText), i) <==> i in Indices(answers)
  {
    var scored := Scored(decoded, answers, numberText);
    forall i
      ensures HasIndex(scored, i) <==> i in Indices(answers)
    {
      if HasIndex(scored, i) {
        var r :| 0 <= r < |scored| && scored[r].questionIndex == i;
        ScoredAt(decoded, answers, numberText, r);
        assert answers[r].questionIndex == i;
      }
      if i in Indices(answers) {
        var r :| 0 <= r < |answers| && answers[r].questionIndex == i;
        ScoredAt(decoded, answers, numberText, r);
        assert scored[r].questionIndex == i;
      }
    }
  }

  /** While padding index `i`, the records hold an entry for `i` exactly when
      the submission named `i`: the entries padded so far are all below `i`. */
  lemma FoundIffAnswered(decoded: seq<Decoded>, scored: seq<Record>, answered: set<int>, padding: Padding, i: nat)
    requires HasIndex(scored, i) <==> i in answered
    ensures HasIndex(scored + PadAll(decoded, Missing(i, answered), padding), i) <==> i in answered
  {
    var pads := PadAll(decoded, Missing(i, answered), padding);
    var records := scored + pads;
    MissingSound(i, answered);
    forall r | |scored| <= r < |records|
      ensures records[r].questionIndex < i
    {
      PadAllAt(decoded, Missing(i, answered), padding, r - |scored|);
    }
    if HasIndex(records, i) {
      var r :| 0 <= r < |records| && records[r].questionIndex == i;
      assert scored[r].questionIndex == i;
    }
    if HasIndex(scored, i) {
      var r :| 0 <= r < |scored| && scored[r].questionIndex == i;
      assert records[r].questionIndex == i;
    }
  }

  lemma {:induction false} ScoredAt(decoded: seq<Decoded>, answers: seq<Submitted>, numberText: real -> string, k: nat)
    requires k < |answers|
    ensures Scored(decoded, answers, numberText)[k] == ScoreOne(decoded, answers[k], numberText)
    decreases |answers|
  {
    var n := |answers| - 1;
    var prefix := Scored(decoded, answers[..n], numberText);
    assert Scored(decoded, answers, numberText) == prefix + [ScoreOne(decoded, answers[n], numberText)];
    if k < n {
      ScoredAt(decoded, answers[..n], numberText, k);
      assert answers[..n][k] == answers[k];
    }
  }

  lemma ScoredStep(decoded: seq<Decoded>, answers: seq<Submitted>, numberText: real -> string, k: nat)
    requires k < |answers|
    ensures Scored(decoded, answers[..k + 1], numberText)
         == Scored(decoded, answers[..k], numberText) + [ScoreOne(decoded, answers[k], numberText)]
  {
    assert answers[..k + 1][..k] == answers[..k];
  }

  lemma SumAwardedStep(rs: seq<Record>, r: Record)
    ensures SumAwarded(rs + [r]) == SumAwarded(rs) + r.awarded
  {
    assert (rs + [r])[..|rs|] == rs;
  }

  lemma AppendAssoc<T>(a: seq<T>, b: seq<T>, c: seq<T>)
    ensures (a + b) + c == a + (b + c)
  {
  }

  /** One more exam index either is answered or joins the missing ones. */
  lemma MissingStep(i: nat, answered: set<int>)
    ensures Missing(i + 1, answered) == if i in answered then Missing(i, answered) else Missing(i, answered) + [i]
  {
    if i in answered {
      assert Missing(i, answered) + [] == Missing(i, answered);
    }
  }

  lemma PadAllSnoc(decoded: seq<Decoded>, m: seq<int>, i: int, padding: Padding)
    ensures PadAll(decoded, m + [i], padding) == PadAll(decoded, m, padding) + [PadOne(decoded, i, padding)]
  {
    assert (m + [i])[..|m|] == m;
  }

  lemma WeightSumSnoc(decoded: seq<Decoded>, m: seq<int>, i: int)
    ensures WeightSum(decoded, m + [i]) == WeightSum(decoded, m) + Weight(MetaAt(decoded, i))
  {
    assert (m + [i])[..|m|] == m;
  }

  /** The controller's `answers.map` loop: one record per submitted answer. */
  method ScoreAnswers(decoded: seq<Decoded>, answers: seq<Submitted>, numberText: real -> string)
    returns (records: seq<Record>, totalAwarded: real, totalPossible: real)
    ensures records == Scored(decoded, answers, numberText)
    ensures totalAwarded == SumAwarded(records)
    ensures totalPossible == WeightSum(decoded, QuestionIndexes(answers))
  {
    totalPossible := 0.0;
    totalAwarded := 0.0;
    records := [];
    var k := 0;
    while k < |answers|
      invariant 0 <= k <= |answers|
      invariant records == Scored(decoded, answers[..k], numberText)
      invariant totalAwarded == SumAwarded(records)
      invariant totalPossible == WeightSum(decoded, QuestionIndexes(answers)[..k])
    {
      var a := answers[k];
      var meta := MetaAt(decoded, a.questionIndex);
      var weight := Weight(meta);
      WeightSumStep(decoded, QuestionIndexes(answers), k);
      totalPossible := totalPossible + weight;
      var awarded := AnswerPoints(meta, StrOpt(a.answer, numberText), numberText);
      var record := Record(a.questionIndex, a.answer, Correct(meta), JNum(weight), awarded);
      SumAwardedStep(records, record);
      ScoredStep(decoded, answers, numberText, k);
      totalAwarded := totalAwarded + awarded;
      records := records + [record];
      k := k + 1;
    }
    assert answers[..k] == answers;
    assert QuestionIndexes(answers)[..k] == QuestionIndexes(answers);
  }

  /** The records and the total the padding loop holds once it has passed
      the indices below `i`: every missing one has had its padded record
      appended and its weight added. */
  ghost function PadState(decoded: seq<Decoded>, scored: seq<Record>, answered: set<int>, padding: Padding,
                          possible: real, i: nat): (seq<Record>, real)
  {
    (scored + PadAll(decoded, Missing(i, answered), padding), possible + WeightSum(decoded, Missing(i, answered)))
  }

  /** One turn of the padding loop keeps its invariant: a found index
      leaves both figures alone, a missing one appends its padded record and
      adds its weight. */
  lemma PadStep(decoded: seq<Decoded>, scored: seq<Record>, answered: set<int>, padding: Padding,
                possible: real, i: nat, records: seq<Record>, total: real, found: bool)
    requires HasIndex(scored, i) <==> i in answered
    requires PadState(decoded, scored, answered, padding, possible, i) == (records, total)
    requires found <==> HasIndex(records, i)
    ensures PadState(decoded, scored, answered, padding, possible, i + 1)
         == (if found then records else records + [PadOne(decoded, i, padding)],
             if found then total else total + Weight(MetaAt(decoded, i)))
  {
    var missing := Missing(i, answered);
    FoundIffAnswered(decoded, scored, answered, padding, i);
    MissingStep(i, answered);
    if i !in answered {
      PadAllSnoc(decoded, missing, i, padding);
      WeightSumSnoc(decoded, missing, i);
      AppendAssoc(scored, PadAll(decoded, missing, padding), [PadOne(decoded, i, padding)]);
    }
  }

  /** The controller's padding loop over every exam index; `answered` is the
      set of indices the scored records carry. */
  method PadMissing(decoded: seq<Decoded>, answered: set<int>, padding: Padding,
                    scored: seq<Record>, possible: real)
    returns (records: seq<Record>, totalPossible: real)
    requires forall i {:trigger HasIndex(scored, i)} :: HasIndex(scored, i) <==> i in answered
    ensures records == scored + PadAll(decoded, Missing(|decoded|, answered), padding)
    ensures totalPossible == possible + WeightSum(decoded, Missing(|decoded|, answered))
  {
    records := scored;
    totalPossible := possible;
    var i := 0;
    assert scored + PadAll(decoded, Missing(0, answered), padding) == scored;
    while i < |decoded|
      invariant 0 <= i <= |decoded|
      invariant PadState(decoded, scored, answered, padding, possible, i) == (records, totalPossible)
    {
      var found := HasRecordFor(records, i);
      PadStep(decoded, scored, answered, padding, possible, i, records, totalPossible, found);
      records := if found then records else records + [PadOne(decoded, i, padding)];
      totalPossible := if found then totalPossible else totalPossible + Weight(MetaAt(decoded, i));
      i := i + 1;
    }
  }

  /** `verifyAndSave`'s loops, statement by statement, compute the reference `Score`. */
  method ScoreSubmission(decoded: seq<Decoded>, answers: seq<Submitted>, numberText: real -> string, padding: Padding)
    returns (o: Outcome)
    ensures o == Score(decoded, answers, numberText, padding)
  {
    var scored, awarded, possible := ScoreAnswers(decoded, answers, numberText);
    ScoredIndexes(decoded, answers, numberText);
    var records, total := PadMissing(decoded, Indices(answers), padding, scored, possible);
    o := Outcome(records, awarded, total);
  }
}
