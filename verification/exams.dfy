/** The exam storage boundary: `createExam` encrypts each question unless it
    already looks like a ciphertext, and `getExam`'s `map` callback decrypts
    each stored question and projects it onto the display shape, filling
    defaults. What `getExam` then sends is `GetExamResponse`. */
module Exams {
  import opened Js
  import opened Codec

  /** `createExam`'s mapping of one submitted question. Strings that already
      carry the ciphertext prefix are kept; `typeof q === "object"` (objects,
      arrays and `null`) are stringified first; any other string is encrypted
      as it is. */
  function StoreOne(rt: Runtime, q: Json): (c: string)
    ensures q.JStr? && LooksEncrypted(q.s) ==> c == q.s
    ensures q.JStr? && !LooksEncrypted(q.s) ==> c == rt.encrypt(q.s)
    ensures (q.JObj? || q.JArr? || q.JNull?) ==> c == rt.encrypt(rt.stringify(q))
  {
    match q
    case JStr(s) => if StartsWith(s, CipherPrefix) then s else rt.encrypt(s)
    case JObj(_) => rt.encrypt(rt.stringify(q))
    case JArr(_) => rt.encrypt(rt.stringify(q))
    case JNull => rt.encrypt(rt.stringify(q))
    case _ => rt.encryptOther(q)
  }

  /** The `questions` stored by `createExam`: one ciphertext per question, in order. */
  function CreateExam(rt: Runtime, questions: seq<Json>): (stored: seq<string>)
    ensures |stored| == |questions|
    ensures forall i :: 0 <= i < |questions| ==> stored[i] == StoreOne(rt, questions[i])
  {
    seq(|questions|, i requires 0 <= i < |questions| => StoreOne(rt, questions[i]))
  }

  /** The question object `getExam`'s `map` callback builds. Each field
      holds whatever JSON value the stored question supplied, so the fields
      are `Json`. */
  datatype Display = Display(
    prompt: Json, kind: Json, options: Json, correctAnswer: Json,
    weight: Json, autoGrade: Json, partials: Json)

  /** `Array.isArray(parsed.options) && parsed.options.length` */
  predicate HasOptions(parsed: Json) {
    match Prop(parsed, "options")
    case Some(JArr(items)) => |items| > 0
    case _ => false
  }

  /** The projection of a parsed question that is not `null`. */
  function Project(parsed: Json): Display
    requires !parsed.JNull?
  {
    Display(
      Coalesce(Prop(parsed, "prompt"), JStr("")),
      Coalesce(Prop(parsed, "type"), JStr(if HasOptions(parsed) then "mcq" else "subjective")),
      Coalesce(Prop(parsed, "options"), JArr([])),
      Coalesce(Prop(parsed, "correctAnswer"), Coalesce(Prop(parsed, "answer"), JStr(""))),
      Coalesce(Prop(parsed, "weight"), Coalesce(Prop(parsed, "points"), JNum(1.0))),
      Coalesce(Prop(parsed, "autoGrade"), JBool(Prop(parsed, "type") != Some(JStr("subjective")))),
      Coalesce(Prop(parsed, "partials"), JArr([])))
  }

  /** The projection of a question whose plaintext does not parse. */
  function Fallback(raw: string): Display {
    Display(JStr(raw), JStr("subjective"), JArr([]), JStr(""), JNum(1.0), JBool(false), JArr([]))
  }

  /** One question as the `map` callback builds it: `None` when `decrypt`
      throws, which it does outside the `try`. Reading a property of a parsed
      `null` throws inside the `try`, so `null` takes the fallback. */
  function ShowOne(rt: Runtime, stored: string): (d: Option<Display>)
    ensures d.None? <==> rt.decrypt(stored).None?
  {
    match rt.decrypt(stored)
    case None => None
    case Some(raw) =>
      match rt.parse(raw)
      case Some(parsed) => Some(if parsed.JNull? then Fallback(raw) else Project(parsed))
      case None => Some(Fallback(raw))
  }

  /** The array the `map` callback builds, one shown question per stored
      one, or `None` when some question does not decrypt and the handler
      throws. */
  function GetExam(rt: Runtime, stored: seq<string>): (shown: Option<seq<Display>>)
    ensures shown.Some? <==> Decrypts(rt, stored)
    ensures shown.Some? ==> |shown.value| == |stored|
    ensures shown.Some? ==> forall i :: 0 <= i < |stored| ==> Some(shown.value[i]) == ShowOne(rt, stored[i])
  {
    if Decrypts(rt, stored) then
      Some(seq(|stored|, i requires 0 <= i < |stored| && rt.decrypt(stored[i]).Some? => ShowOne(rt, stored[i]).value))
    else None
  }

  /** The questions `getExam` sends, as written. The callback's objects are
      assigned to `exam.questions`, a path declared `[String]`; Mongoose's
      cast to String refuses a plain object (it has only the default
      `toString`), so the document keeps its stored value and `res.json`
      sends the ciphertexts. `None` is a question that does not decrypt. */
  function GetExamResponse(rt: Runtime, stored: seq<string>): (sent: Option<seq<string>>)
    ensures sent.Some? <==> GetExam(rt, stored).Some?
    ensures sent.Some? ==> sent.value == stored
  {
    if GetExam(rt, stored).Some? then Some(stored) else None
  }

  // ---------------------------------------------------------------------
  // Properties

  /** Every stored question carries the ciphertext prefix, so storing the
      stored list again changes nothing. */
  lemma CreateExamIdempotent(rt: Runtime, questions: seq<Json>)
    requires SoundCipher(rt)
    requires forall i :: 0 <= i < |questions| ==> !questions[i].JNum? && !questions[i].JBool?
    ensures var stored := CreateExam(rt, questions);
      CreateExam(rt, seq(|stored|, i requires 0 <= i < |stored| => JStr(stored[i]))) == stored
  {
    var stored := CreateExam(rt, questions);
    var again := seq(|stored|, i requires 0 <= i < |stored| => JStr(stored[i]));
    forall i | 0 <= i < |stored|
      ensures LooksEncrypted(stored[i])
    {
      var q := questions[i];
      if !(q.JStr? && LooksEncrypted(q.s)) {
        assert stored[i] == rt.encrypt(if q.JStr? then q.s else rt.stringify(q));
      }
    }
    assert CreateExam(rt, again) == stored;
  }

  /** A question object stored by `createExam` reads back as its projection. */
  lemma StoredObjectReadsBack(rt: Runtime, q: Json)
    requires SoundCipher(rt) && SoundJson(rt)
    requires q.JObj? || q.JArr?
    ensures ShowOne(rt, StoreOne(rt, q)) == Some(Project(q))
  {
    assert rt.decrypt(rt.encrypt(rt.stringify(q))) == Some(rt.stringify(q));
    assert rt.parse(rt.stringify(q)) == Some(q);
  }

  /** A plaintext that is not JSON reads back as the fallback with the text as prompt. */
  lemma StoredTextReadsBack(rt: Runtime, s: string)
    requires SoundCipher(rt)
    requires !LooksEncrypted(s) && rt.parse(s) == None
    ensures ShowOne(rt, StoreOne(rt, JStr(s))) == Some(Fallback(s))
  {
    assert rt.decrypt(rt.encrypt(s)) == Some(s);
  }

  /** Unparseable plaintext and parsed `null` both give exactly the fallback. */
  lemma FallbackExact(rt: Runtime, stored: string, raw: string)
    requires rt.decrypt(stored) == Some(raw)
    requires rt.parse(raw).None? || rt.parse(raw) == Some(JNull)
    ensures ShowOne(rt, stored).Some?
    ensures var d := ShowOne(rt, stored).value;
      && d.prompt == JStr(raw) && d.kind == JStr("subjective") && d.options == JArr([])
      && d.correctAnswer == JStr("") && d.weight == JNum(1.0) && d.autoGrade == JBool(false)
      && d.partials == JArr([])
  {
  }

  /** Objects and arrays stored by `createExam` come out of the `map`
      callback as their projections, in order. */
  lemma CreatedExamReadsBack(rt: Runtime, questions: seq<Json>)
    requires SoundCipher(rt) && SoundJson(rt)
    requires forall i :: 0 <= i < |questions| ==> questions[i].JObj? || questions[i].JArr?
    ensures GetExam(rt, CreateExam(rt, questions))
         == Some(seq(|questions|, i requires 0 <= i < |questions| && !questions[i].JNull? => Project(questions[i])))
  {
    var stored := CreateExam(rt, questions);
    forall i | 0 <= i < |questions|
      ensures ShowOne(rt, stored[i]) == Some(Project(questions[i]))
    {
      StoredObjectReadsBack(rt, questions[i]);
    }
    assert Decrypts(rt, stored);
    var shown := GetExam(rt, stored).value;
    var expected := seq(|questions|, i requires 0 <= i < |questions| && !questions[i].JNull? => Project(questions[i]));
    assert |shown| == |expected|;
    assert forall i :: 0 <= i < |shown| ==> shown[i] == expected[i];
    assert shown == expected;
  }

  /** As written, the client receives a stored question object as its
      ciphertext, while the callback computed its projection. */
  lemma ResponseSendsCiphertext(rt: Runtime, q: Json)
    requires SoundCipher(rt) && SoundJson(rt)
    requires q.JObj? || q.JArr?
    ensures GetExam(rt, CreateExam(rt, [q])) == Some([Project(q)])
    ensures GetExamResponse(rt, CreateExam(rt, [q])) == Some([rt.encrypt(rt.stringify(q))])
    ensures LooksEncrypted(GetExamResponse(rt, CreateExam(rt, [q])).value[0])
  {
    CreatedExamReadsBack(rt, [q]);
    var expected := seq(1, i requires 0 <= i < 1 && ![q][i].JNull? => Project([q][i]));
    assert expected == [Project(q)];
    assert CreateExam(rt, [q]) == [rt.encrypt(rt.stringify(q))];
  }

  /** A string that carries the ciphertext prefix but does not decrypt is
      stored as it is, and afterwards `getExam` throws on that exam. */
  lemma PrefixedNonCiphertextBreaksGetExam(rt: Runtime, s: string)
    requires LooksEncrypted(s) && rt.decrypt(s).None?
    ensures CreateExam(rt, [JStr(s)]) == [s]
    ensures GetExam(rt, CreateExam(rt, [JStr(s)])).None?
    ensures GetExamResponse(rt, CreateExam(rt, [JStr(s)])).None?
  {
    assert CreateExam(rt, [JStr(s)])[0] == s;
  }

  /** Present (non-nullish) fields pass through unchanged. */
  lemma PresentFieldsKept(parsed: Json)
    requires parsed.JObj?
    ensures var d := Project(parsed);
      && (!Nullish(Prop(parsed, "prompt")) ==> d.prompt == parsed.fields["prompt"])
      && (!Nullish(Prop(parsed, "type")) ==> d.kind == parsed.fields["type"])
      && (!Nullish(Prop(parsed, "options")) ==> d.options == parsed.fields["options"])
      && (!Nullish(Prop(parsed, "correctAnswer")) ==> d.correctAnswer == parsed.fields["correctAnswer"])
      && (!Nullish(Prop(parsed, "weight")) ==> d.weight == parsed.fields["weight"])
      && (!Nullish(Prop(parsed, "autoGrade")) ==> d.autoGrade == parsed.fields["autoGrade"])
      && (!Nullish(Prop(parsed, "partials")) ==> d.partials == parsed.fields["partials"])
  {
  }

  /** `answer` and `points` are second choices for `correctAnswer` and `weight`. */
  lemma SecondChoices(parsed: Json)
    requires parsed.JObj?
    ensures Nullish(Prop(parsed, "correctAnswer")) && !Nullish(Prop(parsed, "answer"))
            ==> Project(parsed).correctAnswer == parsed.fields["answer"]
    ensures Nullish(Prop(parsed, "weight")) && !Nullish(Prop(parsed, "points"))
            ==> Project(parsed).weight == parsed.fields["points"]
  {
  }

  /** Without a `type`, the question is `mcq` exactly when it has a non-empty
      `options` array, and `subjective` otherwise. */
  lemma InferredType(parsed: Json)
    requires !parsed.JNull? && Nullish(Prop(parsed, "type"))
    ensures Project(parsed).kind == JStr("mcq") <==> HasOptions(parsed)
    ensures Project(parsed).kind == JStr("subjective") <==> !HasOptions(parsed)
  {
  }

  /** `autoGrade` defaults from the stored `type`, not the inferred one: a
      question with neither is auto-graded even when shown as subjective. */
  lemma AutoGradeIgnoresInferredType(parsed: Json)
    requires !parsed.JNull? && Nullish(Prop(parsed, "autoGrade"))
    ensures Project(parsed).autoGrade == JBool(true) <==> Prop(parsed, "type") != Some(JStr("subjective"))
    ensures Prop(parsed, "type").None? && !HasOptions(parsed)
            ==> Project(parsed).kind == JStr("subjective") && Project(parsed).autoGrade == JBool(true)
  {
  }

  /** An empty object shows every default. */
  lemma EmptyObjectDefaults()
    ensures Project(JObj(map[]))
         == Display(JStr(""), JStr("subjective"), JArr([]), JStr(""), JNum(1.0), JBool(true), JArr([]))
  {
  }
}
