/**
 * The submission relay: the answer set and the chosen tier become an
 * ordered list of form fields (entry id, text), posted to the configured
 * form. Without a configured URL nothing is built and the call succeeds;
 * a failing post is reported as `false` and never propagates.
 */
module Submission {
  import opened QuizTypes
  import Catalog
  import Keys

  /** The form's address and which form entry receives each question and the result. */
  datatype FormConfig = FormConfig(actionUrl: string, fieldMapping: map<int, string>, resultField: string)

  /** One appended form field. */
  datatype Field = Field(entry: string, value: string)

  /** The configuration the quiz ships with. */
  const GOOGLE_FORM_CONFIG: FormConfig := FormConfig(
    "https://docs.google.com/forms/d/e/1FAIpQLSes9Eo3zEyrV8BT7ZXuCJufmvUPLjr452F-iRRsX71BU-rchQ/formResponse",
    map[
      1 := "entry.1105868484",
      2 := "entry.308442380",
      3 := "entry.255472753",
      4 := "entry.841287392",
      5 := "entry.1336597780"],
    "entry.1033353310")

  /** The readable answer: "<id>. <text>" when the option exists under the question, else the raw option id. */
  function AnswerText(questions: seq<Question>, qId: int, optionId: string): (r: string)
    ensures r == optionId || exists i, k ::
      && 0 <= i < |questions| && 0 <= k < |questions[i].options|
      && questions[i].id == qId && questions[i].options[k].id == optionId
      && r == optionId + ". " + questions[i].options[k].text
    ensures (forall i :: 0 <= i < |questions| ==> questions[i].id != qId) ==> r == optionId
  {
    match FindQuestion(questions, qId)
    case Nothing => optionId
    case Just(q) =>
      match FindOption(q.options, optionId)
      case Just(o) => o.id + ". " + o.text
      case Nothing => optionId
  }

  /** Question ids are pairwise distinct, and so are the option ids within each question. */
  ghost predicate UniqueIds(questions: seq<Question>)
  {
    && (forall i, j :: 0 <= i < j < |questions| ==> questions[i].id != questions[j].id)
    && (forall i :: 0 <= i < |questions| ==>
          forall j, k :: 0 <= j < k < |questions[i].options| ==> questions[i].options[j].id != questions[i].options[k].id)
  }

  /** The catalog's ids are unique. */
  lemma CatalogUniqueIds()
    ensures UniqueIds(Catalog.QUESTIONS)
  {
    Catalog.QuestionIds();
    Catalog.QuestionsWellFormed();
  }

  /**
   * An option that exists under the answered question is written as
   * "<id>. <text>"; any other option id is written as it is.
   */
  lemma AnswerTextSpec(questions: seq<Question>, qId: int, optionId: string)
    requires UniqueIds(questions)
    ensures forall i, k ::
      (0 <= i < |questions| && 0 <= k < |questions[i].options| &&
       questions[i].id == qId && questions[i].options[k].id == optionId) ==>
      AnswerText(questions, qId, optionId) == optionId + ". " + questions[i].options[k].text
    ensures (forall i, k ::
      (0 <= i < |questions| && 0 <= k < |questions[i].options| &&
       questions[i].id == qId) ==> questions[i].options[k].id != optionId) ==>
      AnswerText(questions, qId, optionId) == optionId
  {
    forall i, k | 0 <= i < |questions| && 0 <= k < |questions[i].options| &&
      questions[i].id == qId && questions[i].options[k].id == optionId
      ensures AnswerText(questions, qId, optionId) == optionId + ". " + questions[i].options[k].text
    {
      FindQuestionUnique(questions, i);
      FindOptionUnique(questions[i].options, k);
    }
    match FindQuestion(questions, qId)
    case Nothing =>
    case Just(q) =>
      var i :| 0 <= i < |questions| && questions[i] == q;
      assert questions[i].id == qId;
  }

  /** The readable result: "<title> (<magicName>)". */
  function ResultText(result: QuizResult): (r: string)
    ensures |r| == |result.title| + |result.magicName| + 3
    ensures r[..|result.title|] == result.title
    ensures r[|result.title|..|result.title| + 2] == " ("
    ensures r[|result.title| + 2..|r| - 1] == result.magicName
    ensures r[|r| - 1] == ')'
  {
    result.title + " (" + result.magicName + ")"
  }

  /** Question `qId` has a (non-empty) form entry. */
  predicate Mapped(config: FormConfig, qId: int)
  {
    qId in config.fieldMapping && config.fieldMapping[qId] != ""
  }

  /** The field an answered, mapped question contributes. */
  function FieldFor(config: FormConfig, questions: seq<Question>, answers: Answers, qId: int): Field
    requires qId in answers && Mapped(config, qId)
  {
    Field(config.fieldMapping[qId], AnswerText(questions, qId, answers[qId]))
  }

  /** The fields of the answers under `keys`, in that order; unmapped questions are skipped. */
  function AnswerFields(config: FormConfig, questions: seq<Question>, answers: Answers, keys: seq<int>): seq<Field>
    requires forall k :: k in keys ==> k in answers
  {
    if keys == [] then []
    else
      (if Mapped(config, keys[0]) then [FieldFor(config, questions, answers, keys[0])] else []) +
      AnswerFields(config, questions, answers, keys[1..])
  }

  /** The result field, present when the configuration names a result entry. */
  function ResultFields(config: FormConfig, result: QuizResult): seq<Field>
  {
    if config.resultField != "" then [Field(config.resultField, ResultText(result))] else []
  }

  /** The whole payload: one field per mapped answer in ascending question order, then the result. */
  ghost function Payload(config: FormConfig, questions: seq<Question>, answers: Answers, result: QuizResult): seq<Field>
  {
    AnswerFields(config, questions, answers, Keys.SortedKeys(answers.Keys)) + ResultFields(config, result)
  }

  /** The `FormData` construction of `submitQuizData`: answers first, in key order, then the result. */
  method BuildPayload(config: FormConfig, questions: seq<Question>, answers: Answers, result: QuizResult) returns (fields: seq<Field>)
    ensures fields == Payload(config, questions, answers, result)
  {
    fields := [];
    var remaining := answers.Keys;
    while remaining != {}
      invariant remaining <= answers.Keys
      invariant fields + AnswerFields(config, questions, answers, Keys.SortedKeys(remaining)) ==
                AnswerFields(config, questions, answers, Keys.SortedKeys(answers.Keys))
      decreases remaining
    {
      Keys.HasMinimum(remaining);
      var qId :| qId in remaining && forall k :: k in remaining ==> qId <= k;
      var optionId := answers[qId];
      var answerText := AnswerText(questions, qId, optionId);
      AnswerFieldsStep(config, questions, answers, remaining, qId, fields);
      if Mapped(config, qId) {
        fields := fields + [Field(config.fieldMapping[qId], answerText)];
      }
      remaining := remaining - {qId};
    }
    assert Keys.SortedKeys({}) == [];
    if config.resultField != "" {
      fields := fields + [Field(config.resultField, ResultText(result))];
    }
  }

  /**
   * `submitQuizData`: with no action URL it builds nothing and reports success;
   * otherwise it posts the payload and reports whether the post went out
   * without throwing. The answer set and the result are only read.
   */
  method SubmitQuizData(config: FormConfig, questions: seq<Question>, answers: Answers, result: QuizResult, dispatchThrows: bool)
    returns (ok: bool, posted: Maybe<seq<Field>>)
    ensures config.actionUrl == "" ==> ok && posted == Nothing
    ensures config.actionUrl != "" ==> posted == Just(Payload(config, questions, answers, result))
    ensures config.actionUrl != "" ==> (ok <==> !dispatchThrows)
  {
    if config.actionUrl == "" {
      return true, Nothing;
    }
    var fields := BuildPayload(config, questions, answers, result);
    posted := Just(fields);
    if dispatchThrows {
      ok := false;
    } else {
      ok := true;
    }
  }

  /**
   * The fields of the keys in `remaining` start with those of its least key
   * `qId`: after `prefix`, they are that key's field (when mapped) followed
   * by the fields of the other keys.
   */
  lemma AnswerFieldsStep(config: FormConfig, questions: seq<Question>, answers: Answers, remaining: set<int>, qId: int, prefix: seq<Field>)
    requires remaining <= answers.Keys
    requires qId in remaining && forall k :: k in remaining ==> qId <= k
    ensures Mapped(config, qId) ==>
      prefix + AnswerFields(config, questions, answers, Keys.SortedKeys(remaining)) ==
      (prefix + [FieldFor(config, questions, answers, qId)]) + AnswerFields(config, questions, answers, Keys.SortedKeys(remaining - {qId}))
    ensures !Mapped(config, qId) ==>
      prefix + AnswerFields(config, questions, answers, Keys.SortedKeys(remaining)) ==
      prefix + AnswerFields(config, questions, answers, Keys.SortedKeys(remaining - {qId}))
  {
    var rest := Keys.SortedKeys(remaining - {qId});
    var restFields := AnswerFields(config, questions, answers, rest);
    Keys.SortedKeysFirst(remaining, qId);
    assert ([qId] + rest)[1..] == rest;
    if Mapped(config, qId) {
      assert prefix + ([FieldFor(config, questions, answers, qId)] + restFields) ==
        (prefix + [FieldFor(config, questions, answers, qId)]) + restFields;
    } else {
      assert [] + restFields == restFields;
    }
  }

  /** The answers that produce a field. */
  ghost function MappedAnswers(config: FormConfig, answers: Answers): set<int>
  {
    set qId | qId in answers && Mapped(config, qId)
  }

  /** Every answer field comes from a mapped key, and every mapped key yields its field. */
  lemma {:induction false} AnswerFieldsMembers(config: FormConfig, questions: seq<Question>, answers: Answers, keys: seq<int>)
    requires forall k :: k in keys ==> k in answers
    ensures forall f :: f in AnswerFields(config, questions, answers, keys) ==>
      exists k :: k in keys && Mapped(config, k) && f == FieldFor(config, questions, answers, k)
    ensures forall k :: k in keys && Mapped(config, k) ==>
      FieldFor(config, questions, answers, k) in AnswerFields(config, questions, answers, keys)
  {
    if keys != [] {
      AnswerFieldsMembers(config, questions, answers, keys[1..]);
      assert forall k :: k in keys[1..] ==> k in keys;
      assert forall k :: k in keys ==> k == keys[0] || k in keys[1..];
    }
  }

  /** Over distinct keys, there are as many answer fields as mapped keys. */
  lemma {:induction false} AnswerFieldsCount(config: FormConfig, questions: seq<Question>, answers: Answers, keys: seq<int>)
    requires forall k :: k in keys ==> k in answers
    requires forall i, j :: 0 <= i < j < |keys| ==> keys[i] != keys[j]
    ensures |AnswerFields(config, questions, answers, keys)| == |set k | k in keys && Mapped(config, k)|
  {
    if keys != [] {
      var tail := keys[1..];
      AnswerFieldsCount(config, questions, answers, tail);
      var s := set k | k in keys && Mapped(config, k);
      var t := set k | k in tail && Mapped(config, k);
      assert keys[0] !in tail by {
        forall i | 0 <= i < |tail| ensures tail[i] != keys[0] {
          assert tail[i] == keys[i + 1];
        }
      }
      assert forall k :: k in keys <==> k == keys[0] || k in tail;
      if Mapped(config, keys[0]) {
        assert s == {keys[0]} + t;
      } else {
        assert s == t;
      }
    }
  }

  /** How many fields carry form entry `entry`. */
  function CountEntry(fields: seq<Field>, entry: string): nat
  {
    if fields == [] then 0 else (if fields[0].entry == entry then 1 else 0) + CountEntry(fields[1..], entry)
  }

  lemma {:induction false} CountEntryAppend(a: seq<Field>, b: seq<Field>, entry: string)
    ensures CountEntry(a + b, entry) == CountEntry(a, entry) + CountEntry(b, entry)
  {
    if a != [] {
      CountEntryAppend(a[1..], b, entry);
      assert (a + b)[0] == a[0];
      assert (a + b)[1..] == a[1..] + b;
      assert CountEntry(a + b, entry) == (if a[0].entry == entry then 1 else 0) + CountEntry(a[1..] + b, entry);
    } else {
      assert a + b == b;
    }
  }

  /** Distinct questions have distinct entries, and the result entry is none of theirs. */
  ghost predicate WellFormedConfig(config: FormConfig)
  {
    && (forall a, b :: Mapped(config, a) && Mapped(config, b) && a != b ==>
          config.fieldMapping[a] != config.fieldMapping[b])
    && (forall a :: Mapped(config, a) ==> config.fieldMapping[a] != config.resultField)
  }

  /** Over distinct keys and a well-formed configuration, a mapped key's entry occurs exactly once. */
  lemma {:induction false} AnswerEntryOnce(config: FormConfig, questions: seq<Question>, answers: Answers, keys: seq<int>, qId: int)
    requires WellFormedConfig(config)
    requires forall k :: k in keys ==> k in answers
    requires forall i, j :: 0 <= i < j < |keys| ==> keys[i] != keys[j]
    requires Mapped(config, qId)
    ensures CountEntry(AnswerFields(config, questions, answers, keys), config.fieldMapping[qId]) == if qId in keys then 1 else 0
  {
    if keys != [] {
      var tail := keys[1..];
      var e := config.fieldMapping[qId];
      var head := if Mapped(config, keys[0]) then [FieldFor(config, questions, answers, keys[0])] else [];
      AnswerEntryOnce(config, questions, answers, tail, qId);
      CountEntryAppend(head, AnswerFields(config, questions, answers, tail), e);
      assert keys[0] !in tail by {
        forall i | 0 <= i < |tail| ensures tail[i] != keys[0] {
          assert tail[i] == keys[i + 1];
        }
      }
      assert qId in keys <==> qId == keys[0] || qId in tail;
      assert CountEntry(head, e) == if qId == keys[0] then 1 else 0;
    }
  }

  /** No answer field carries the result entry. */
  lemma {:induction false} ResultEntryAbsent(config: FormConfig, questions: seq<Question>, answers: Answers, keys: seq<int>)
    requires WellFormedConfig(config)
    requires forall k :: k in keys ==> k in answers
    ensures CountEntry(AnswerFields(config, questions, answers, keys), config.resultField) == 0
  {
    if keys != [] {
      var head := if Mapped(config, keys[0]) then [FieldFor(config, questions, answers, keys[0])] else [];
      ResultEntryAbsent(config, questions, answers, keys[1..]);
      CountEntryAppend(head, AnswerFields(config, questions, answers, keys[1..]), config.resultField);
    }
  }

  /** The payload holds one field per answered, mapped question, plus the result field when configured. */
  lemma PayloadCount(config: FormConfig, questions: seq<Question>, answers: Answers, result: QuizResult)
    ensures |Payload(config, questions, answers, result)| ==
      |MappedAnswers(config, answers)| + (if config.resultField != "" then 1 else 0)
  {
    var keys := Keys.SortedKeys(answers.Keys);
    AnswerFieldsCount(config, questions, answers, keys);
    assert (set k | k in keys && Mapped(config, k)) == MappedAnswers(config, answers);
  }

  /**
   * Every answered, mapped question has its field in the payload, under an
   * entry that occurs exactly once.
   */
  lemma PayloadAnswers(config: FormConfig, questions: seq<Question>, answers: Answers, result: QuizResult)
    requires WellFormedConfig(config)
    ensures forall qId :: qId in MappedAnswers(config, answers) ==>
      && FieldFor(config, questions, answers, qId) in Payload(config, questions, answers, result)
      && CountEntry(Payload(config, questions, answers, result), config.fieldMapping[qId]) == 1
  {
    var keys := Keys.SortedKeys(answers.Keys);
    var fields := AnswerFields(config, questions, answers, keys);
    var rf := ResultFields(config, result);
    AnswerFieldsMembers(config, questions, answers, keys);
    forall qId | qId in MappedAnswers(config, answers)
      ensures FieldFor(config, questions, answers, qId) in fields + rf
      ensures CountEntry(fields + rf, config.fieldMapping[qId]) == 1
    {
      AnswerEntryOnce(config, questions, answers, keys, qId);
      CountEntryAppend(fields, rf, config.fieldMapping[qId]);
    }
  }

  /** `f` is the field some answered, mapped question produces. */
  ghost predicate AnswerField(config: FormConfig, questions: seq<Question>, answers: Answers, f: Field)
  {
    exists qId :: qId in MappedAnswers(config, answers) && f == FieldFor(config, questions, answers, qId)
  }

  /** Every field before the result field is the field of an answered, mapped question. */
  lemma PayloadOnlyAnswers(config: FormConfig, questions: seq<Question>, answers: Answers, result: QuizResult)
    ensures forall i :: 0 <= i < |Payload(config, questions, answers, result)| - |ResultFields(config, result)| ==>
      AnswerField(config, questions, answers, Payload(config, questions, answers, result)[i])
  {
    var keys := Keys.SortedKeys(answers.Keys);
    var fields := AnswerFields(config, questions, answers, keys);
    var rf := ResultFields(config, result);
    var p := Payload(config, questions, answers, result);
    AnswerFieldsMembers(config, questions, answers, keys);
    assert p == fields + rf;
    forall i | 0 <= i < |p| - |rf| ensures AnswerField(config, questions, answers, p[i]) {
      assert p[i] == fields[i] && fields[i] in fields;
      var k :| k in keys && Mapped(config, k) && fields[i] == FieldFor(config, questions, answers, k);
      assert k in MappedAnswers(config, answers);
    }
  }

  /** A configured result field comes last, and its entry occurs nowhere else. */
  lemma PayloadResultLast(config: FormConfig, questions: seq<Question>, answers: Answers, result: QuizResult)
    requires WellFormedConfig(config)
    requires config.resultField != ""
    ensures var p := Payload(config, questions, answers, result);
      && p[|p| - 1] == Field(config.resultField, ResultText(result))
      && CountEntry(p, config.resultField) == 1
  {
    var keys := Keys.SortedKeys(answers.Keys);
    var fields := AnswerFields(config, questions, answers, keys);
    var rf := ResultFields(config, result);
    ResultEntryAbsent(config, questions, answers, keys);
    CountEntryAppend(fields, rf, config.resultField);
  }

  /** The shipped configuration maps questions 1-5 and the result to six distinct entries. */
  lemma ShippedConfig()
    ensures WellFormedConfig(GOOGLE_FORM_CONFIG)
    ensures GOOGLE_FORM_CONFIG.actionUrl != ""
    ensures forall qId :: Mapped(GOOGLE_FORM_CONFIG, qId) <==> 1 <= qId <= 5
    ensures GOOGLE_FORM_CONFIG.resultField != ""
  {
  }

  /** When every key is mapped, the answer fields are exactly one field per key, in key order. */
  lemma {:induction false} AllMappedFields(config: FormConfig, questions: seq<Question>, answers: Answers, keys: seq<int>)
    requires forall k :: k in keys ==> k in answers && Mapped(config, k)
    ensures |AnswerFields(config, questions, answers, keys)| == |keys|
    ensures forall i :: 0 <= i < |keys| ==> AnswerFields(config, questions, answers, keys)[i] == FieldFor(config, questions, answers, keys[i])
  {
    if keys != [] {
      AllMappedFields(config, questions, answers, keys[1..]);
      assert keys[0] in keys;
    }
  }

  /** The ascending enumeration of questions 1-5. */
  lemma QuestionKeys(answers: Answers)
    requires answers.Keys == {1, 2, 3, 4, 5}
    ensures |Keys.SortedKeys(answers.Keys)| == 5
    ensures forall i :: 0 <= i < 5 ==> Keys.SortedKeys(answers.Keys)[i] == i + 1
  {
    var keys := seq(5, i => i + 1);
    forall k {:trigger k in keys} ensures k in keys <==> k in answers.Keys {
      if k in answers.Keys {
        assert keys[k - 1] == k;
      }
    }
    Keys.SortedKeysUnique(answers.Keys, keys);
  }

  /** When every answered question is mapped, the payload holds one field per answer, in ascending question order. */
  lemma AllMappedPayload(config: FormConfig, questions: seq<Question>, answers: Answers, result: QuizResult)
    requires forall k :: k in answers ==> Mapped(config, k)
    ensures var keys := Keys.SortedKeys(answers.Keys);
      var p := Payload(config, questions, answers, result);
      && |p| == |keys| + |ResultFields(config, result)|
      && forall i :: 0 <= i < |keys| ==> keys[i] in answers && p[i] == FieldFor(config, questions, answers, keys[i])
  {
    var keys := Keys.SortedKeys(answers.Keys);
    AllMappedFields(config, questions, answers, keys);
    assert forall i :: 0 <= i < |keys| ==> keys[i] in keys;
  }

  /**
   * Under a well-formed configuration that maps exactly questions 1-5 and the
   * result, an answer set for exactly questions 1-5 yields six fields: the
   * five answers in question order, then the result, under six distinct entries.
   */
  lemma FiveQuestionPayload(config: FormConfig, questions: seq<Question>, answers: Answers, result: QuizResult)
    requires WellFormedConfig(config) && config.resultField != ""
    requires forall qId :: Mapped(config, qId) <==> 1 <= qId <= 5
    requires answers.Keys == {1, 2, 3, 4, 5}
    ensures var p := Payload(config, questions, answers, result);
      && |p| == 6
      && (forall i :: 0 <= i < 5 ==> p[i] == FieldFor(config, questions, answers, i + 1))
      && p[5] == Field(config.resultField, ResultText(result))
      && forall i, j :: 0 <= i < j < |p| ==> p[i].entry != p[j].entry
  {
    QuestionKeys(answers);
    AllMappedPayload(config, questions, answers, result);
  }

  /**
   * With the shipped configuration, an answer set for exactly questions 1-5
   * yields exactly six fields: the five answers in question order, then the
   * result, under six distinct entries.
   */
  lemma CompletePayload(questions: seq<Question>, answers: Answers, result: QuizResult)
    requires answers.Keys == {1, 2, 3, 4, 5}
    ensures var p := Payload(GOOGLE_FORM_CONFIG, questions, answers, result);
      && |p| == 6
      && (forall i :: 0 <= i < 5 ==> p[i] == FieldFor(GOOGLE_FORM_CONFIG, questions, answers, i + 1))
      && p[5] == Field(GOOGLE_FORM_CONFIG.resultField, ResultText(result))
      && forall i, j :: 0 <= i < j < |p| ==> p[i].entry != p[j].entry
  {
    ShippedConfig();
    FiveQuestionPayload(GOOGLE_FORM_CONFIG, questions, answers, result);
  }
}
