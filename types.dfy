/**
 * The quiz's data model: answer options, questions, result tiers and the
 * answer set, together with the two `find` lookups the scoring and the
 * submission code perform over them.
 */
module QuizTypes {

  /** An optional value: a field that may be absent, or a lookup that may fail. */
  datatype Maybe<+T> = Nothing | Just(value: T)

  /** One answer option of a question. `id` is a single letter, unique within its question. */
  datatype Option = Option(id: string, text: string, description: Maybe<string>, score: Maybe<int>)

  /** A question; `id` defines the display order and keys the answer set. */
  datatype Question = Question(id: int, title: string, subtitle: Maybe<string>, options: seq<Option>)

  /** A result tier, selected when the total score lies in `[minScore, maxScore]`. */
  datatype QuizResult = QuizResult(
    minScore: int,
    maxScore: int,
    title: string,
    magicName: string,
    description: string,
    imageKeyword: string)

  /** The answer set: question id to the id of the chosen option. */
  type Answers = map<int, string>

  /** The tier's inclusive range contains `total`. */
  predicate InRange(r: QuizResult, total: int)
  {
    r.minScore <= total <= r.maxScore
  }

  /** Some tier of `tiers` contains `total`. */
  predicate InSomeTier(tiers: seq<QuizResult>, total: int)
  {
    exists i :: 0 <= i < |tiers| && InRange(tiers[i], total)
  }

  /** `options.find(o => o.id === id)`: the first option carrying `id`, if any. */
  function FindOption(options: seq<Option>, id: string): (r: Maybe<Option>)
    ensures r.Just? ==> r.value in options && r.value.id == id
    ensures r.Just? ==> exists i :: 0 <= i < |options| && options[i] == r.value &&
                                    forall j :: 0 <= j < i ==> options[j].id != id
    ensures r.Nothing? <==> forall i :: 0 <= i < |options| ==> options[i].id != id
  {
    if options == [] then Nothing
    else if options[0].id == id then Just(options[0])
    else
      var r := FindOption(options[1..], id);
      assert r.Just? ==> options[1..][0] == options[1];
      assert forall i :: 1 <= i < |options| ==> options[i] == options[1..][i - 1];
      r
  }

  /** `questions.find(q => q.id === id)`: the first question carrying `id`, if any. */
  function FindQuestion(questions: seq<Question>, id: int): (r: Maybe<Question>)
    ensures r.Just? ==> r.value in questions && r.value.id == id
    ensures r.Just? ==> exists i :: 0 <= i < |questions| && questions[i] == r.value &&
                                    forall j :: 0 <= j < i ==> questions[j].id != id
    ensures r.Nothing? <==> forall i :: 0 <= i < |questions| ==> questions[i].id != id
  {
    if questions == [] then Nothing
    else if questions[0].id == id then Just(questions[0])
    else
      var r := FindQuestion(questions[1..], id);
      assert r.Just? ==> questions[1..][0] == questions[1];
      assert forall i :: 1 <= i < |questions| ==> questions[i] == questions[1..][i - 1];
      r
  }

  /** With distinct ids, `FindOption` returns exactly the option that carries the id. */
  lemma {:induction false} FindOptionUnique(options: seq<Option>, i: int)
    requires 0 <= i < |options|
    requires forall j, k :: 0 <= j < k < |options| ==> options[j].id != options[k].id
    ensures FindOption(options, options[i].id) == Just(options[i])
  {
    if i > 0 {
      assert options[0].id != options[i].id;
      FindOptionUnique(options[1..], i - 1);
    }
  }

  /** Position `k` is the first of `options` whose id is `id`. */
  predicate FirstCarrier(options: seq<Option>, id: string, k: int)
  {
    0 <= k < |options| && options[k].id == id && forall j :: 0 <= j < k ==> options[j].id != id
  }

  /** `FindOption` returns the option at the first position carrying `id`. */
  lemma {:induction false} FindOptionFirst(options: seq<Option>, id: string, k: int)
    requires FirstCarrier(options, id, k)
    ensures FindOption(options, id) == Just(options[k])
  {
    if k > 0 {
      FindOptionFirst(options[1..], id, k - 1);
    }
  }

  /** With distinct ids, `FindQuestion` returns exactly the question that carries the id. */
  lemma {:induction false} FindQuestionUnique(questions: seq<Question>, i: int)
    requires 0 <= i < |questions|
    requires forall j, k :: 0 <= j < k < |questions| ==> questions[j].id != questions[k].id
    ensures FindQuestion(questions, questions[i].id) == Just(questions[i])
  {
    if i > 0 {
      assert questions[0].id != questions[i].id;
      FindQuestionUnique(questions[1..], i - 1);
    }
  }
}
