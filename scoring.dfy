/**
 * Scoring: the total is the sum of the chosen options' scores over the
 * questions in catalog order, and the result is the first tier whose
 * inclusive range holds the total, the second tier when none does.
 */
module Scoring {
  import opened QuizTypes
  import Catalog

  /** What a chosen option adds: its score when present and non-zero, else 0. */
  function OptionScore(o: Option): (r: int)
    ensures r != 0 <==> o.score.Just? && o.score.value != 0
    ensures r != 0 ==> o.score == Just(r)
  {
    if o.score.Just? && o.score.value != 0 then o.score.value else 0
  }

  /** What question `q` adds under `answers`: 0 when unanswered or the option id is unknown. */
  function Contribution(q: Question, answers: Answers): (r: int)
    ensures q.id !in answers ==> r == 0
    ensures q.id in answers && (forall k :: 0 <= k < |q.options| ==> q.options[k].id != answers[q.id]) ==> r == 0
    ensures r != 0 ==> exists k :: 0 <= k < |q.options| && q.options[k].id == answers[q.id] && q.options[k].score == Just(r)
    ensures forall k :: q.id in answers && FirstCarrier(q.options, answers[q.id], k) ==> r == OptionScore(q.options[k])
  {
    if q.id in answers then
      forall k | FirstCarrier(q.options, answers[q.id], k)
        ensures FindOption(q.options, answers[q.id]) == Just(q.options[k])
      {
        FindOptionFirst(q.options, answers[q.id], k);
      }
      match FindOption(q.options, answers[q.id])
      case Just(o) => OptionScore(o)
      case Nothing => 0
    else 0
  }

  /** The total score: the contributions of `questions`, accumulated in order. */
  function Score(questions: seq<Question>, answers: Answers): int
  {
    if questions == [] then 0
    else Score(questions[..|questions| - 1], answers) + Contribution(questions[|questions| - 1], answers)
  }

  /** Every question is answered with an option id that exists under it. */
  ghost predicate Complete(questions: seq<Question>, answers: Answers)
  {
    forall i :: 0 <= i < |questions| ==>
      questions[i].id in answers && FindOption(questions[i].options, answers[questions[i].id]).Just?
  }

  /** The scoring loop of `processResult`: accumulates the total question by question. */
  method TotalScore(questions: seq<Question>, answers: Answers) returns (total: int)
    ensures total == Score(questions, answers)
  {
    total := 0;
    for i := 0 to |questions|
      invariant total == Score(questions[..i], answers)
    {
      var q := questions[i];
      if q.id in answers {
        var option := FindOption(q.options, answers[q.id]);
        if option.Just? && option.value.score.Just? && option.value.score.value != 0 {
          total := total + option.value.score.value;
        }
      }
      assert questions[..i + 1][..i] == questions[..i];
    }
    assert questions[..|questions|] == questions;
  }

  /** `tiers.find(r => minScore <= total <= maxScore)`, as the index of the tier found. */
  function FindTier(tiers: seq<QuizResult>, total: int): (r: Maybe<nat>)
    ensures r.Just? ==> r.value < |tiers| && InRange(tiers[r.value], total)
    ensures r.Just? ==> forall j :: 0 <= j < r.value ==> !InRange(tiers[j], total)
    ensures r.Nothing? <==> !InSomeTier(tiers, total)
  {
    if tiers == [] then Nothing
    else if InRange(tiers[0], total) then Just(0)
    else
      match FindTier(tiers[1..], total)
      case Nothing =>
        assert forall j :: 1 <= j < |tiers| ==> tiers[j] == tiers[1..][j - 1];
        Nothing
      case Just(k) =>
        assert forall j :: 1 <= j <= k ==> tiers[j] == tiers[1..][j - 1];
        Just(k + 1)
  }

  /** The tier `processResult` settles on: the first match, or `RESULTS[1]` when none matches. */
  function SelectResult(total: int): (r: QuizResult)
    ensures InSomeTier(Catalog.RESULTS, total) ==>
      exists i :: 0 <= i < |Catalog.RESULTS| && r == Catalog.RESULTS[i] && InRange(r, total) &&
                  forall j :: 0 <= j < i ==> !InRange(Catalog.RESULTS[j], total)
    ensures !InSomeTier(Catalog.RESULTS, total) ==> r == Catalog.RESULTS[1]
  {
    match FindTier(Catalog.RESULTS, total)
    case Just(i) => Catalog.RESULTS[i]
    case Nothing => Catalog.RESULTS[1]
  }

  /** The result for an answer set: its total looked up among the tiers. */
  function ComputeResult(answers: Answers): (r: QuizResult)
    ensures r in Catalog.RESULTS
    ensures Complete(Catalog.QUESTIONS, answers) ==> InRange(r, Score(Catalog.QUESTIONS, answers))
  {
    var total := Score(Catalog.QUESTIONS, answers);
    ScoreBounds(answers);
    if 4 <= total then
      ExactlyOneTier(total);
      SelectResult(total)
    else
      SelectResult(total)
  }

  /** An answer keyed by an id that no listed question carries does not change the total. */
  lemma {:induction false} ScoreWithoutAnswer(questions: seq<Question>, answers: Answers, id: int)
    requires forall i :: 0 <= i < |questions| ==> questions[i].id != id
    ensures Score(questions, answers - {id}) == Score(questions, answers)
  {
    if questions != [] {
      var last := questions[|questions| - 1];
      ScoreWithoutAnswer(questions[..|questions| - 1], answers, id);
      assert last.id != id;
      assert (last.id in answers - {id}) == (last.id in answers);
    }
  }

  /** With no answers at all every question contributes 0. */
  lemma {:induction false} EmptyAnswersScoreZero(questions: seq<Question>)
    ensures Score(questions, map[]) == 0
  {
    if questions != [] {
      EmptyAnswersScoreZero(questions[..|questions| - 1]);
    }
  }

  /** The total over five questions is their five contributions added up. */
  lemma ScoreOfFive(qs: seq<Question>, answers: Answers)
    requires |qs| == 5
    ensures Score(qs, answers) ==
      Contribution(qs[0], answers) + Contribution(qs[1], answers) + Contribution(qs[2], answers) +
      Contribution(qs[3], answers) + Contribution(qs[4], answers)
  {
    forall n | 1 <= n <= 5
      ensures Score(qs[..n], answers) == Score(qs[..n - 1], answers) + Contribution(qs[n - 1], answers)
    {
      assert qs[..n][..n - 1] == qs[..n - 1];
      assert qs[..n][n - 1] == qs[n - 1];
    }
    assert qs[..0] == [];
    assert qs[..5] == qs;
  }

  /** The catalog's total is the five questions' contributions added up. */
  lemma CatalogScore(answers: Answers)
    ensures Score(Catalog.QUESTIONS, answers) ==
      Contribution(Catalog.QUESTIONS[0], answers) + Contribution(Catalog.QUESTIONS[1], answers) +
      Contribution(Catalog.QUESTIONS[2], answers) + Contribution(Catalog.QUESTIONS[3], answers) +
      Contribution(Catalog.QUESTIONS[4], answers)
  {
    Catalog.QuestionIds();
    ScoreOfFive(Catalog.QUESTIONS, answers);
  }

  /** Answering a catalog question with the id of its `k`-th option adds that option's score. */
  lemma CatalogChoice(i: int, k: int, answers: Answers)
    requires 0 <= i < |Catalog.QUESTIONS| && 0 <= k < |Catalog.QUESTIONS[i].options|
    requires Catalog.QUESTIONS[i].id in answers
    requires answers[Catalog.QUESTIONS[i].id] == Catalog.QUESTIONS[i].options[k].id
    ensures Contribution(Catalog.QUESTIONS[i], answers) == OptionScore(Catalog.QUESTIONS[i].options[k])
  {
    Catalog.QuestionsWellFormed();
    FindOptionUnique(Catalog.QUESTIONS[i].options, k);
  }

  /** Questions 1-4 add 0 to 3, at least 1 when answered with a known option; question 5 adds 0. */
  lemma CatalogContribution(i: int, answers: Answers)
    requires 0 <= i < |Catalog.QUESTIONS|
    ensures i < 4 ==> 0 <= Contribution(Catalog.QUESTIONS[i], answers) <= 3
    ensures i < 4 && Catalog.QUESTIONS[i].id in answers &&
            FindOption(Catalog.QUESTIONS[i].options, answers[Catalog.QUESTIONS[i].id]).Just? ==>
            1 <= Contribution(Catalog.QUESTIONS[i], answers)
    ensures i == 4 ==> Contribution(Catalog.QUESTIONS[i], answers) == 0
  {
    Catalog.OptionScores();
    var q := Catalog.QUESTIONS[i];
    if q.id in answers {
      var r := FindOption(q.options, answers[q.id]);
      if r.Just? {
        var k :| 0 <= k < |q.options| && q.options[k] == r.value;
        assert i < 4 ==> 1 <= OptionScore(q.options[k]) <= 3;
      }
    }
  }

  /** Any answer set scores between 0 and 12 on the catalog; a complete one between 4 and 12. */
  lemma ScoreBounds(answers: Answers)
    ensures 0 <= Score(Catalog.QUESTIONS, answers) <= 12
    ensures Complete(Catalog.QUESTIONS, answers) ==> 4 <= Score(Catalog.QUESTIONS, answers)
  {
    CatalogScore(answers);
    Catalog.QuestionIds();
    CatalogContribution(0, answers);
    CatalogContribution(1, answers);
    CatalogContribution(2, answers);
    CatalogContribution(3, answers);
    CatalogContribution(4, answers);
  }

  /** A total from 4 to 12 lies in exactly one tier, the one `SelectResult` returns. */
  lemma ExactlyOneTier(total: int)
    requires 4 <= total <= 12
    ensures FindTier(Catalog.RESULTS, total) == Just((total - 4) / 3)
    ensures SelectResult(total) == Catalog.RESULTS[(total - 4) / 3]
    ensures forall j :: 0 <= j < |Catalog.RESULTS| && j != (total - 4) / 3 ==> !InRange(Catalog.RESULTS[j], total)
  {
    Catalog.TierRanges();
    var i := (total - 4) / 3;
    assert InRange(Catalog.RESULTS[i], total);
    assert InSomeTier(Catalog.RESULTS, total);
  }

  /** The fallback tier is used exactly when the total is below 4 or above 12. */
  lemma FallbackExactlyOutsideRange(total: int)
    ensures FindTier(Catalog.RESULTS, total).Nothing? <==> total < 4 || total > 12
  {
    Catalog.TierRanges();
  }

  /** A complete answer set always finds its tier: the fallback is never taken. */
  lemma CompleteNeverFallsBack(answers: Answers)
    requires Complete(Catalog.QUESTIONS, answers)
    ensures FindTier(Catalog.RESULTS, Score(Catalog.QUESTIONS, answers)).Just?
    ensures InRange(ComputeResult(answers), Score(Catalog.QUESTIONS, answers))
  {
    ScoreBounds(answers);
    ExactlyOneTier(Score(Catalog.QUESTIONS, answers));
  }

  /** Boundary totals: 6 falls in the first tier, 7 and 9 in the second, 10 in the third. */
  lemma TierBoundaries()
    ensures SelectResult(6) == Catalog.RESULTS[0]
    ensures SelectResult(7) == Catalog.RESULTS[1]
    ensures SelectResult(9) == Catalog.RESULTS[1]
    ensures SelectResult(10) == Catalog.RESULTS[2]
  {
    ExactlyOneTier(6);
    ExactlyOneTier(7);
    ExactlyOneTier(9);
    ExactlyOneTier(10);
  }

  /**
   * Five questions where the first four are answered with their `k`-th option,
   * worth `k + 1`, and the fifth scores nothing, total `4 * (k + 1)`.
   */
  lemma UniformScore(qs: seq<Question>, answers: Answers, k: nat)
    requires |qs| == 5
    requires forall i :: 0 <= i < 4 ==>
      && k < |qs[i].options|
      && (forall j, l :: 0 <= j < l < |qs[i].options| ==> qs[i].options[j].id != qs[i].options[l].id)
      && qs[i].id in answers && answers[qs[i].id] == qs[i].options[k].id
      && OptionScore(qs[i].options[k]) == k + 1
    requires forall o :: o in qs[4].options ==> OptionScore(o) == 0
    ensures Score(qs, answers) == 4 * (k + 1)
  {
    ScoreOfFive(qs, answers);
    forall i | 0 <= i < 4 ensures Contribution(qs[i], answers) == k + 1 {
      assert FirstCarrier(qs[i].options, answers[qs[i].id], k);
    }
    assert Contribution(qs[4], answers) == 0;
  }

  /** Answering option `k` (A, B or C) on each of questions 1-4 scores `4 * (k + 1)`, whatever question 5 says. */
  lemma UniformAnswers(answers: Answers, k: int)
    requires 0 <= k < 3
    requires forall i :: 0 <= i < 4 ==>
      Catalog.QUESTIONS[i].id in answers && answers[Catalog.QUESTIONS[i].id] == Catalog.QUESTIONS[i].options[k].id
    ensures Score(Catalog.QUESTIONS, answers) == 4 * (k + 1)
  {
    Catalog.QuestionIds();
    Catalog.OptionScores();
    Catalog.QuestionsWellFormed();
    UniformScore(Catalog.QUESTIONS, answers, k);
  }

  /** Answering A on questions 1-4 scores 4 and gives "輕盈效率家". */
  lemma AllAnswersA(answers: Answers)
    requires forall id :: 1 <= id <= 4 ==> id in answers && answers[id] == "A"
    ensures Score(Catalog.QUESTIONS, answers) == 4
    ensures ComputeResult(answers).title == "輕盈效率家"
  {
    Catalog.OptionScores();
    Catalog.QuestionIds();
    UniformAnswers(answers, 0);
    ExactlyOneTier(4);
  }

  /** Answering C on questions 1-4 scores 12 and gives "沉浸藝術家". */
  lemma AllAnswersC(answers: Answers)
    requires forall id :: 1 <= id <= 4 ==> id in answers && answers[id] == "C"
    ensures Score(Catalog.QUESTIONS, answers) == 12
    ensures ComputeResult(answers).title == "沉浸藝術家"
  {
    Catalog.OptionScores();
    Catalog.QuestionIds();
    UniformAnswers(answers, 2);
    ExactlyOneTier(12);
  }

  /** No answers score 0, which no tier holds, so the second tier is the result. */
  lemma EmptyAnswersFallBack()
    ensures ComputeResult(map[]) == Catalog.RESULTS[1]
  {
    EmptyAnswersScoreZero(Catalog.QUESTIONS);
    FallbackExactlyOutsideRange(0);
  }
}
