/**
 * The quiz screen flow: a start screen, one screen per question, a
 * loading screen while the result is computed and submitted, and the
 * result screen. Each handler is one atomic step over the four state
 * cells `screen`, `currentQIndex`, `answers` and `finalResult`.
 */
module QuizApp {
  import opened QuizTypes
  import Catalog
  import Scoring
  import Submission

  /** Which screen is shown. */
  datatype Screen = Start | Quiz | Loading | Result

  /** The ids of the first `n` questions of the catalog. */
  ghost function AnsweredIds(n: nat): set<int>
    requires n <= |Catalog.QUESTIONS|
  {
    set i | 0 <= i < n :: Catalog.QUESTIONS[i].id
  }

  /** If `q` is answered, the answer names an option that exists under it. */
  ghost predicate KnownChoice(q: Question, answers: Answers)
  {
    q.id in answers ==> FindOption(q.options, answers[q.id]).Just?
  }

  /** Every recorded answer names an option that exists under its question. */
  ghost predicate KnownChoices(answers: Answers)
  {
    forall i {:trigger KnownChoice(Catalog.QUESTIONS[i], answers)} :: 0 <= i < |Catalog.QUESTIONS| ==>
      KnownChoice(Catalog.QUESTIONS[i], answers)
  }

  /** Once every question has a known answer, the answer set is complete. */
  lemma AllAnsweredComplete(answers: Answers)
    requires answers.Keys == AnsweredIds(|Catalog.QUESTIONS|)
    requires KnownChoices(answers)
    ensures Scoring.Complete(Catalog.QUESTIONS, answers)
  {
    forall i | 0 <= i < |Catalog.QUESTIONS|
      ensures Catalog.QUESTIONS[i].id in answers
      ensures FindOption(Catalog.QUESTIONS[i].options, answers[Catalog.QUESTIONS[i].id]).Just?
    {
      assert Catalog.QUESTIONS[i].id in AnsweredIds(|Catalog.QUESTIONS|);
      assert KnownChoice(Catalog.QUESTIONS[i], answers);
    }
  }

  /** A finished answer set is scored into the tier that holds its total. */
  lemma FinishedInRange(answers: Answers)
    requires answers.Keys == AnsweredIds(|Catalog.QUESTIONS|)
    requires KnownChoices(answers)
    ensures InRange(Scoring.ComputeResult(answers), Scoring.Score(Catalog.QUESTIONS, answers))
  {
    AllAnsweredComplete(answers);
    Scoring.CompleteNeverFallsBack(answers);
  }

  /** Answering the question at `index` adds exactly that question's id to the answered ids. */
  lemma AnsweredIdsStep(index: nat)
    requires index < |Catalog.QUESTIONS|
    ensures AnsweredIds(index + 1) == AnsweredIds(index) + {Catalog.QUESTIONS[index].id}
  {
    var next := AnsweredIds(index + 1);
    forall id | id in next ensures id in AnsweredIds(index) + {Catalog.QUESTIONS[index].id} {
      var i :| 0 <= i < index + 1 && Catalog.QUESTIONS[i].id == id;
      if i < index {
        assert id in AnsweredIds(index);
      }
    }
    assert Catalog.QUESTIONS[index].id in next;
  }

  /**
   * Recording a known option for the question at `index`, when exactly the
   * questions before it are answered, leaves exactly the questions up to and
   * including it answered, each with a known option.
   */
  lemma RecordAnswer(answers: Answers, index: nat, optionId: string)
    requires index < |Catalog.QUESTIONS|
    requires answers.Keys == AnsweredIds(index) && KnownChoices(answers)
    requires FindOption(Catalog.QUESTIONS[index].options, optionId).Just?
    ensures answers[Catalog.QUESTIONS[index].id := optionId].Keys == AnsweredIds(index + 1)
    ensures KnownChoices(answers[Catalog.QUESTIONS[index].id := optionId])
  {
    AnsweredIdsStep(index);
    RecordKnownChoice(answers, index, optionId);
  }

  /** Recording a known option keeps every recorded answer a known option. */
  lemma RecordKnownChoice(answers: Answers, index: nat, optionId: string)
    requires index < |Catalog.QUESTIONS|
    requires KnownChoices(answers)
    requires FindOption(Catalog.QUESTIONS[index].options, optionId).Just?
    ensures KnownChoices(answers[Catalog.QUESTIONS[index].id := optionId])
  {
    var updated := answers[Catalog.QUESTIONS[index].id := optionId];
    forall i | 0 <= i < |Catalog.QUESTIONS| ensures KnownChoice(Catalog.QUESTIONS[i], updated) {
      if i != index {
        DistinctIds(i, index);
        assert KnownChoice(Catalog.QUESTIONS[i], answers);
      }
    }
  }

  /** Distinct positions of the catalog hold questions with distinct ids. */
  lemma DistinctIds(i: int, j: int)
    requires 0 <= i < |Catalog.QUESTIONS| && 0 <= j < |Catalog.QUESTIONS| && i != j
    ensures Catalog.QUESTIONS[i].id != Catalog.QUESTIONS[j].id
  {
    Catalog.QuestionIds();
  }

  /**
   * What `submitQuizData` sends under `config` for `answers` and `result`:
   * nothing in the dry run without an action URL, otherwise the payload.
   */
  ghost function Posted(config: Submission.FormConfig, answers: Answers, result: QuizResult): Maybe<seq<Submission.Field>>
  {
    if config.actionUrl == "" then Nothing else Just(Submission.Payload(config, Catalog.QUESTIONS, answers, result))
  }

  /**
   * Under the shipped configuration the payload is posted, and its last
   * field, the only one under the result entry, names the result.
   */
  lemma ShippedPosted(answers: Answers, result: QuizResult)
    ensures Posted(Submission.GOOGLE_FORM_CONFIG, answers, result).Just?
    ensures var p := Posted(Submission.GOOGLE_FORM_CONFIG, answers, result).value;
      && p == Submission.Payload(Submission.GOOGLE_FORM_CONFIG, Catalog.QUESTIONS, answers, result)
      && p[|p| - 1] == Submission.Field(Submission.GOOGLE_FORM_CONFIG.resultField, Submission.ResultText(result))
      && Submission.CountEntry(p, Submission.GOOGLE_FORM_CONFIG.resultField) == 1
  {
    Submission.ShippedConfig();
    Submission.PayloadResultLast(Submission.GOOGLE_FORM_CONFIG, Catalog.QUESTIONS, answers, result);
  }

  /**
   * The work of `processResult` on a finished answer set: scores it, looks
   * the total up among the tiers and submits the answers with that tier
   * under `config`, whatever the submission reports. The tier found holds
   * the total: the fallback is never taken. `posted` is what goes to the form.
   */
  method Settle(config: Submission.FormConfig, completedAnswers: Answers, dispatchThrows: bool)
    returns (safeResult: QuizResult, posted: Maybe<seq<Submission.Field>>)
    requires completedAnswers.Keys == AnsweredIds(|Catalog.QUESTIONS|) && KnownChoices(completedAnswers)
    ensures safeResult == Scoring.ComputeResult(completedAnswers)
    ensures InRange(safeResult, Scoring.Score(Catalog.QUESTIONS, completedAnswers))
    ensures posted == Posted(config, completedAnswers, safeResult)
  {
    var totalScore := Scoring.TotalScore(Catalog.QUESTIONS, completedAnswers);
    safeResult := Scoring.SelectResult(totalScore);
    var submitted;
    submitted, posted := Submission.SubmitQuizData(config, Catalog.QUESTIONS, completedAnswers, safeResult, dispatchThrows);
    FinishedInRange(completedAnswers);
  }

  class QuizApp {
    var screen: Screen
    var currentQIndex: int
    var answers: Answers
    var finalResult: Maybe<QuizResult>

    /**
     * The state every handler keeps: the index points at a question; on the
     * start and quiz screens exactly the questions before the current one
     * are answered; from the loading screen on, every question is answered
     * and the index rests on the last one; every answer names a known option;
     * and the result screen shows the tier of the answers.
     */
    ghost predicate Valid()
      reads this
    {
      && 0 <= currentQIndex < |Catalog.QUESTIONS|
      && ((screen == Start || screen == Quiz) ==> answers.Keys == AnsweredIds(currentQIndex))
      && ((screen == Loading || screen == Result) ==>
            answers.Keys == AnsweredIds(|Catalog.QUESTIONS|) && currentQIndex == |Catalog.QUESTIONS| - 1)
      && KnownChoices(answers)
      && (screen == Result ==> finalResult == Just(Scoring.ComputeResult(answers)))
    }

    /** The initial state: the start screen, no answers, no result. */
    constructor ()
      ensures screen == Start && currentQIndex == 0 && answers == map[] && finalResult == Nothing
      ensures Valid()
    {
      screen := Start;
      currentQIndex := 0;
      answers := map[];
      finalResult := Nothing;
    }

    /** `handleStart`: the first question, with no answers; the last result stays as it is. */
    method HandleStart()
      requires Valid()
      modifies this
      ensures screen == Quiz && currentQIndex == 0 && answers == map[]
      ensures finalResult == old(finalResult)
      ensures Valid()
    {
      screen := Quiz;
      currentQIndex := 0;
      answers := map[];
    }

    /** `handleRetake`: back to the start screen with every cell reset. */
    method HandleRetake()
      requires Valid()
      modifies this
      ensures screen == Start && answers == map[] && finalResult == Nothing && currentQIndex == 0
      ensures Valid()
    {
      screen := Start;
      answers := map[];
      finalResult := Nothing;
      currentQIndex := 0;
    }

    /**
     * `handleOptionSelect`: records the chosen option for the current
     * question, leaving every other answer as it was, then either moves to
     * the next question or, on the last one, to the loading screen.
     * Only the quiz screen offers options, and only those of the current
     * question.
     */
    method HandleOptionSelect(optionId: string)
      requires Valid() && screen == Quiz
      requires FindOption(Catalog.QUESTIONS[currentQIndex].options, optionId).Just?
      modifies this
      ensures answers == old(answers)[Catalog.QUESTIONS[old(currentQIndex)].id := optionId]
      ensures forall id :: id != Catalog.QUESTIONS[old(currentQIndex)].id ==>
        (id in answers <==> id in old(answers)) && (id in answers ==> answers[id] == old(answers)[id])
      ensures old(currentQIndex) < |Catalog.QUESTIONS| - 1 ==>
        screen == Quiz && currentQIndex == old(currentQIndex) + 1
      ensures old(currentQIndex) == |Catalog.QUESTIONS| - 1 ==>
        screen == Loading && currentQIndex == old(currentQIndex)
      ensures finalResult == old(finalResult)
      ensures Valid()
    {
      var questionId := Catalog.QUESTIONS[currentQIndex].id;
      RecordAnswer(answers, currentQIndex, optionId);
      answers := answers[questionId := optionId];
      if currentQIndex < |Catalog.QUESTIONS| - 1 {
        currentQIndex := currentQIndex + 1;
      } else {
        screen := Loading;
      }
    }

    /**
     * `processResult`, the step after the loading delay: settles the answers
     * just recorded, stores the tier they select and shows the result screen,
     * whatever the submission reports. `posted` is what went to the form
     * under `config` (the shipped `Submission.GOOGLE_FORM_CONFIG` in the
     * app); its last field carries the tier now stored (`ShippedPosted`).
     */
    method ProcessResult(config: Submission.FormConfig, dispatchThrows: bool) returns (posted: Maybe<seq<Submission.Field>>)
      requires Valid() && screen == Loading
      modifies this
      ensures finalResult == Just(Scoring.ComputeResult(answers))
      ensures InRange(finalResult.value, Scoring.Score(Catalog.QUESTIONS, answers))
      ensures posted == Posted(config, answers, finalResult.value)
      ensures screen == Result
      ensures answers == old(answers) && currentQIndex == old(currentQIndex)
      ensures Valid()
    {
      var completedAnswers := answers;
      var safeResult;
      safeResult, posted := Settle(config, completedAnswers, dispatchThrows);
      finalResult := Just(safeResult);
      screen := Result;
    }
  }
}
