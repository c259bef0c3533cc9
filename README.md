# Time-mage quiz: a verified model of the quiz logic

The quiz asks five questions. Each has three or four lettered options. The
chosen options of questions 1-4 score 1, 2 or 3, and question 5 scores
nothing. The total selects one of three result tiers ("輕盈效率家",
"平衡心流者", "沉浸藝術家"), and the answers and tier are then posted to a
Google Form. This project models that logic in Dafny and proves what the
code promises about it:

- `types.dfy` (`QuizTypes`): options, questions, result tiers and the answer
  set (question id to option id). It also holds the two `find` lookups, with
  first-match contracts.
- `catalog.dfy` (`Catalog`): the `QUESTIONS` and `RESULTS` constants, with
  lemmas about ids, option scores, tier ranges and the emphasis markers in
  the tier descriptions. Each description is written as its `*`-free
  segments joined by `*`, and a lemma shows it splits back into exactly
  those segments.
- `scoring.dfy` (`Scoring`): the score fold and the first-match tier lookup
  with its fallback to the second tier. It includes the loop `processResult`
  runs (`TotalScore`), proved equal to the fold, and the catalog-wide facts:
  a complete answer set scores 4 to 12, lands in exactly one tier and never
  takes the fallback.
- `markup.dfy` (`Markup`): `HighlightText`, i.e. splitting on `*` and
  emphasising odd segments. It comes with the segment-count, concatenation
  and split/join round-trip properties.
- `keys.dfy` (`Keys`): the order in which `Object.keys` lists the answer
  keys. JavaScript lists array-index keys (the integers 0 to 2^32 - 2) in
  ascending order; the model lists every integer key in ascending order,
  which agrees for the ids 1-5 the quiz records.
- `submission.dfy` (`Submission`): `submitQuizData`. The `FormData` is an
  ordered sequence of (entry, text) fields grown by a loop over the answer
  keys. The model covers the dry-run branch, the post's success or failure,
  and lemmas on which fields appear, how often, and in what order.
- `app.dfy` (`QuizApp`): the screen state machine as a class with the four
  state cells `screen`, `currentQIndex`, `answers` and `finalResult`. Its
  invariant `Valid()` keeps the index in bounds and ties the answered
  questions to the screen and the index. It also guarantees that every
  answer names an existing option, and that the result screen shows the
  tier of the answers.

The form configuration and the question catalog that `submitQuizData`
reads are parameters of the submission model. The shipped values are
`Submission.GOOGLE_FORM_CONFIG` and `Catalog.QUESTIONS`, and the dry-run
branch is reachable with an empty action URL. Whether the network call
throws is the boolean input `dispatchThrows`.

## Model

| member | source | states |
|---|---|---|
| QuizTypes.FindOption | App.tsx:117 | The result is the first option with the given id; it is absent exactly when no option carries that id |
| QuizTypes.FindQuestion | services/submitService.ts:94 | The result is the first question with the given id; it is absent exactly when no question carries that id |
| QuizTypes.FindOptionUnique | services/submitService.ts:95 | With distinct option ids, looking up an option's id returns that very option |
| QuizTypes.FindQuestionUnique | services/submitService.ts:94 | With distinct question ids, looking up a question's id returns that very question |
| Markup.Split | App.tsx:19 | `split('*')` yields at least one segment and no segment contains `*` |
| Markup.Highlight | App.tsx:18-34 | There are (number of `*`) + 1 spans; span i carries the i-th `*`-delimited segment of the text (`Split(text)[i]`); a span is emphasised exactly when its index is odd; spans are `*`-free; the rendered text is the input with every `*` removed |
| Markup.HighlightParts | App.tsx:19-31 | A text that splits into given segments renders as exactly those segments in order, the odd-indexed ones emphasised and the others plain |
| Markup.SplitCount | App.tsx:19 | Splitting yields one more segment than there are markers |
| Markup.SplitConcat | App.tsx:19-31 | Concatenating the segments reproduces the text without its markers |
| Markup.JoinSplit | App.tsx:19 | Joining the segments with `*` restores the original text |
| Markup.SplitJoin | App.tsx:19 | Splitting `*`-free segments joined with `*` returns those segments |
| Markup.EmphasisClosed | App.tsx:22-31 | With an even number of markers the last span is plain and exactly half as many spans as markers are emphasised |
| Markup.JoinStarCount | App.tsx:19 | Joining k + 1 `*`-free segments yields exactly k markers |
| Catalog.QuestionIds | constants.ts:3-55 | There are five questions with ids 1, 2, 3, 4, 5 in list order, pairwise distinct |
| Catalog.QuestionsWellFormed | constants.ts:8-53 | Every question has at least one option and option ids are distinct within a question |
| Catalog.OptionScores | constants.ts:8-53 | On questions 1-4, A, B and C are the three options, scoring 1, 2 and 3; every option of question 5 scores 0 |
| Catalog.TierBounds | constants.ts:57-82 | There are three tiers, with bounds 4-6, 7-9 and 10-12 |
| Catalog.TierRanges | constants.ts:57-82 | Tier ranges are non-empty, ascending, contiguous and pairwise disjoint; a total lies in some tier exactly when it is between 4 and 12 |
| Catalog.SegmentsStarFree | constants.ts:63-79 | No listed description segment contains `*` |
| Catalog.DescriptionSegments | constants.ts:63-79 | Each tier description splits into exactly its listed segments |
| Catalog.DescriptionHighlight | constants.ts:63-79 | Each tier description renders as its listed segments in order, the odd-indexed ones emphasised and the others plain |
| Catalog.DescriptionMarkers | constants.ts:63-79 | The descriptions carry 8, 8 and 10 markers |
| Scoring.TotalScore | App.tsx:114-121 | The accumulating loop returns the fold `Score`: each question in order adds its chosen option's score, and a missing answer, unknown option, or absent or zero score adds 0 |
| Scoring.FindTier | App.tsx:123 | The index found is that of the first tier whose inclusive range holds the total; nothing is found exactly when no tier holds it |
| Scoring.SelectResult | App.tsx:123-124 | When some tier holds the total the result is the first such tier; otherwise it is `RESULTS[1]` |
| Scoring.ScoreWithoutAnswer | App.tsx:116-120 | An answer keyed by an id that no question in the list carries does not change the total |
| Scoring.OptionScore | App.tsx:118-119 | A chosen option adds a non-zero amount exactly when its score is present and non-zero, and then adds that score |
| Scoring.Contribution | App.tsx:116-120 | An unanswered question, or one answered with an id no option carries, adds 0; an answered question adds the score of the first option carrying the answered id; a non-zero contribution is the score of an option carrying that id |
| Scoring.ComputeResult | App.tsx:114-124 | The result is always one of the three tiers; for a complete answer set it is a tier whose range holds its total |
| Scoring.EmptyAnswersScoreZero | App.tsx:114-121 | With no answers any question list totals 0 |
| Scoring.CatalogScore | App.tsx:114-121 | The catalog total is the sum of the five questions' contributions |
| Scoring.CatalogChoice | App.tsx:117-119 | Answering a catalog question with its k-th option's id adds that option's score |
| Scoring.CatalogContribution | App.tsx:115-121 | Questions 1-4 add 0-3, at least 1 when answered with a known option; question 5 adds 0 |
| Scoring.ScoreBounds | App.tsx:114-121 | Any answer set totals 0-12; a complete one totals at least 4 |
| Scoring.ExactlyOneTier | App.tsx:123-124 | A total from 4 to 12 is held by exactly tier (total - 4) / 3, which is the selected one |
| Scoring.FallbackExactlyOutsideRange | App.tsx:123-124 | The lookup finds nothing exactly when the total is below 4 or above 12 |
| Scoring.CompleteNeverFallsBack | App.tsx:114-124 | A complete answer set always finds a tier, and the selected tier holds its total |
| Scoring.TierBoundaries | App.tsx:123-124 | Totals 6, 7, 9 and 10 select tiers 1, 2, 2 and 3 |
| Scoring.UniformAnswers | App.tsx:114-121 | Answering the k-th option (A, B or C) on questions 1-4 totals 4(k + 1), whatever question 5 holds |
| Scoring.AllAnswersA | App.tsx:114-124 | All A on questions 1-4 totals 4 and yields "輕盈效率家" |
| Scoring.AllAnswersC | App.tsx:114-124 | All C on questions 1-4 totals 12 and yields "沉浸藝術家" |
| Scoring.EmptyAnswersFallBack | App.tsx:123-124 | No answers select the fallback `RESULTS[1]` |
| Keys.SortedKeys | services/submitService.ts:89 | The enumeration lists exactly the keys of the answer set, strictly ascending |
| Keys.SortedKeysUnique | services/submitService.ts:89 | Any strictly ascending listing of exactly the keys is the enumeration |
| Submission.CatalogUniqueIds | constants.ts:3-55 | The catalog's question ids, and each question's option ids, are pairwise distinct |
| Submission.AnswerText | services/submitService.ts:93-96 | The text is either the raw option id or "<id>. <text>" of an option carrying that id under a question carrying the question id; for a question id no question carries it is the raw option id |
| Submission.ResultText | services/submitService.ts:108 | The text is the title, a space, then the magic name in parentheses |
| Submission.AnswerTextSpec | services/submitService.ts:94-96 | With unique ids, an option existing under the question is written "<id>. <text>"; any other option id is written as is |
| Submission.BuildPayload | services/submitService.ts:86-110 | The loop over the keys in ascending order appends a field for each mapped answer and then the result field, giving exactly `Payload` |
| Submission.SubmitQuizData | services/submitService.ts:77-130 | An empty action URL posts nothing and reports success; otherwise it posts `Payload` and reports success exactly when the dispatch does not throw |
| Submission.AnswerFieldsMembers | services/submitService.ts:89-104 | Every answer field belongs to a mapped key, and every mapped key's field is present |
| Submission.AnswerFieldsCount | services/submitService.ts:89-104 | Over distinct keys there are as many answer fields as mapped keys |
| Submission.AnswerEntryOnce | services/submitService.ts:100-103 | Under a configuration with distinct entries, a mapped key's entry occurs once if the key is listed, else never |
| Submission.ResultEntryAbsent | services/submitService.ts:100-103 | No answer field carries the result entry |
| Submission.PayloadCount | services/submitService.ts:86-110 | The payload has one field per answered, mapped question, plus one if a result entry is configured |
| Submission.PayloadAnswers | services/submitService.ts:89-104 | Every answered, mapped question's field is in the payload, and its entry occurs exactly once |
| Submission.PayloadOnlyAnswers | services/submitService.ts:89-104 | Every field before the result field is the field of an answered, mapped question; unmapped ones contribute none |
| Submission.PayloadResultLast | services/submitService.ts:106-110 | A configured result field comes last with text "<title> (<magicName>)", and its entry occurs exactly once |
| Submission.ShippedConfig | services/submitService.ts:61-75 | The shipped configuration has a URL, maps exactly questions 1-5, and has six distinct non-empty entries |
| Submission.AllMappedFields | services/submitService.ts:89-104 | When every key is mapped, the answer fields are one field per key, in key order |
| Submission.QuestionKeys | services/submitService.ts:89 | Answers to questions 1-5 are enumerated as 1, 2, 3, 4, 5 |
| Submission.AllMappedPayload | services/submitService.ts:86-110 | When every answered question is mapped, the payload starts with one field per answer in ascending question order |
| Submission.FiveQuestionPayload | services/submitService.ts:67-110 | Under a configuration mapping exactly questions 1-5 to distinct entries, answers to 1-5 yield six fields: five answers in order, then the result, with distinct entries |
| Submission.CompletePayload | services/submitService.ts:61-110 | With the shipped configuration, answers to questions 1-5 yield exactly six fields in that order, with distinct entries |
| QuizApp.AllAnsweredComplete | App.tsx:96-107 | Once every question carries a known option, the answer set is complete |
| QuizApp.FinishedInRange | App.tsx:114-124 | A finished answer set's tier holds its total |
| QuizApp.RecordAnswer | App.tsx:97-98 | Recording a known option for the current question extends the answered questions by exactly that one, and keeps every answer a known option |
| QuizApp.DistinctIds | constants.ts:5-45 | Distinct catalog positions hold distinct question ids |
| QuizApp.Settle | App.tsx:114-126 | Scoring, tier lookup and submission of a finished answer set yield its tier, which holds its total, and post `Posted`: nothing without an action URL, otherwise the payload of those answers and that tier |
| QuizApp.ShippedPosted | services/submitService.ts:61-110 | Under the shipped configuration the payload is posted, and its last field, the only one under the result entry, names the result |
| QuizApp.QuizApp.constructor | App.tsx:75-78 | Start screen, index 0, no answers, no result |
| QuizApp.QuizApp.HandleStart | App.tsx:83-87 | Quiz screen, index 0 and no answers; the result cell is untouched; the invariant is kept |
| QuizApp.QuizApp.HandleRetake | App.tsx:89-94 | Start screen, no answers, no result, index 0; the invariant is kept |
| QuizApp.QuizApp.HandleOptionSelect | App.tsx:96-108 | The current question's answer becomes the option and every other entry is unchanged; a non-final question advances the index by one; the final one moves to the loading screen with the index unchanged; the invariant (index in bounds) is kept |
| QuizApp.QuizApp.ProcessResult | App.tsx:110-128 | The stored result is the tier of the answers, which holds their total; what is posted is the payload of those answers and the stored tier (`Posted`); the result screen is shown whatever the submission reports; answers and index are unchanged |

## Left out

- Rendering: the JSX, styles, icons, the animation and the decorative background are not modelled. They carry no logic beyond the markup split.
- Timing: the 300 ms and 3500 ms delays and the async sequencing are not modelled. Each handler is one atomic step.
- Double clicks: two clicks during the 300 ms delay can queue two index increments. This timing race is outside an atomic-step model.
- Network and logging: the `fetch` call, `FormData` internals and console output are not modelled. The post is the sequence of fields, and its outcome is the input `dispatchThrows`.
- `parseInt` on object keys is not modelled. Answer keys are integers directly.
- Keys.SortedKeys: lists every integer key in ascending order. JavaScript does so only for array-index keys (0 to 2^32 - 2) and lists any other key, negative integers included, after them in insertion order, which a `map` does not record. The quiz records only the ids 1-5, so the shipped behaviour agrees; a configuration mapping a negative or larger id would order its fields differently in the source.
- The question emojis, the tier emoji lookup and the progress-bar percentage are cosmetic, and are not modelled.
- Submission.SubmitQuizData: the shipped form configuration and the question catalog are parameters. The call site passes the shipped values, and the parameter is what makes the dry-run branch reachable.
- QuizApp.QuizApp.HandleOptionSelect: requires the quiz screen and an option id offered under the current question. Only the quiz screen renders option buttons, and only those of the current question (App.tsx:195, 241-246). On the final question it stops at the loading screen, and `ProcessResult` is the separate step that runs after the delay.
- QuizApp.QuizApp.ProcessResult: scores the stored answers instead of an argument. In the source the argument is the answer set just stored (App.tsx:97-106).
- QuizApp.Settle and QuizApp.QuizApp.ProcessResult: take the form configuration as a parameter, as `SubmitQuizData` does. The app passes the shipped one, and `ShippedPosted` states what is posted then.
- QuizApp.QuizApp.HandleStart: requires the invariant only. The source shows its button on the start screen and on no other screen; the model allows the step from any state that satisfies the invariant.
