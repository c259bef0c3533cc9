/**
 * The static catalog: the five questions and the three result tiers the
 * quiz is played over, with the facts about them the scoring and the
 * submission rely on.
 */
module Catalog {
  import opened QuizTypes
  import Markup

  /** The questions, in display order. */
  const QUESTIONS: seq<Question> := [
    Question(1, "妳理想中的「Me Time」放鬆時光長什麼樣子？", Just("時間與專注力測驗"), [
        Option("A", "短暫充電", Just("專注 2 小時完成一件喜歡的事，然後繼續下一項任務。"), Just(1)),
        Option("B", "沉浸享受", Just("享受 3 小時左右的心流體驗，剛剛好的投入感。"), Just(2)),
        Option("C", "挑戰極限", Just("既然開始了，就期待長時間深度投入，享受 4 小時以上的慢工出細活。"), Just(3))
      ]),
    Question(2, "對妳而言，「最好的獨處」是什麼狀態？", Just("時間與專注力測驗"), [
        Option("A", "無壓力", Just("活動能在傍晚前輕鬆結束，長時間在外會讓我有些微不自在。"), Just(1)),
        Option("B", "高彈性", Just("享受自己的時光，時間長短不是問題，只要能自由掌握節奏。"), Just(2)),
        Option("C", "全心投入", Just("期待長時間沉浸在專注的時光裡，越久越療癒。"), Just(3))
      ]),
    Question(3, "妳在為居家空間添購物件時，最看重它的「存在感」？", Just("風格與功能性測驗"), [
        Option("A", "點綴感", Just("小巧精緻，可以放在桌上或書架上，是畫龍點睛的點綴。"), Just(1)),
        Option("B", "主角感", Just("尺寸適中，能成為個人工作區或休息區的主視覺。"), Just(2)),
        Option("C", "宣言感", Just("大膽搶眼，能夠佔據一面牆或一個角落，成為空間的視覺焦點。"), Just(3))
      ]),
    Question(4, "一個好的物件，對妳來說必須具備哪種價值？", Just("風格與功能性測驗"), [
        Option("A", "純粹美學", Just("它就是藝術品，負責讓空間變得更美麗。"), Just(1)),
        Option("B", "情感溫度", Just("它代表某段回憶，放在手邊就很踏實。"), Just(2)),
        Option("C", "實用結合", Just("除了美觀，它最好還能滿足一個日常機能，每天都會用到。"), Just(3))
      ]),
    Question(5, "如果要安排一個能讓妳心靈放鬆的活動，哪個時段最符合妳創業家的作息？", Just("預約時段測驗"), [
        Option("A", "平日上午", Just("早起精神好，做完任性地宣布「今天下午休假！」"), Just(0)),
        Option("B", "平日下午", Just("上午趕完進度，下午「想走就走」，當作一天的完美放鬆結尾！"), Just(0)),
        Option("C", "假日上午", Just("假日早鳥場！抓緊時間完成療癒體驗，下午還有超長時段可以自由運用。"), Just(0)),
        Option("D", "假日下午", Just("睡到飽再出門！慢慢享受週末午後的寧靜，將體驗當作收心操。"), Just(0))
      ])

  ]

  /** The emphasised and plain segments of each tier's description, joined by `*` below. */
  const TIER1_SEGMENTS: seq<string> := [
    "妳是掌握時間輕盈感的魔法師。妳擅長在最短時間內", "精準充電", "，追求", "高效率與零壓力",
    "。妳的魔法能讓妳在有限的時間內創造出", "最大的療癒價值", "，專注於", "精巧細膩的美感",
    "，不讓生活感到沉重。"]
  const TIER2_SEGMENTS: seq<string> := [
    "妳是懂得", "平衡", "的魔法師。妳喜歡在一個適中的時段內，將", "心力完全投入",
    "，享受過程的樂趣，但又不會讓自己感到過度疲憊。妳創造出的作品充滿", "溫暖和個人色彩",
    "，總能與生活", "完美契合", "。"]
  const TIER3_SEGMENTS: seq<string> := [
    "妳是追求", "完美", "的魔法師。妳掌握了「時間凝結」的魔法，能長時間", "沉浸於創作",
    "，不被外界打擾。妳追求作品的", "份量感與實用性", "，希望創造出一個兼具", "美觀與強大功能",
    "的空間焦點，留下", "深刻的印記", "。"]

  const TIER1_DESCRIPTION: string := Markup.Join(TIER1_SEGMENTS)
  const TIER2_DESCRIPTION: string := Markup.Join(TIER2_SEGMENTS)
  const TIER3_DESCRIPTION: string := Markup.Join(TIER3_SEGMENTS)

  /** The result tiers, in the order they are searched. */
  const RESULTS: seq<QuizResult> := [
    QuizResult(4, 6, "輕盈效率家", "時間瞬移", TIER1_DESCRIPTION, "sparkle"),
    QuizResult(7, 9, "平衡心流者", "心流控制", TIER2_DESCRIPTION, "magic-potion"),
    QuizResult(10, 12, "沉浸藝術家", "時間凝結", TIER3_DESCRIPTION, "hourglass")
  ]

  /** Option ids are distinct within a question and every question offers at least one option. */
  ghost predicate WellFormedQuestion(q: Question)
  {
    && |q.options| >= 1
    && forall j, k :: 0 <= j < k < |q.options| ==> q.options[j].id != q.options[k].id
  }

  /** Question ids are 1, 2, 3, 4, 5 in list order, hence pairwise distinct. */
  lemma QuestionIds()
    ensures |QUESTIONS| == 5
    ensures forall i :: 0 <= i < |QUESTIONS| ==> QUESTIONS[i].id == i + 1
    ensures forall i, j :: 0 <= i < j < |QUESTIONS| ==> QUESTIONS[i].id != QUESTIONS[j].id
  {
  }

  /** Every question has at least one option and no two options of a question share an id. */
  lemma QuestionsWellFormed()
    ensures forall i :: 0 <= i < |QUESTIONS| ==> WellFormedQuestion(QUESTIONS[i])
  {
    forall i | 0 <= i < |QUESTIONS| ensures WellFormedQuestion(QUESTIONS[i]) {
      var opts := QUESTIONS[i].options;
      assert opts[0].id == "A" && opts[1].id == "B" && opts[2].id == "C";
      assert i == 4 ==> opts[3].id == "D";
    }
  }

  /** On questions 1-4, options A, B and C score 1, 2 and 3; every option of question 5 scores 0. */
  lemma OptionScores()
    ensures forall i :: 0 <= i < 4 ==>
      && |QUESTIONS[i].options| == 3
      && QUESTIONS[i].options[0] == QUESTIONS[i].options[0].(id := "A", score := Just(1))
      && QUESTIONS[i].options[1] == QUESTIONS[i].options[1].(id := "B", score := Just(2))
      && QUESTIONS[i].options[2] == QUESTIONS[i].options[2].(id := "C", score := Just(3))
    ensures forall o :: o in QUESTIONS[4].options ==> o.score == Just(0)
  {
  }

  /** The score bounds of the three tiers: 4-6, 7-9 and 10-12. */
  lemma TierBounds()
    ensures |RESULTS| == 3
    ensures RESULTS[0].minScore == 4 && RESULTS[0].maxScore == 6
    ensures RESULTS[1].minScore == 7 && RESULTS[1].maxScore == 9
    ensures RESULTS[2].minScore == 10 && RESULTS[2].maxScore == 12
  {
  }

  /**
   * The tier ranges are non-empty, ascending and contiguous from 4 to 12, so a
   * total lies in some tier exactly when it is between 4 and 12, and never in two.
   */
  lemma TierRanges()
    ensures |RESULTS| == 3
    ensures forall i :: 0 <= i < |RESULTS| ==> RESULTS[i].minScore <= RESULTS[i].maxScore
    ensures RESULTS[0].minScore == 4 && RESULTS[2].maxScore == 12
    ensures forall i :: 0 <= i < |RESULTS| - 1 ==> RESULTS[i].maxScore + 1 == RESULTS[i + 1].minScore
    ensures forall i, j, t :: 0 <= i < j < |RESULTS| && InRange(RESULTS[i], t) ==> !InRange(RESULTS[j], t)
    ensures forall t :: InSomeTier(RESULTS, t) <==> 4 <= t <= 12
  {
    TierBounds();
    ContiguousTiers(RESULTS);
  }

  /** Three tiers 4-6, 7-9 and 10-12 cover 4..12 without overlap. */
  lemma ContiguousTiers(tiers: seq<QuizResult>)
    requires |tiers| == 3
    requires tiers[0].minScore == 4 && tiers[0].maxScore == 6
    requires tiers[1].minScore == 7 && tiers[1].maxScore == 9
    requires tiers[2].minScore == 10 && tiers[2].maxScore == 12
    ensures forall i :: 0 <= i < |tiers| ==> tiers[i].minScore <= tiers[i].maxScore
    ensures forall i :: 0 <= i < |tiers| - 1 ==> tiers[i].maxScore + 1 == tiers[i + 1].minScore
    ensures forall i, j, t :: 0 <= i < j < |tiers| && InRange(tiers[i], t) ==> !InRange(tiers[j], t)
    ensures forall t :: InSomeTier(tiers, t) <==> 4 <= t <= 12
  {
    forall t ensures InSomeTier(tiers, t) <==> 4 <= t <= 12 {
      if 4 <= t <= 12 {
        var i := if t <= 6 then 0 else if t <= 9 then 1 else 2;
        assert InRange(tiers[i], t);
      }
    }
  }

  /** No segment of a tier description contains the marker character. */
  lemma SegmentsStarFree()
    ensures forall i :: 0 <= i < |TIER1_SEGMENTS| ==> '*' !in TIER1_SEGMENTS[i]
    ensures forall i :: 0 <= i < |TIER2_SEGMENTS| ==> '*' !in TIER2_SEGMENTS[i]
    ensures forall i :: 0 <= i < |TIER3_SEGMENTS| ==> '*' !in TIER3_SEGMENTS[i]
  {
    Tier1StarFree();
    Tier2StarFree();
    Tier3StarFree();
  }

  /** The first tier's segments are marker-free. */
  lemma Tier1StarFree()
    ensures forall i :: 0 <= i < |TIER1_SEGMENTS| ==> '*' !in TIER1_SEGMENTS[i]
  {
  }

  /** The second tier's segments are marker-free. */
  lemma Tier2StarFree()
    ensures forall i :: 0 <= i < |TIER2_SEGMENTS| ==> '*' !in TIER2_SEGMENTS[i]
  {
  }

  /** The third tier's segments are marker-free. */
  lemma Tier3StarFree()
    ensures forall i :: 0 <= i < |TIER3_SEGMENTS| ==> '*' !in TIER3_SEGMENTS[i]
  {
  }

  /** Each tier description splits into exactly the segments listed above for it. */
  lemma DescriptionSegments()
    ensures Markup.Split(RESULTS[0].description) == TIER1_SEGMENTS
    ensures Markup.Split(RESULTS[1].description) == TIER2_SEGMENTS
    ensures Markup.Split(RESULTS[2].description) == TIER3_SEGMENTS
  {
    SegmentsStarFree();
    Markup.SplitJoin(TIER1_SEGMENTS);
    Markup.SplitJoin(TIER2_SEGMENTS);
    Markup.SplitJoin(TIER3_SEGMENTS);
  }

  /**
   * Each tier description renders as its listed segments in order, the
   * odd-indexed ones emphasised: the first tier's first emphasised span is
   * `TIER1_SEGMENTS[1]`, and so on.
   */
  lemma DescriptionHighlight()
    ensures Markup.RendersAs(RESULTS[0].description, TIER1_SEGMENTS)
    ensures Markup.RendersAs(RESULTS[1].description, TIER2_SEGMENTS)
    ensures Markup.RendersAs(RESULTS[2].description, TIER3_SEGMENTS)
  {
    DescriptionSegments();
    Markup.HighlightParts(RESULTS[0].description, TIER1_SEGMENTS);
    Markup.HighlightParts(RESULTS[1].description, TIER2_SEGMENTS);
    Markup.HighlightParts(RESULTS[2].description, TIER3_SEGMENTS);
  }

  /**
   * The descriptions carry 8, 8 and 10 markers: an even number each, so every
   * emphasis span is closed (`Markup.EmphasisClosed`).
   */
  lemma DescriptionMarkers()
    ensures Markup.StarCount(RESULTS[0].description) == 8
    ensures Markup.StarCount(RESULTS[1].description) == 8
    ensures Markup.StarCount(RESULTS[2].description) == 10
  {
    SegmentsStarFree();
    Markup.JoinStarCount(TIER1_SEGMENTS);
    Markup.JoinStarCount(TIER2_SEGMENTS);
    Markup.JoinStarCount(TIER3_SEGMENTS);
  }
}
