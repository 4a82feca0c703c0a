/**
 * The level-progression and scoring state machine of the quiz page: three
 * levels of questions are played one question at a time, each answer is
 * scored, a completed level is judged against its effective pass mark, and
 * the learner proceeds, retries or reaches the final summary.
 *
 * The page keeps its state in module-level variables; here they are the
 * fields of a `QuizRun` object. Every delayed callback (`setTimeout`) takes
 * effect at once.
 */
module Quiz {
  import opened Wrappers
  import opened QuizRules

  /** A loaded question; `correct` is absent when the question bank omits it. */
  datatype Question = Question(text: string, options: seq<string>, correct: Option<string>)

  /**
   * What happened to one question of a level run. The page keeps no record of
   * this; the model keeps it as ghost state to state what `levelScore` counts.
   */
  datatype Response = Answered(selected: string) | TimedOut

  /** The result of a completed level, as shown in the level summary. */
  datatype Outcome = Outcome(level: nat, got: nat, total: nat, required: nat, passed: bool)

  /** The totals of the final summary. */
  datatype Summary = Summary(totalCorrect: nat, totalQuestions: nat, percent: nat)

  /** Where the page is: before the first level, on a question, on a level summary, or on the final summary. */
  datatype Phase = Idle | InQuestion | LevelSummary(outcome: Outcome) | FinalSummary(summary: Summary)

  /** The questions of level `k` (`questionsByLevel["level" + k] || []`): a missing level has none. */
  function LevelQuestions(levels: seq<seq<Question>>, k: int): seq<Question>
  {
    if 1 <= k <= |levels| then levels[k - 1] else []
  }

  /** A response scores exactly when it is an answer equal, character for character, to the question's `correct`. */
  predicate Scores(q: Question, r: Response)
  {
    r.Answered? && q.correct == Some(r.selected)
  }

  /** The number of responses that score, question by question. */
  function CountCorrect(qs: seq<Question>, rs: seq<Response>): (n: nat)
    requires |qs| == |rs|
    ensures n <= |qs|
  {
    if qs == [] then 0
    else
      var n := CountCorrect(qs[..|qs| - 1], rs[..|rs| - 1]);
      if Scores(qs[|qs| - 1], rs[|rs| - 1]) then n + 1 else n
  }

  /** Dealing with question i adds one to the count of the first i questions exactly when its response scores. */
  lemma CountCorrectStep(qs: seq<Question>, rs: seq<Response>, i: nat, r: Response)
    requires |rs| == i < |qs|
    ensures CountCorrect(qs[..i + 1], rs + [r]) == CountCorrect(qs[..i], rs) + (if Scores(qs[i], r) then 1 else 0)
  {
    assert qs[..i + 1][..i] == qs[..i];
    assert (rs + [r])[..i] == rs;
  }

  /** The count reaches the number of questions exactly when every response scores. */
  lemma {:induction false} CountCorrectAll(qs: seq<Question>, rs: seq<Response>)
    requires |qs| == |rs|
    ensures CountCorrect(qs, rs) == |qs| <==> forall i :: 0 <= i < |qs| ==> Scores(qs[i], rs[i])
  {
    if qs != [] {
      var m := |qs| - 1;
      CountCorrectAll(qs[..m], rs[..m]);
      if CountCorrect(qs, rs) == |qs| {
        assert Scores(qs[m], rs[m]);
        assert forall i :: 0 <= i < m ==> qs[..m][i] == qs[i] && rs[..m][i] == rs[i];
      }
    }
  }

  /** How a completed level with `got` correct out of `total` is judged. */
  function Evaluate(level: nat, got: nat, total: nat): Outcome
  {
    Outcome(level, got, total, Required(level, total), Passes(level, got, total))
  }

  /** A level whose every question was answered correctly is passed. */
  lemma AllCorrectPasses(level: nat, qs: seq<Question>, rs: seq<Response>)
    requires |qs| == |rs| && qs != []
    requires forall i :: 0 <= i < |qs| ==> Scores(qs[i], rs[i])
    ensures Evaluate(level, CountCorrect(qs, rs), |qs|).passed
  {
    CountCorrectAll(qs, rs);
    PerfectScorePasses(level, |qs|);
  }

  /**
   * The level `startLevel(n)` settles on: the first level from `n` on that
   * holds a question, or LEVEL_COUNT + 1 when all of them are empty.
   */
  function FirstNonEmpty(levels: seq<seq<Question>>, n: nat): (f: nat)
    requires 1 <= n <= LEVEL_COUNT + 1
    ensures n <= f <= LEVEL_COUNT + 1
    ensures f <= LEVEL_COUNT ==> LevelQuestions(levels, f) != []
    ensures forall k :: n <= k < f ==> LevelQuestions(levels, k) == []
    decreases LEVEL_COUNT + 1 - n
  {
    if n > LEVEL_COUNT || LevelQuestions(levels, n) != [] then n else FirstNonEmpty(levels, n + 1)
  }

  /** The score stored for level `k` (`perLevelScores[k] || 0`). */
  function ScoreOf(scores: map<nat, nat>, k: nat): nat
  {
    if k in scores then scores[k] else 0
  }

  /** The score table holds levels 1 .. 3 and no stored score exceeds its level's question count. */
  predicate TableFits(levels: seq<seq<Question>>, scores: map<nat, nat>)
  {
    1 in scores && 2 in scores && 3 in scores
    && scores[1] <= |LevelQuestions(levels, 1)|
    && scores[2] <= |LevelQuestions(levels, 2)|
    && scores[3] <= |LevelQuestions(levels, 3)|
  }

  /** Storing a score that fits its level keeps the table fitting and leaves the other levels alone. */
  lemma StoreScore(levels: seq<seq<Question>>, scores: map<nat, nat>, k: nat, v: nat)
    requires TableFits(levels, scores) && 1 <= k <= LEVEL_COUNT && v <= |LevelQuestions(levels, k)|
    ensures TableFits(levels, scores[k := v])
    ensures forall j :: j != k ==> ScoreOf(scores[k := v], j) == ScoreOf(scores, j)
  {}

  /** The number of questions on levels 1 .. n. */
  function QuestionTotal(levels: seq<seq<Question>>, n: nat): nat
  {
    if n == 0 then 0 else QuestionTotal(levels, n - 1) + |LevelQuestions(levels, n)|
  }

  /** The stored scores of levels 1 .. n. */
  function ScoreTotal(scores: map<nat, nat>, n: nat): nat
  {
    if n == 0 then 0 else ScoreTotal(scores, n - 1) + ScoreOf(scores, n)
  }

  /** The final summary: questions and stored scores over all levels, and the rounded percentage. */
  function SummaryOf(levels: seq<seq<Question>>, scores: map<nat, nat>): Summary
  {
    var correct, total := ScoreTotal(scores, LEVEL_COUNT), QuestionTotal(levels, LEVEL_COUNT);
    Summary(correct, total, if total == 0 then 0 else Percent(correct, total))
  }

  /**
   * When no stored score exceeds its level's question count, the final summary
   * has no more correct answers than questions and a percentage of at most 100.
   */
  lemma SummaryBounds(levels: seq<seq<Question>>, scores: map<nat, nat>)
    requires forall k :: 1 <= k <= LEVEL_COUNT ==> ScoreOf(scores, k) <= |LevelQuestions(levels, k)|
    ensures SummaryOf(levels, scores).totalCorrect <= SummaryOf(levels, scores).totalQuestions
    ensures SummaryOf(levels, scores).percent <= 100
    ensures SummaryOf(levels, scores).totalQuestions == 0 ==> SummaryOf(levels, scores).percent == 0
  {
    TotalsBounded(levels, scores, LEVEL_COUNT);
    var s := SummaryOf(levels, scores);
    if s.totalQuestions > 0 {
      PercentBounds(s.totalCorrect, s.totalQuestions);
    }
  }

  lemma {:induction false} TotalsBounded(levels: seq<seq<Question>>, scores: map<nat, nat>, n: nat)
    requires n <= LEVEL_COUNT
    requires forall k :: 1 <= k <= LEVEL_COUNT ==> ScoreOf(scores, k) <= |LevelQuestions(levels, k)|
    ensures ScoreTotal(scores, n) <= QuestionTotal(levels, n)
  {
    if n > 0 {
      TotalsBounded(levels, scores, n - 1);
    }
  }

  /**
   * The `forEach` over `level1` .. `level3` of the final summary: add up the
   * question counts and the stored scores.
   */
  method Tally(levels: seq<seq<Question>>, scores: map<nat, nat>) returns (totalQuestions: nat, totalCorrect: nat)
    ensures totalQuestions == |LevelQuestions(levels, 1)| + |LevelQuestions(levels, 2)| + |LevelQuestions(levels, 3)|
    ensures totalCorrect == ScoreOf(scores, 1) + ScoreOf(scores, 2) + ScoreOf(scores, 3)
    ensures totalQuestions == QuestionTotal(levels, LEVEL_COUNT) && totalCorrect == ScoreTotal(scores, LEVEL_COUNT)
  {
    totalQuestions, totalCorrect := 0, 0;
    var idx := 0;
    while idx < LEVEL_COUNT
      invariant 0 <= idx <= LEVEL_COUNT
      invariant totalQuestions == QuestionTotal(levels, idx)
      invariant totalCorrect == ScoreTotal(scores, idx)
    {
      totalQuestions := totalQuestions + |LevelQuestions(levels, idx + 1)|;
      totalCorrect := totalCorrect + ScoreOf(scores, idx + 1);
      idx := idx + 1;
    }
    assert QuestionTotal(levels, 1) == |LevelQuestions(levels, 1)|;
    assert ScoreTotal(scores, 1) == ScoreOf(scores, 1);
  }

  /**
   * The invariant of a level run on level `level`, after `index` questions:
   * the score table fits, levels above `level` have score 0, the level's entry
   * is `score`, and `score` counts the scoring responses `rs` to those questions.
   */
  ghost predicate RunInvariant(levels: seq<seq<Question>>, level: nat, index: nat, score: nat,
                               scores: map<nat, nat>, rs: seq<Response>)
  {
    1 <= level <= LEVEL_COUNT && TableFits(levels, scores)
    && (level < 2 ==> scores[2] == 0) && (level < 3 ==> scores[3] == 0)
    && scores[level] == score
    && index <= |LevelQuestions(levels, level)|
    && |rs| == index
    && score == CountCorrect(LevelQuestions(levels, level)[..index], rs)
  }

  /**
   * Dealing with the next question keeps the run invariant: the index moves on
   * by one, the response is recorded, and the score rises by one, and is stored
   * for the level, exactly when the response scores.
   */
  lemma DealKeepsRun(levels: seq<seq<Question>>, level: nat, index: nat, score: nat,
                     scores: map<nat, nat>, rs: seq<Response>, r: Response)
    requires RunInvariant(levels, level, index, score, scores, rs)
    requires index < |LevelQuestions(levels, level)|
    ensures var score' := if Scores(LevelQuestions(levels, level)[index], r) then score + 1 else score;
      RunInvariant(levels, level, index + 1, score', scores[level := score'], rs + [r])
      && (score' == score ==> scores[level := score'] == scores)
  {
    var qs := LevelQuestions(levels, level);
    CountCorrectStep(qs, rs, index, r);
    var score' := if Scores(qs[index], r) then score + 1 else score;
    StoreScore(levels, scores, level, score');
    if score' == score {
      assert scores[level := score'] == scores;
    }
  }

  /** One run of the quiz over a loaded subject. */
  class QuizRun {
    /** The loaded subject: the questions of level 1, 2 and 3 (a missing level is empty). */
    const levels: seq<seq<Question>>
    var currentLevel: nat
    var currentIndex: nat
    var levelScore: nat
    var perLevelScores: map<nat, nat>
    var phase: Phase
    /** What happened to each question of the current level run so far. */
    ghost var responses: seq<Response>

    /** The questions of the level being played. */
    function Current(): seq<Question>
      reads this`currentLevel
    {
      LevelQuestions(levels, currentLevel)
    }

    /** The score table has keys 1 .. 3 and no entry exceeds its level's question count. */
    ghost predicate ScoresWellFormed()
      reads this`currentLevel, this`perLevelScores
    {
      1 <= currentLevel <= LEVEL_COUNT && TableFits(levels, perLevelScores)
    }

    /**
     * The invariant of a level run: levels above the current one have score 0,
     * the current level's entry is `levelScore`, and `levelScore` counts the
     * correct answers among the `currentIndex` questions dealt with so far.
     */
    ghost predicate Playing()
      reads this`currentLevel, this`perLevelScores, this`levelScore, this`currentIndex, this`responses
    {
      RunInvariant(levels, currentLevel, currentIndex, levelScore, perLevelScores, responses)
    }

    /** The object invariant: a level run, in a phase that agrees with it. */
    ghost predicate Valid()
      reads this
    {
      Playing()
      && match phase
         case Idle => currentLevel == 1 && currentIndex == 0
         case InQuestion => currentIndex < |Current()|
         case LevelSummary(o) => 0 < currentIndex == |Current()| && o == Evaluate(currentLevel, levelScore, currentIndex)
         case FinalSummary(s) =>
           currentLevel == LEVEL_COUNT && currentIndex == |Current()| && s == SummaryOf(levels, perLevelScores)
    }

    /**
     * The state `startLevel(n)` leaves: counters reset on the first non-empty
     * level from `n` on, showing its first question, or the final summary when
     * every level from `n` on is empty.
     */
    ghost predicate Started(n: nat)
      requires 1 <= n <= LEVEL_COUNT
      reads this
    {
      Valid() && currentIndex == 0 && levelScore == 0
      && var f := FirstNonEmpty(levels, n);
         if f <= LEVEL_COUNT then currentLevel == f && phase == InQuestion
         else currentLevel == LEVEL_COUNT && phase == FinalSummary(SummaryOf(levels, perLevelScores))
    }

    /** The initial values of the page's globals, with the subject loaded. */
    constructor (subject: seq<seq<Question>>)
      ensures Valid() && phase == Idle && levels == subject
      ensures currentLevel == 1 && currentIndex == 0 && levelScore == 0
      ensures perLevelScores == map[1 := 0, 2 := 0, 3 := 0]
    {
      levels := subject;
      currentLevel, currentIndex, levelScore := 1, 0, 0;
      perLevelScores := map[1 := 0, 2 := 0, 3 := 0];
      phase := Idle;
      responses := [];
    }

    /** The load callback: once the subject is loaded, start at level 1. */
    method Begin()
      requires Valid() && phase == Idle
      modifies this
      ensures Started(1) && perLevelScores == old(perLevelScores)
    {
      StartLevel(1);
    }

    /**
     * `startLevel`: reset the counters for level `n`; an empty level is skipped
     * to the next one, and past the last level the final summary is shown.
     */
    method StartLevel(n: nat)
      requires ScoresWellFormed() && 1 <= n <= LEVEL_COUNT
      requires forall k :: n <= k <= LEVEL_COUNT ==> ScoreOf(perLevelScores, k) == 0
      modifies this
      ensures Started(n) && perLevelScores == old(perLevelScores)
      decreases LEVEL_COUNT - n
    {
      assert ScoreOf(perLevelScores, n) == 0 && ScoreOf(perLevelScores, 3) == 0;
      assert n <= 2 ==> ScoreOf(perLevelScores, 2) == 0;
      currentLevel := n;
      currentIndex := 0;
      levelScore := 0;
      responses := [];
      var arr := LevelQuestions(levels, currentLevel);
      if |arr| == 0 {
        if currentLevel < LEVEL_COUNT {
          StartLevel(currentLevel + 1);
        } else {
          ShowFinalSummary();
        }
        return;
      }
      LoadQuestion();
    }

    /** `loadQuestion`: complete the level once every question is dealt with, else show the next one. */
    method LoadQuestion()
      requires Playing() && Current() != []
      modifies this`phase, this`perLevelScores
      ensures Valid() && perLevelScores == old(perLevelScores)
      ensures phase == if currentIndex < |Current()| then InQuestion
                       else LevelSummary(Evaluate(currentLevel, levelScore, currentIndex))
    {
      var arr := LevelQuestions(levels, currentLevel);
      if currentIndex >= |arr| {
        CompleteLevel();
        return;
      }
      phase := InQuestion;
    }

    /** The timer reaching zero: the question is left unscored and the next one is loaded. */
    method Timeout()
      requires Valid() && phase == InQuestion
      modifies this
      ensures Valid()
      ensures currentLevel == old(currentLevel) && currentIndex == old(currentIndex) + 1
      ensures levelScore == old(levelScore) && perLevelScores == old(perLevelScores)
      ensures responses == old(responses) + [TimedOut]
      ensures phase == if currentIndex < |Current()| then InQuestion
                       else LevelSummary(Evaluate(currentLevel, levelScore, currentIndex))
    {
      DealKeepsRun(levels, currentLevel, currentIndex, levelScore, perLevelScores, responses, TimedOut);
      responses := responses + [TimedOut];
      currentIndex := currentIndex + 1;
      LoadQuestion();
    }

    /**
     * `checkAnswer`: an option equal to the question's `correct` adds one to the
     * level score, which is stored for the level; then the next question is loaded.
     */
    method Answer(selected: string)
      requires Valid() && phase == InQuestion
      modifies this
      ensures Valid()
      ensures currentLevel == old(currentLevel) && currentIndex == old(currentIndex) + 1
      ensures levelScore == old(levelScore) + if Current()[old(currentIndex)].correct == Some(selected) then 1 else 0
      ensures perLevelScores == old(perLevelScores)[currentLevel := levelScore]
      ensures responses == old(responses) + [Answered(selected)]
      ensures phase == if currentIndex < |Current()| then InQuestion
                       else LevelSummary(Evaluate(currentLevel, levelScore, currentIndex))
    {
      var q := Current()[currentIndex];
      DealKeepsRun(levels, currentLevel, currentIndex, levelScore, perLevelScores, responses, Answered(selected));
      if q.correct == Some(selected) {
        levelScore := levelScore + 1;
        perLevelScores := perLevelScores[currentLevel := levelScore];
      }
      responses := responses + [Answered(selected)];
      currentIndex := currentIndex + 1;
      LoadQuestion();
    }

    /** `completeLevel`: judge the level against its effective pass mark and show the level summary. */
    method CompleteLevel()
      requires Playing() && 0 < currentIndex == |Current()|
      modifies this`phase, this`perLevelScores
      ensures Valid() && perLevelScores == old(perLevelScores)
      ensures phase == LevelSummary(Evaluate(currentLevel, levelScore, currentIndex))
    {
      var arr := LevelQuestions(levels, currentLevel);
      var actualCount := |arr|;
      var required := Required(currentLevel, actualCount);
      perLevelScores := perLevelScores[currentLevel := levelScore];
      var passed := levelScore >= required;
      phase := LevelSummary(Outcome(currentLevel, levelScore, actualCount, required, passed));
    }

    /**
     * The primary button of the level summary: a passed level leads to the next
     * level or, after the last one, to the final summary; a failed level has its
     * score cleared and is played again.
     */
    method Proceed()
      requires Valid() && phase.LevelSummary?
      modifies this
      ensures var o := old(phase.outcome);
        if o.passed then
          perLevelScores == old(perLevelScores)
          && if o.level < LEVEL_COUNT then Started(o.level + 1)
             else Valid() && currentLevel == old(currentLevel) && currentIndex == old(currentIndex)
                  && levelScore == old(levelScore) && phase == FinalSummary(SummaryOf(levels, perLevelScores))
        else
          perLevelScores == old(perLevelScores)[o.level := 0] && Started(o.level)
          && currentLevel == old(currentLevel) && phase == InQuestion
    {
      var o := phase.outcome;
      if o.passed {
        if o.level < LEVEL_COUNT {
          StartLevel(o.level + 1);
        } else {
          ShowFinalSummary();
        }
      } else {
        levelScore := 0;
        perLevelScores := perLevelScores[o.level := 0];
        StartLevel(o.level);
      }
    }

    /** `showFinalSummary`: total the questions and stored scores over the three levels. */
    method ShowFinalSummary()
      requires Playing() && currentLevel == LEVEL_COUNT && currentIndex == |Current()|
      modifies this`phase
      ensures Valid() && phase == FinalSummary(SummaryOf(levels, perLevelScores))
    {
      var totalQuestions, totalCorrect := Tally(levels, perLevelScores);
      var percent := if totalQuestions == 0 then 0 else Percent(totalCorrect, totalQuestions);
      phase := FinalSummary(Summary(totalCorrect, totalQuestions, percent));
      assert Playing();
      assert phase == FinalSummary(SummaryOf(levels, perLevelScores));
    }

    /** The restart button of the final summary: clear every level's score and start again at level 1. */
    method Restart()
      requires Valid() && phase.FinalSummary?
      modifies this
      ensures perLevelScores == map[1 := 0, 2 := 0, 3 := 0] && Started(1)
    {
      perLevelScores := map[1 := 0, 2 := 0, 3 := 0];
      StartLevel(1);
    }
  }

  /**
   * A run over a subject whose level 2 is missing: two correct answers pass
   * level 1 (its pass mark scales down to 2), the empty level 2 is skipped,
   * one correct answer passes level 3, and the final summary shows 3 of 3.
   */
  method SkippedLevelRun()
  {
    var q1 := Question("1 + 1", ["2", "3"], Some("2"));
    var q2 := Question("2 + 2", ["4", "5"], Some("4"));
    var q3 := Question("3 + 3", ["6", "7"], Some("6"));
    var run := new QuizRun([[q1, q2], [], [q3]]);
    run.Begin();
    assert FirstNonEmpty(run.levels, 1) == 1;
    run.Answer("2");
    run.Answer("4");
    assert Required(1, 2) == 2;
    assert run.phase == LevelSummary(Outcome(1, 2, 2, 2, true));
    run.Proceed();
    assert FirstNonEmpty(run.levels, 2) == 3;
    assert run.currentLevel == 3 && run.phase == InQuestion;
    run.Answer("6");
    assert Required(3, 1) == 1;
    assert run.phase.outcome.passed;
    run.Proceed();
    assert run.perLevelScores[1] == 2 && run.perLevelScores[2] == 0 && run.perLevelScores[3] == 1;
    assert ScoreOf(run.perLevelScores, 1) == 2 && ScoreOf(run.perLevelScores, 2) == 0 && ScoreOf(run.perLevelScores, 3) == 1;
    assert ScoreTotal(run.perLevelScores, 1) == 2 && ScoreTotal(run.perLevelScores, 2) == 2;
    assert ScoreTotal(run.perLevelScores, 3) == 3;
    assert QuestionTotal(run.levels, 1) == 2 && QuestionTotal(run.levels, 2) == 2;
    assert QuestionTotal(run.levels, 3) == 3;
    assert Percent(3, 3) == 100;
    assert run.phase == FinalSummary(Summary(3, 3, 100));
  }
}
