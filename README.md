# EduKids quiz: level progression and scoring

A Dafny model of the quiz page of EduKids Africa (`quiz.js`). A subject holds
three levels of multiple-choice questions. The page plays a level one
question at a time. A correct answer adds one to the level score. When the
per-question timer runs out, the page moves on without scoring. At the end of
a level, the score is judged against the level's pass mark. That pass mark
comes from a fixed table (level 1: 45 of 50, level 2: 55 of 60, level 3: 75 of
80) and is scaled down in proportion when the level holds fewer questions,
but never below 1. After a passed level the learner proceeds to the next
level, or after level 3 to a final summary. A failed level has its score
cleared and is played again. The final summary totals the questions and
stored scores of all three levels and shows a rounded percentage. Its restart
button clears every score and starts again at level 1.

Files:

- `wrappers.dfy`: module `Wrappers`, an `Option` type for absent JSON properties.
- `rules.dfy`: module `QuizRules`, the pure arithmetic. It holds the `EXPECTED`
  table, the effective pass mark, the final percentage and the timer text
  `formatTime`. All of them are functions, with lemmas about them.
- `quiz.dfy`: module `Quiz`. The page's globals (`currentLevel`, `currentIndex`,
  `levelScore`, `perLevelScores`) are the fields of class `QuizRun`. A `phase`
  field says which screen is showing: before the first level, a question, a
  level summary (with its outcome) or the final summary. Each handler of the
  page is a method with a `modifies` clause: `startLevel`, `loadQuestion`,
  `checkAnswer`, the timer expiry, `completeLevel`, the level summary's
  primary button, `showFinalSummary` and the restart button. The `forEach`
  that totals the final summary is the loop of `Tally`. The object invariant
  `Valid()` holds between events. It says:
  - levels above the current one have score 0;
  - the current level's stored score equals `levelScore`;
  - `levelScore` counts the correct answers among the `currentIndex` questions
    dealt with so far;
  - no stored score exceeds its level's question count;
  - the phase agrees with the counters: a question shows only while
    `currentIndex` is below the level's length; a level summary or the final
    summary shows only once it has reached it, and before the first level the
    index is 0.

  A ghost field `responses` records what happened to each question of the
  current level run. It serves only to state what `levelScore` counts: the
  page itself keeps no attempt record.

## Modelling decisions

- The loaded subject is a `seq<seq<Question>>` with levels 1, 2 and 3 in
  order. `questionsByLevel["levelN"] || []` becomes `LevelQuestions`, which
  gives an empty level for a missing entry. A missing level and an empty level
  therefore behave alike, as they do on the page.
- `Question.correct` is an `Option<string>`. An option matches only when it
  equals `correct` character for character, as `===` requires. A question
  without `correct` matches nothing. Questions are never validated. A
  `correct` that is not a string in the JSON (say the number `4` against the
  options `"4"` and `"5"`) never equals an option under `===`, so the model
  encodes it as `None`; options are taken to be strings.
- An empty level is skipped, not failed: `startLevel` moves on to the next
  level, and past level 3 it shows the final summary. This happens even when
  all three levels are empty. `FirstNonEmpty` is the level the page lands on.
- A timeout advances without scoring and leaves no record.
- Every `setTimeout` callback (the 200 ms start, the 1000 ms and 1200 ms
  feedback pauses) takes effect at once. The load callback's `startLevel(1)`
  is `QuizRun.Begin`, called after the constructor.
- `Math.ceil(pass * (actualCount / expected))` becomes
  `CeilDiv(pass * actualCount, expected)`, and `Math.ceil(actualCount * 0.7)`
  becomes `CeilDiv(7 * actualCount, 10)`. These are exact integer ceilings.
  `Math.round(totalCorrect / totalQuestions * 100)` becomes the exact half-up
  rounding `(200 * correct + total) / (2 * total)`. This is what `Math.round`
  gives when the quotient is computed exactly; the page computes it in floating
  point (see "## Left out").
- No fallback rule is ever used by the page, because `currentLevel` is always
  1, 2 or 3. It is still modelled, through `RuleFor`.
- This code does not follow a cleaner engine design in several ways, and the
  model follows the code:
  - a timed-out question is not recorded;
  - an empty level produces no outcome;
  - questions are not checked for a `correct` among their `options`;
  - one primary button decides between proceed and retry, depending on the
    outcome;
  - scores of earlier levels stay in `perLevelScores` until restart;
  - no history of level outcomes is kept: the final summary is built only
    from `perLevelScores` and the level lengths;
  - there are no error results: for well-shaped question entries no handler
    of the page fails.
- `SkippedLevelRun` is a client of the class. It plays a subject whose level 2
  is empty, skips that level, and reaches a final summary of 3 out of 3
  (100%).

## Model

| member | source | states |
|---|---|---|
| QuizRules.Expected | quiz.js:8-12 | the table has an entry exactly for levels 1 to 3, and each entry has 0 < pass <= size |
| QuizRules.CeilDivIsCeiling | quiz.js:227 | the integer ceiling is the least integer at or above a / b |
| QuizRules.RuleForBounds | quiz.js:222-223 | the rule in force never has pass > size; without a table entry, size is the question count and pass is at least 70% of it |
| QuizRules.RequiredIsScaledCeiling | quiz.js:225-228 | a level shorter than its size needs the least integer, at least 1, that is at or above pass * count / size; any other level needs the configured pass mark |
| QuizRules.RequiredWithinLevel | quiz.js:225-228 | for every level and every non-empty question count, 1 <= effective pass mark <= question count |
| QuizRules.PerfectScorePasses | quiz.js:233 | a perfect score on a non-empty level always passes |
| QuizRules.RequiredAtMostPass | quiz.js:225-228 | scaling never raises the configured pass mark |
| QuizRules.RequiredMonotone | quiz.js:225-228 | a level with more questions never has a lower effective pass mark |
| QuizRules.ScalingExamples | quiz.js:221-233 | 30 questions on level 1 need 27 (27 passes, 26 fails); 1 question needs 1; 50 or 70 questions need 45; level 2 with 30 needs 28 |
| QuizRules.PercentIsRounded | quiz.js:352 | the percentage is 100 * correct / total rounded to the nearest integer, halves rounded up (the exact-arithmetic reading of `Math.round`) |
| QuizRules.PercentBounds | quiz.js:352 | when correct <= total, the percentage is at most 100; it is 100 when all are correct and 0 when none are |
| QuizRules.NatStringRoundTrip | quiz.js:185 | the decimal text of a number is non-empty digits, with no leading zero, that read back as the number; it is one character exactly below 10 |
| QuizRules.FormatTimeClock | quiz.js:184-186 | for every value the countdown shows (15 down to 0), the timer text is five characters "00:" plus two digits that read back as the seconds |
| QuizRules.RuleFor | quiz.js:222-223 | the size and pass mark in force: the table entry, else the count with pass ceil(0.7 * count); specified by RuleForBounds |
| QuizRules.Required | quiz.js:225-228 | the effective pass mark; specified by RequiredIsScaledCeiling, RequiredWithinLevel, RequiredAtMostPass and RequiredMonotone |
| QuizRules.Percent | quiz.js:352 | the overall percentage; specified by PercentIsRounded and PercentBounds |
| QuizRules.IntString | quiz.js:185 | the decimal text `${s}`; specified by NatStringRoundTrip |
| QuizRules.FormatTime | quiz.js:184-186 | the timer text; specified by FormatTimeClock |
| Quiz.Scores | quiz.js:195 | the strict `selected === correct` test; CountCorrectAll and the ensures of QuizRun.Answer state what it decides |
| Quiz.LevelQuestions | quiz.js:129 | `questionsByLevel[levelKey] \|\| []`: a missing level has no questions; used by Tally and FirstNonEmpty |
| Quiz.ScoreOf | quiz.js:333 | `perLevelScores[idx + 1] \|\| 0`: a missing score counts 0; specified with Tally |
| Quiz.Evaluate | quiz.js:226-242 | the level outcome, passed exactly when the score reaches Required; specified by AllCorrectPasses and QuizRun.CompleteLevel |
| Quiz.SummaryOf | quiz.js:327-352 | the final summary's totals and percentage; specified by SummaryBounds and Tally |
| Quiz.CountCorrect | quiz.js:195-196 | the number of scoring responses never exceeds the number of questions |
| Quiz.CountCorrectAll | quiz.js:195-196 | the count equals the number of questions exactly when every response is an answer equal to that question's correct |
| Quiz.AllCorrectPasses | quiz.js:195-233 | a level whose every question was answered correctly is judged passed |
| Quiz.DealKeepsRun | quiz.js:195-197 | dealing with one more question, answered or timed out, keeps the level-run invariant: the index moves on by one, and the score rises by one and is stored for the level exactly when the response is an answer equal to correct; otherwise the score table is unchanged |
| Quiz.StoreScore | quiz.js:197 | storing a score that fits its level keeps every stored score within its level's question count and leaves the other levels' entries unchanged |
| Quiz.FirstNonEmpty | quiz.js:113-119 | the level startLevel(n) lands on lies in n to 4; it holds questions when at most 3; every level from n up to it is empty |
| Quiz.TotalsBounded | quiz.js:330-335 | when each stored score fits its level, the summed scores of levels 1 to n never exceed the summed question counts |
| Quiz.SummaryBounds | quiz.js:326-352 | total correct <= total questions, percentage <= 100, and percentage 0 when there are no questions |
| Quiz.Tally | quiz.js:327-335 | the loop's totals are the sum of the three level lengths and the sum of the three stored scores (a missing score counts 0) |
| Quiz.QuizRun.constructor | quiz.js:14-19 | the globals start at level 1, index 0 and score 0, with per-level scores {1:0, 2:0, 3:0}, before any level is shown |
| Quiz.QuizRun.Begin | quiz.js:96-99 | once the subject is loaded, the run is started at level 1 |
| Quiz.QuizRun.StartLevel | quiz.js:107-122 | sets the level and zeroes index and score; lands on the first non-empty level from n showing a question, or on the final summary when levels n to 3 are empty; the stored scores are unchanged |
| Quiz.QuizRun.LoadQuestion | quiz.js:125-134 | completes the level exactly when the index has reached the level length, and otherwise shows the question at the index |
| Quiz.QuizRun.Timeout | quiz.js:165-179 | the index advances by exactly 1, both scores are unchanged, and the level completes exactly when the last question is passed |
| Quiz.QuizRun.Answer | quiz.js:189-214 | the index advances by exactly 1; the score rises by 1 exactly when the selection equals correct, and is stored for the current level; the level completes exactly when the index reaches the level length |
| Quiz.QuizRun.CompleteLevel | quiz.js:217-243 | the level summary's outcome has the level, the score, the question count, the effective pass mark, and passed exactly when score >= pass mark |
| Quiz.QuizRun.Proceed | quiz.js:282-298 | after a pass, goes to the next level below level 3, or else to the final summary, with scores kept; after a fail, zeroes the level's stored score and replays the same level, so a failed level never advances |
| Quiz.QuizRun.ShowFinalSummary | quiz.js:321-353 | the final summary holds the summed stored scores, the summed question counts and the rounded percentage (0 for no questions) |
| Quiz.QuizRun.Restart | quiz.js:373-377 | all three stored scores become 0 and the run starts again at level 1 |

## Left out

- DOM and presentation are not modelled. This covers element lookup, question
  and option rendering, the progress bar, emoji feedback, CSS injection, and
  building and removing the modals. Apart from the countdown (below), the only
  state left out is what the screen shows.
- Sounds (`playSound` and the `Audio` objects) are not modelled: they are
  browser media calls with no effect on the state.
- Loading is not modelled: the `questions.json` fetch, the `subject` URL
  parameter and the error messages are I/O. The model is given the loaded
  subject.
- The countdown is not modelled: neither its `remaining` seconds nor the
  `timerInterval` handle, nor the `setInterval` ticks. Expiry is the
  `Timeout` method, called by the environment. Overlapping or stale callbacks
  are not modelled either, such as a click arriving during the feedback pause
  or a timer firing after an answer. Each event is taken to act on the
  question on screen.
- Option shuffling (`shuffleArray`, `Math.random`) is not modelled, because
  the order of options does not affect scoring.
- The floating-point `Math.round` at quiz.js:352 is modelled as exact half-up
  rounding. In floating point, `(totalCorrect / totalQuestions) * 100` can land
  just below an exact half, and the page then rounds down where the model
  rounds up: 46 correct of 80 gives `57.49999999999999`, so the page shows 57%
  where `Percent(46, 80)` is 58, and 57 of 200 shows 28% where the model gives
  29. The first run is reachable: level 1 holding 80 questions, the other
  levels empty, and 46 answered correctly passes, because at or above its
  size of 50 the pass mark stays 45. That divergence is not modelled. The
  floating-point `Math.ceil(pass * (actualCount / expected))` does not diverge
  from the exact ceiling for the three configured levels at any count below
  their size, and the 70% fallback is never used by the page.
- "Back to Subjects", the close button and the final summary's subjects
  button are not modelled. They only navigate away or hide the modal, with no
  change to the quiz state.
- The commented-out older quiz variant at the end of `quiz.js` is not part of
  this model: it is dead code.
- `service-worker.js` (Cache API handlers) and `script.js` (menu toggling,
  footer fetch, service-worker registration) are not part of this model. They
  are caching and page plumbing.
- Quiz.QuizRun.Valid: states that the score table has entries 1, 2 and 3, not
  that these are its only keys. No handler adds another key.
- QuizRules.FormatTimeClock: is proved only for the seconds the countdown
  shows (0 to 15). `FormatTime` itself follows the source for every integer
  of magnitude below 10^21, including the `00:0-1` text a negative value would
  give; larger magnitudes print in exponent form in the page and are not
  modelled.
- Malformed question entries are not modelled. A `null` entry in a level, or
  an `options` value that is not an array, makes the page throw while loading
  that question (`q.question` or `sort` on a non-array), and the run is left
  stuck. The model's questions are always well-shaped records.
- Quiz.QuizRun.Answer: does not require the selection to be one of the
  question's options. Scoring depends only on equality with `correct`.
