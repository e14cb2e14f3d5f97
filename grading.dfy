/** The activity lifecycle as values: the partial updates that mark an
    activity viewed or graded, the grade arithmetic, and the filter behind
    the progress report (firestoreService.ts, markActivityAsViewed,
    gradeActivity, getChildProgress). */
module Grading {
  import opened Results
  import opened Types

  /** `correct` out of `total` as a percentage; the source divides first and
      then multiplies by 100. */
  function Percentage(correct: int, total: nat): (p: real)
    requires total > 0
    ensures p * (total as real) == 100.0 * (correct as real)
    ensures 0 <= correct <= total ==> 0.0 <= p <= 100.0
    ensures correct == total ==> p == 100.0
  {
    (correct as real / total as real) * 100.0
  }

  /** The score triple of a graded activity. */
  function GradeScore(mathCorrect: int, mathTotal: nat, readingCorrect: int, readingTotal: nat): (s: Score)
    requires mathTotal > 0 && readingTotal > 0
    ensures s.math * (mathTotal as real) == 100.0 * (mathCorrect as real)
    ensures s.reading * (readingTotal as real) == 100.0 * (readingCorrect as real)
    ensures s.overall == (s.math + s.reading) / 2.0
    ensures 0 <= mathCorrect <= mathTotal && 0 <= readingCorrect <= readingTotal ==>
      0.0 <= s.math <= 100.0 && 0.0 <= s.reading <= 100.0 && 0.0 <= s.overall <= 100.0
  {
    var math := Percentage(mathCorrect, mathTotal);
    var reading := Percentage(readingCorrect, readingTotal);
    Score(math, reading, (math + reading) / 2.0)
  }

  /** Ten questions of each kind with 8 and 6 correct grade as 80/60/70. */
  lemma GradeScoreExample()
    ensures GradeScore(8, 10, 6, 10) == Score(80.0, 60.0, 70.0)
  {
  }

  predicate HasQuestions(a: DailyActivity)
  {
    |a.mathQuestions| > 0 && |a.readingQuestions| > 0
  }

  /** The merge-update of gradeActivity: status graded, the score computed
      from the two counts, every other field kept. */
  function GradedActivity(a: DailyActivity, mathCorrect: int, readingCorrect: int): (r: DailyActivity)
    requires HasQuestions(a)
    ensures r.status == Graded
    ensures r.score == Some(GradeScore(mathCorrect, |a.mathQuestions|, readingCorrect, |a.readingQuestions|))
    ensures r.(status := a.status, score := a.score) == a
  {
    a.(status := Graded,
       score := Some(GradeScore(mathCorrect, |a.mathQuestions|, readingCorrect, |a.readingQuestions|)))
  }

  /** The partial update of markActivityAsViewed: only the status changes. */
  function MarkedViewed(a: DailyActivity): (r: DailyActivity)
    ensures r.status == Viewed
    ensures r.(status := a.status) == a
  {
    a.(status := Viewed)
  }

  /** A score is present on every graded activity and on no pending one, and
      its overall part is the mean of the other two. */
  predicate ScoreConsistent(a: DailyActivity)
  {
    && (a.status == Graded ==> a.score.Some?)
    && (a.status == Pending ==> a.score.None?)
    && (a.score.Some? ==> a.score.value.overall == (a.score.value.math + a.score.value.reading) / 2.0)
  }

  /** Both updates keep the score consistent with the status. */
  lemma UpdatesKeepScoreConsistent(a: DailyActivity, mathCorrect: int, readingCorrect: int)
    requires ScoreConsistent(a)
    ensures ScoreConsistent(MarkedViewed(a))
    ensures HasQuestions(a) ==> ScoreConsistent(GradedActivity(a, mathCorrect, readingCorrect))
  {
  }

  /** Grading always moves the status forward. Marking as viewed moves it
      forward, or keeps it, exactly when the activity is not yet graded: the
      operation itself does not check, so forward-only status depends on the
      caller refusing to mark a graded activity. */
  lemma StatusForwardOnly(a: DailyActivity, mathCorrect: int, readingCorrect: int)
    ensures StatusRank(a.status) <= StatusRank(MarkedViewed(a).status) <==> a.status != Graded
    ensures a.status == Pending ==> StatusRank(a.status) < StatusRank(MarkedViewed(a).status)
    ensures HasQuestions(a) ==>
      StatusRank(a.status) <= StatusRank(GradedActivity(a, mathCorrect, readingCorrect).status)
  {
  }

  /** The activities whose status is not pending, in their original order. */
  function CompletedActivities(h: seq<DailyActivity>): (r: seq<DailyActivity>)
    ensures forall a :: a in r <==> a in h && a.status != Pending
    ensures |r| <= |h|
    decreases |h|
  {
    if h == [] then []
    else (if h[0].status != Pending then [h[0]] else []) + CompletedActivities(h[1..])
  }

  /** Filtering distributes over concatenation, so the relative order of the
      kept activities is that of the input. */
  lemma {:induction false} CompletedActivitiesAppend(h1: seq<DailyActivity>, h2: seq<DailyActivity>)
    ensures CompletedActivities(h1 + h2) == CompletedActivities(h1) + CompletedActivities(h2)
    decreases |h1|
  {
    if h1 == [] {
      assert h1 + h2 == h2;
    } else {
      assert (h1 + h2)[1..] == h1[1..] + h2;
      CompletedActivitiesAppend(h1[1..], h2);
    }
  }
}
