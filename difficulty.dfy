/** Adaptive difficulty: the next day's difficulty follows the overall
    score of the most recent graded activity (firestoreService.ts,
    determineNextDifficulty). */
module AdaptiveDifficulty {
  import opened Results
  import opened Types
  import opened DateOrder

  /** `h[i]` is what the source picks: the head of the graded activities of
      `h` after a stable sort on date, newest first. So it is graded, no
      graded activity is later, and every graded activity before it in `h`
      is strictly earlier. */
  ghost predicate IsLatestGraded(h: seq<DailyActivity>, i: nat)
  {
    && i < |h|
    && h[i].status == Graded
    && (forall j :: 0 <= j < |h| && h[j].status == Graded ==> DateLe(h[j].date, h[i].date))
    && (forall j :: 0 <= j < i && h[j].status == Graded ==> !DateLe(h[i].date, h[j].date))
  }

  /** Index of the latest graded activity, if any activity is graded. */
  function LatestGraded(h: seq<DailyActivity>): Option<nat>
    decreases |h|
  {
    if h == [] then None
    else
      var rest := LatestGraded(h[1..]);
      if h[0].status == Graded && (rest.None? || (1 + rest.value < |h| && DateLe(h[1 + rest.value].date, h[0].date)))
      then Some(0)
      else if rest.None? then None
      else Some(1 + rest.value)
  }

  /** LatestGraded finds nothing exactly when nothing is graded, and
      otherwise finds the activity the stable newest-first sort puts first. */
  lemma {:induction false} LatestGradedSpec(h: seq<DailyActivity>)
    ensures LatestGraded(h).None? <==> forall j :: 0 <= j < |h| ==> h[j].status != Graded
    ensures LatestGraded(h).Some? ==> IsLatestGraded(h, LatestGraded(h).value)
    decreases |h|
  {
    if h != [] {
      var t := h[1..];
      LatestGradedSpec(t);
      var rest := LatestGraded(t);
      assert forall j :: 1 <= j < |h| ==> h[j] == t[j - 1];
      if h[0].status == Graded && (rest.None? || DateLe(h[1 + rest.value].date, h[0].date)) {
        assert LatestGraded(h) == Some(0);
        DateLeReflexive(h[0].date);
        forall j | 0 <= j < |h| && h[j].status == Graded
          ensures DateLe(h[j].date, h[0].date)
        {
          if j > 0 {
            assert t[j - 1].status == Graded;
            DateLeTransitive(h[j].date, h[1 + rest.value].date, h[0].date);
          }
        }
      } else if rest.None? {
        assert LatestGraded(h) == None;
        forall j | 0 <= j < |h| ensures h[j].status != Graded {
          if j > 0 { assert t[j - 1].status != Graded; }
        }
      } else {
        var i := 1 + rest.value;
        assert LatestGraded(h) == Some(i);
        assert h[i] == t[rest.value];
        if h[0].status == Graded {
          DateLeTotal(h[0].date, h[i].date);
        }
        forall j | 0 <= j < |h| && h[j].status == Graded
          ensures DateLe(h[j].date, h[i].date)
        {
          if j > 0 { assert t[j - 1].status == Graded; }
        }
        forall j | 0 <= j < i && h[j].status == Graded
          ensures !DateLe(h[i].date, h[j].date)
        {
          if j > 0 { assert t[j - 1].status == Graded; }
        }
      }
    }
  }

  /** At most one index is the latest graded one. */
  lemma LatestGradedUnique(h: seq<DailyActivity>, i: nat, k: nat)
    requires IsLatestGraded(h, i) && IsLatestGraded(h, k)
    ensures i == k
  {
  }

  /** The step function from an overall percentage to a difficulty. */
  function DifficultyFor(overall: real): Difficulty
  {
    if overall >= 80.0 then Hard
    else if overall >= 50.0 then Medium
    else Easy
  }

  /** A higher overall score never yields an easier difficulty. */
  lemma DifficultyForMonotone(x: real, y: real)
    requires x <= y
    ensures DifficultyRank(DifficultyFor(x)) <= DifficultyRank(DifficultyFor(y))
  {
  }

  /** The three bands: at least 80 is Hard, [50, 80) is Medium, below 50 is Easy. */
  lemma DifficultyForBands(overall: real)
    ensures DifficultyFor(overall) == Hard <==> 80.0 <= overall
    ensures DifficultyFor(overall) == Medium <==> 50.0 <= overall < 80.0
    ensures DifficultyFor(overall) == Easy <==> overall < 50.0
  {
  }

  function DetermineNextDifficulty(h: seq<DailyActivity>): Difficulty
  {
    if |h| == 0 then Easy
    else match LatestGraded(h)
      case None => Easy
      case Some(i) =>
        if i < |h| && h[i].score.Some? then DifficultyFor(h[i].score.value.overall) else Easy
  }

  /** Easy for an empty history, for a history with nothing graded, and when
      the latest graded activity carries no score; otherwise the band of the
      latest graded activity's overall score. */
  lemma NextDifficultySpec(h: seq<DailyActivity>)
    ensures (forall j :: 0 <= j < |h| ==> h[j].status != Graded) ==> DetermineNextDifficulty(h) == Easy
    ensures forall i: nat :: IsLatestGraded(h, i) ==>
      DetermineNextDifficulty(h) ==
        (if h[i].score.None? then Easy else DifficultyFor(h[i].score.value.overall))
  {
    LatestGradedSpec(h);
    forall i: nat | IsLatestGraded(h, i)
      ensures DetermineNextDifficulty(h) ==
        (if h[i].score.None? then Easy else DifficultyFor(h[i].score.value.overall))
    {
      LatestGradedUnique(h, i, LatestGraded(h).value);
    }
  }

  /** Graded activities of `h` that share a date are the same activity. */
  ghost predicate GradedDatesDistinct(h: seq<DailyActivity>)
  {
    forall i, j ::
      (0 <= i < |h| && 0 <= j < |h| && h[i].status == Graded && h[j].status == Graded
       && h[i].date == h[j].date) ==> h[i] == h[j]
  }

  /** The order in which the history is listed does not matter: two listings
      of the same activities give the same difficulty, as long as no two
      graded activities share a date. */
  lemma NextDifficultyIndependentOfOrder(h1: seq<DailyActivity>, h2: seq<DailyActivity>)
    requires forall a :: a in h1 <==> a in h2
    requires GradedDatesDistinct(h1)
    ensures DetermineNextDifficulty(h1) == DetermineNextDifficulty(h2)
  {
    LatestGradedSpec(h1);
    LatestGradedSpec(h2);
    assert |h1| > 0 ==> h1[0] in h2;
    assert |h2| > 0 ==> h2[0] in h1;
    var r1, r2 := LatestGraded(h1), LatestGraded(h2);
    if r1.Some? {
      assert h1[r1.value] in h2;
    }
    if r2.Some? {
      assert h2[r2.value] in h1;
    }
    if r1.Some? && r2.Some? {
      var i, k := r1.value, r2.value;
      var i' :| 0 <= i' < |h1| && h1[i'] == h2[k];
      assert DateLe(h1[i].date, h2[k].date);
      assert DateLe(h2[k].date, h1[i].date);
      DateLeAntisymmetric(h1[i].date, h2[k].date);
      assert h1[i] == h1[i'];
    }
  }
}
