/** The activity lifecycle and the parent records over a key-value store
    (src/services/firestoreService.ts). The two collections are maps held by
    one object; each operation reads and then writes them in one step, as
    the transactions of the source do. */
module FirestoreService {
  import opened Results
  import opened Types
  import opened DateOrder
  import opened AdaptiveDifficulty
  import opened Grading
  import opened Documents
  import opened SpellingHistory

  /** The document id of a child's activity on a date: `childId_date`. */
  function ActivityId(childId: string, date: string): string
  {
    childId + "_" + date
  }

  /** Every stored activity sits under its own id, that id is
      `childId_date`, and its score agrees with its status. */
  ghost predicate ValidActivities(acts: map<string, DailyActivity>)
  {
    forall k :: k in acts ==>
      && acts[k].id == k
      && k == ActivityId(acts[k].childId, acts[k].date)
      && ScoreConsistent(acts[k])
  }

  /** `h` lists every stored activity of the child once, and nothing else
      (the answer to the query on `childId`). */
  ghost predicate IsChildHistory(h: seq<DailyActivity>, acts: map<string, DailyActivity>, childId: string)
  {
    && (forall i :: 0 <= i < |h| ==> h[i].id in acts && acts[h[i].id] == h[i] && h[i].childId == childId)
    && (forall k :: k in acts && acts[k].childId == childId ==> acts[k] in h)
    && (forall i, j :: 0 <= i < j < |h| ==> h[i].id != h[j].id)
  }

  /** One child has at most one activity per date. */
  lemma ChildHistoryDatesDistinct(acts: map<string, DailyActivity>, childId: string, h: seq<DailyActivity>)
    requires ValidActivities(acts) && IsChildHistory(h, acts, childId)
    ensures forall i, j :: 0 <= i < |h| && 0 <= j < |h| && h[i].date == h[j].date ==> i == j
    ensures GradedDatesDistinct(h)
  {
    forall i, j | 0 <= i < |h| && 0 <= j < |h| && h[i].date == h[j].date
      ensures i == j
    {
      assert h[i].id == ActivityId(childId, h[i].date) == h[j].id;
    }
  }

  /** The next difficulty is a function of the store: any two listings of a
      child's activities yield the same one. */
  lemma DifficultyDeterminedByStore(acts: map<string, DailyActivity>, childId: string,
                                    h1: seq<DailyActivity>, h2: seq<DailyActivity>)
    requires ValidActivities(acts)
    requires IsChildHistory(h1, acts, childId) && IsChildHistory(h2, acts, childId)
    ensures DetermineNextDifficulty(h1) == DetermineNextDifficulty(h2)
  {
    ChildHistoryDatesDistinct(acts, childId, h1);
    forall a ensures a in h1 <==> a in h2 {
      if a in h1 {
        var i :| 0 <= i < |h1| && h1[i] == a;
        assert acts[a.id] == a;
      }
      if a in h2 {
        var i :| 0 <= i < |h2| && h2[i] == a;
        assert acts[a.id] == a;
      }
    }
    NextDifficultyIndependentOfOrder(h1, h2);
  }

  /** The activity created for a child on a day from generated content. */
  function NewActivity(childId: string, today: string, c: Content): DailyActivity
  {
    DailyActivity(ActivityId(childId, today), childId, today,
                  c.mathQuestions, c.readingPassage, c.readingQuestions, Pending, None)
  }

  /** A new activity may be stored under its id without breaking the store's
      invariant. */
  lemma NewActivityValid(acts: map<string, DailyActivity>, childId: string, today: string, c: Content)
    requires ValidActivities(acts)
    ensures ValidActivities(acts[ActivityId(childId, today) := NewActivity(childId, today, c)])
  {
  }

  /** Same children, same ids at the same positions: same lookup. */
  lemma {:induction false} FindChildSameIds(cs1: seq<Child>, cs2: seq<Child>, childId: string)
    requires |cs1| == |cs2|
    requires forall i :: 0 <= i < |cs1| ==> cs1[i].id == cs2[i].id
    ensures FindChild(cs1, childId) == FindChild(cs2, childId)
    decreases |cs1|
  {
    if cs1 != [] && cs1[0].id != childId {
      FindChildSameIds(cs1[1..], cs2[1..], childId);
    }
  }

  /** The parent document exists and lists a child with this id. */
  predicate ChildExists(parents: map<string, ParentDoc>, parentId: string, childId: string)
  {
    parentId in parents && FindChild(NormalizeParent(parentId, parents[parentId]).children, childId).Some?
  }

  /** What saveSpellingResult does to the parent documents. */
  function SavedSpelling(parents: map<string, ParentDoc>, parentId: string, childId: string,
                         result: SpellingResult): (r: Result<map<string, ParentDoc>, StoreError>)
    ensures r.Ok? <==> ChildExists(parents, parentId, childId)
    ensures parentId !in parents ==> r == Err(ParentNotFound)
    ensures parentId in parents && !ChildExists(parents, parentId, childId) ==> r == Err(ChildNotFound)
    ensures r.Ok? ==> r.value.Keys == parents.Keys
    ensures r.Ok? ==> forall k :: k in parents && k != parentId ==> r.value[k] == parents[k]
  {
    if parentId !in parents then Err(ParentNotFound)
    else
      var doc := parents[parentId];
      var p := NormalizeParent(parentId, doc);
      match FindChild(p.children, childId)
      case None => Err(ChildNotFound)
      case Some(i) =>
        Ok(parents[parentId := doc.(children := Some(ChildDocsOf(WithResultPrepended(p.children, i, result))))])
  }

  /** What getSpellingProgress reads: the child's history newest first, or
      nothing when the parent or the child is missing. */
  function SpellingProgressOf(parents: map<string, ParentDoc>, parentId: string, childId: string): seq<SpellingResult>
  {
    if parentId !in parents then []
    else
      var p := NormalizeParent(parentId, parents[parentId]);
      match FindChild(p.children, childId)
      case None => []
      case Some(i) => SortNewestFirst(p.children[i].spellingProgress)
  }

  /** The spelling progress is empty for a missing parent or child, and is
      otherwise the stored history, newest first. */
  lemma SpellingProgressSpec(parents: map<string, ParentDoc>, parentId: string, childId: string)
    ensures parentId !in parents ==> SpellingProgressOf(parents, parentId, childId) == []
    ensures parentId in parents ==>
      var p := NormalizeParent(parentId, parents[parentId]);
      && (FindChild(p.children, childId).None? ==> SpellingProgressOf(parents, parentId, childId) == [])
      && (FindChild(p.children, childId).Some? ==>
            var i := FindChild(p.children, childId).value;
            multiset(SpellingProgressOf(parents, parentId, childId)) == multiset(p.children[i].spellingProgress))
    ensures NewestFirst(SpellingProgressOf(parents, parentId, childId))
  {
    if parentId in parents {
      var p := NormalizeParent(parentId, parents[parentId]);
      if FindChild(p.children, childId).Some? {
        SortNewestFirstSpec(p.children[FindChild(p.children, childId).value].spellingProgress);
      }
    }
  }

  /** The stored history of the child that a save targets. */
  function TargetHistory(parents: map<string, ParentDoc>, parentId: string, childId: string): seq<SpellingResult>
    requires ChildExists(parents, parentId, childId)
  {
    var p := NormalizeParent(parentId, parents[parentId]);
    p.children[FindChild(p.children, childId).value].spellingProgress
  }

  /** Before and after a successful save, the child's progress is its stored
      history, and that history with the new result in front, sorted. */
  lemma SavedProgress(parents: map<string, ParentDoc>, parentId: string, childId: string, result: SpellingResult)
    requires ChildExists(parents, parentId, childId)
    ensures SpellingProgressOf(parents, parentId, childId) == SortNewestFirst(TargetHistory(parents, parentId, childId))
    ensures SpellingProgressOf(SavedSpelling(parents, parentId, childId, result).value, parentId, childId)
      == SortNewestFirst([result] + TargetHistory(parents, parentId, childId))
  {
    var after := SavedSpelling(parents, parentId, childId, result).value;
    var doc := parents[parentId];
    var p := NormalizeParent(parentId, doc);
    var i := FindChild(p.children, childId).value;
    var cs := WithResultPrepended(p.children, i, result);
    ReadAfterWriteChildren(parentId, doc, cs);
    assert NormalizeParent(parentId, after[parentId]).children == cs;
    FindChildSameIds(p.children, cs, childId);
  }

  /** A successful save adds the new result to the child's progress and
      removes nothing. */
  lemma SaveAddsResult(parents: map<string, ParentDoc>, parentId: string, childId: string, result: SpellingResult)
    requires ChildExists(parents, parentId, childId)
    ensures multiset(SpellingProgressOf(SavedSpelling(parents, parentId, childId, result).value, parentId, childId))
      == multiset(SpellingProgressOf(parents, parentId, childId)) + multiset{result}
  {
    SavedProgress(parents, parentId, childId, result);
    var h := TargetHistory(parents, parentId, childId);
    SortNewestFirstSpec(h);
    SortNewestFirstSpec([result] + h);
  }

  /** A result at least as recent as everything stored is shown first, in
      front of the progress shown before. */
  lemma SaveLatestShownFirst(parents: map<string, ParentDoc>, parentId: string, childId: string, result: SpellingResult)
    requires ChildExists(parents, parentId, childId)
    requires forall y :: y in SpellingProgressOf(parents, parentId, childId) ==> y.timestamp <= result.timestamp
    ensures SpellingProgressOf(SavedSpelling(parents, parentId, childId, result).value, parentId, childId)
      == [result] + SpellingProgressOf(parents, parentId, childId)
  {
    SavedProgress(parents, parentId, childId, result);
    var h := TargetHistory(parents, parentId, childId);
    SortNewestFirstSpec(h);
    forall y | y in h ensures y.timestamp <= result.timestamp {
      assert y in multiset(h);
      assert y in multiset(SortNewestFirst(h));
    }
    SortNewestFirstPrependLatest(result, h);
  }

  /** A save touches only the one parent document. */
  lemma SaveTouchesOneParent(parents: map<string, ParentDoc>, parentId: string, childId: string,
                             result: SpellingResult, otherParent: string, otherChild: string)
    requires ChildExists(parents, parentId, childId)
    requires otherParent != parentId
    ensures SpellingProgressOf(SavedSpelling(parents, parentId, childId, result).value, otherParent, otherChild)
      == SpellingProgressOf(parents, otherParent, otherChild)
  {
  }

  class Store {
    var activities: map<string, DailyActivity>
    var parents: map<string, ParentDoc>
    /** How many times the content source has been asked for an activity. */
    ghost var generations: nat

    ghost predicate Valid()
      reads this
    {
      ValidActivities(activities)
    }

    constructor (initialActivities: map<string, DailyActivity>, initialParents: map<string, ParentDoc>)
      requires ValidActivities(initialActivities)
      ensures Valid()
      ensures activities == initialActivities && parents == initialParents && generations == 0
    {
      activities := initialActivities;
      parents := initialParents;
      generations := 0;
    }

    /** The activities of one child (fetchChildActivities), in the order the
        store yields them. */
    method ChildActivities(childId: string) returns (h: seq<DailyActivity>)
      requires Valid()
      ensures IsChildHistory(h, activities, childId)
    {
      var keys := activities.Keys;
      h := [];
      while keys != {}
        invariant keys <= activities.Keys
        invariant forall i :: 0 <= i < |h| ==>
          h[i].id in activities && activities[h[i].id] == h[i] && h[i].childId == childId && h[i].id !in keys
        invariant forall k :: k in activities && k !in keys && activities[k].childId == childId ==> activities[k] in h
        invariant forall i, j :: 0 <= i < j < |h| ==> h[i].id != h[j].id
        decreases keys
      {
        var k :| k in keys;
        keys := keys - {k};
        if activities[k].childId == childId {
          h := h + [activities[k]];
        }
      }
    }

    /** Today's activity of the child: the stored one if there is one,
        otherwise a new pending activity built from content generated at the
        difficulty the child's history calls for. */
    method GetDailyActivity(child: Child, today: string, generate: (string, Difficulty) -> Result<Content, string>)
      returns (r: Result<DailyActivity, StoreError>, ghost history: seq<DailyActivity>)
      requires Valid()
      modifies this
      ensures Valid() && parents == old(parents)
      ensures ActivityId(child.id, today) in old(activities) ==>
        && r == Ok(old(activities)[ActivityId(child.id, today)])
        && activities == old(activities)
        && generations == old(generations)
      ensures ActivityId(child.id, today) !in old(activities) ==>
        && IsChildHistory(history, old(activities), child.id)
        && generations == old(generations) + 1
        && match generate(child.gradeLevel, DetermineNextDifficulty(history))
           case Err(message) =>
             r == Err(ContentGenerationFailed(message)) && activities == old(activities)
           case Ok(c) =>
             && r == Ok(NewActivity(child.id, today, c))
             && activities == old(activities)[ActivityId(child.id, today) := NewActivity(child.id, today, c)]
    {
      var activityId := ActivityId(child.id, today);
      history := [];
      if activityId in activities {
        return Ok(activities[activityId]), history;
      }
      var previous := ChildActivities(child.id);
      history := previous;
      var difficulty := DetermineNextDifficulty(previous);
      generations := generations + 1;
      var content := generate(child.gradeLevel, difficulty);
      match content {
        case Err(message) =>
          r := Err(ContentGenerationFailed(message));
        case Ok(c) =>
          var newActivity := DailyActivity(activityId, child.id, today,
                                           c.mathQuestions, c.readingPassage, c.readingQuestions,
                                           Pending, None);
          NewActivityValid(activities, child.id, today, c);
          activities := activities[activityId := newActivity];
          r := Ok(newActivity);
      }
    }

    /** Sets the status to viewed, whatever it was; a missing activity is an
        error and changes nothing. */
    method MarkActivityAsViewed(activityId: string) returns (r: Outcome<StoreError>)
      requires Valid()
      modifies this
      ensures Valid() && parents == old(parents) && generations == old(generations)
      ensures activityId !in old(activities) ==> r == Fail(DocumentNotFound) && activities == old(activities)
      ensures activityId in old(activities) ==>
        r == Pass && activities == old(activities)[activityId := MarkedViewed(old(activities)[activityId])]
    {
      if activityId !in activities {
        return Fail(DocumentNotFound);
      }
      UpdatesKeepScoreConsistent(activities[activityId], 0, 0);
      activities := activities[activityId := activities[activityId].(status := Viewed)];
      r := Pass;
    }

    /** Grades an activity from the two counts of correct answers, merging the
        score and the graded status into the stored record and returning it. */
    method GradeActivity(activityId: string, mathCorrect: int, readingCorrect: int)
      returns (r: Result<DailyActivity, StoreError>)
      requires Valid()
      requires activityId in activities ==> HasQuestions(activities[activityId])
      modifies this
      ensures Valid() && parents == old(parents) && generations == old(generations)
      ensures activityId !in old(activities) ==> r == Err(ActivityNotFound) && activities == old(activities)
      ensures activityId in old(activities) ==>
        && r == Ok(GradedActivity(old(activities)[activityId], mathCorrect, readingCorrect))
        && activities == old(activities)[activityId := r.value]
    {
      if activityId !in activities {
        return Err(ActivityNotFound);
      }
      var activity := activities[activityId];
      var mathScore := Percentage(mathCorrect, |activity.mathQuestions|);
      var readingScore := Percentage(readingCorrect, |activity.readingQuestions|);
      var updated := activity.(status := Graded,
                               score := Some(Score(mathScore, readingScore, (mathScore + readingScore) / 2.0)));
      UpdatesKeepScoreConsistent(activity, mathCorrect, readingCorrect);
      activities := activities[activityId := updated];
      r := Ok(updated);
    }

    /** The child's activities that are viewed or graded. */
    method GetChildProgress(childId: string) returns (r: seq<DailyActivity>, ghost history: seq<DailyActivity>)
      requires Valid()
      ensures IsChildHistory(history, activities, childId) && r == CompletedActivities(history)
      ensures forall a :: a in r <==> a in activities.Values && a.childId == childId && a.status != Pending
    {
      var activities := ChildActivities(childId);
      history := activities;
      r := CompletedActivities(activities);
      forall a | a in this.activities.Values && a.childId == childId
        ensures a in history
      {
        var k :| k in this.activities && this.activities[k] == a;
      }
    }

    /** Puts a result stamped `timestamp` at the front of the child's
        spelling history inside the parent's record. */
    method SaveSpellingResult(parentId: string, childId: string, words: seq<string>, score: real, timestamp: int)
      returns (r: Outcome<StoreError>)
      requires Valid()
      modifies this
      ensures Valid() && activities == old(activities) && generations == old(generations)
      ensures match SavedSpelling(old(parents), parentId, childId, SpellingResult(words, score, timestamp))
        case Err(e) => r == Fail(e) && parents == old(parents)
        case Ok(m) => r == Pass && parents == m
      ensures r == Pass ==>
        NormalizeParent(parentId, parents[parentId]).children
          == WithResultPrepended(NormalizeParent(parentId, old(parents)[parentId]).children,
                                 FindChild(NormalizeParent(parentId, old(parents)[parentId]).children, childId).value,
                                 SpellingResult(words, score, timestamp))
    {
      if parentId !in parents {
        return Fail(ParentNotFound);
      }
      var doc := parents[parentId];
      var parent := NormalizeParent(parentId, doc);
      var childIndex := FindChild(parent.children, childId);
      if childIndex.None? {
        return Fail(ChildNotFound);
      }
      var i := childIndex.value;
      var newResult := SpellingResult(words, score, timestamp);
      var updatedChildren := parent.children;
      var targetChild := updatedChildren[i];
      targetChild := targetChild.(spellingProgress := [newResult] + targetChild.spellingProgress);
      updatedChildren := updatedChildren[i := targetChild];
      parents := parents[parentId := doc.(children := Some(ChildDocsOf(updatedChildren)))];
      ReadAfterWriteChildren(parentId, doc, updatedChildren);
      r := Pass;
    }

    /** Appends a new child with an empty spelling history to the parent's
        list and returns the updated parent. */
    method AddChild(parentId: string, name: string, gradeLevel: string, avatar: string, newId: string)
      returns (r: Result<Parent, StoreError>)
      requires Valid()
      modifies this
      ensures Valid() && activities == old(activities) && generations == old(generations)
      ensures parentId !in old(parents) ==> r == Err(ParentNotFound) && parents == old(parents)
      ensures parentId in old(parents) ==>
        var doc := old(parents)[parentId];
        var p := NormalizeParent(parentId, doc);
        var updated := p.children + [Child(newId, name, gradeLevel, avatar, [])];
        && r == Ok(p.(children := updated))
        && parents == old(parents)[parentId := doc.(children := Some(ChildDocsOf(updated)))]
      ensures r.Ok? ==> NormalizeParent(parentId, parents[parentId]) == r.value
    {
      if parentId !in parents {
        return Err(ParentNotFound);
      }
      var doc := parents[parentId];
      var parent := NormalizeParent(parentId, doc);
      var newChild := Child(newId, name, gradeLevel, avatar, []);
      var updatedChildren := parent.children + [newChild];
      parents := parents[parentId := doc.(children := Some(ChildDocsOf(updatedChildren)))];
      ReadAfterWriteChildren(parentId, doc, updatedChildren);
      r := Ok(parent.(children := updatedChildren));
    }
  }

  /** Asking twice on the same day returns the same activity, and content is
      generated at most once. */
  method GetDailyActivityTwice(store: Store, child: Child, today: string,
                               generate: (string, Difficulty) -> Result<Content, string>)
    returns (first: Result<DailyActivity, StoreError>, second: Result<DailyActivity, StoreError>)
    requires store.Valid()
    modifies store
    ensures store.Valid()
    ensures first.Ok? ==> second == first && store.generations <= old(store.generations) + 1
  {
    ghost var h;
    first, h := store.GetDailyActivity(child, today, generate);
    second, h := store.GetDailyActivity(child, today, generate);
  }
}
