# Learning Adventure — a verified model of the activity store and the spelling practice

Learning Adventure is a web application in which a parent signs in, adds
children, and each child gets one generated activity per day (math questions,
a reading passage with questions) and can practise spelling by voice. This
project models, in Dafny, the two parts of the application that hold its
logic:

* **The store service** (`src/services/firestoreService.ts`). Two document
  collections — activities keyed by `childId_date`, and parent documents that
  embed their children and each child's spelling history — are two maps held
  by one `Store` object. Each service call is a method on it: fetch or create
  today's activity (choosing its difficulty from the latest graded one), mark
  it viewed, grade it, list a child's completed activities, save a spelling
  result, read the spelling history newest first, add a child. The lenient
  reading of parent documents (`normalizeParent`/`normalizeChild`, which turn
  a missing array into an empty one) is a pure function over a document type
  whose array fields are optional. Errors the service throws become a
  `StoreError`; the content generator is a function parameter that may fail.
* **The spelling practice screen** (`src/components/SpellingPracticeView.tsx`).
  A `PracticeSession` object holds the screen's state (status, word index,
  correct count, verdict, error) and has one method per event: the "Hear Word"
  button, the end of an utterance, the recognition's start, end, error and
  result events, the move to the next word, and the save of the final score.
  The transcript normaliser (lower-case, keep only `a`–`z`) and the
  comparison with the target word are pure functions. A recognition error ends the
  run: the screen shows the message with only a Back button, nothing clears
  it, and nothing is saved. In the model every event keeps the message, and
  hearing a word requires that there is none, so no further word is heard.

Modules: `Results` (Option/Result/Outcome), `Types` (the records of
`src/types.ts`), `DateOrder` (date strings compared character by character),
`AdaptiveDifficulty`, `Grading`, `Documents` (stored parent/child documents),
`SpellingHistory` (the newest-first sort), `FirestoreService` (the `Store`
class and the spelling-save specification), `Transcript`, `SpellingPractice`.

What is proved, in short:

* The next difficulty is Easy with no graded activity, otherwise the band
  (≥ 80 Hard, ≥ 50 Medium, else Easy) of the overall score of the most
  recent graded activity; the band is monotone in the score; and the choice
  does not depend on the order in which the store lists a child's activities
  (dates of one child are distinct because the key is `childId_date`).
* When the first of two requests for today's activity succeeds, the second
  returns the same record and the generator has run at most once in all (a
  failing generator is called again on the next request, as in the source); a fresh activity is pending, keyed `childId_date`
  and leaves the store's invariant intact.
* Grading sets status and score and keeps every other field; the overall
  score is the mean of the two percentages, each within 0–100 for in-range
  counts; statuses only move forward, except that marking a graded activity
  viewed moves it back.
* Progress lists exactly the child's non-pending activities.
* A spelling save adds exactly the new result to the child's history, touches
  no other parent document, and reads back newest first, with a result
  recorded now shown in front of the earlier history; the history read is a
  sorted permutation of what is stored.
* A practice session never counts more correct answers than it has judged;
  over an uninterrupted run (one round of hear, listen, answer, verdict,
  next per word) the count is at most the number of words and the final score
  is a percentage; at the end it is the run's score, 100 exactly when every
  word was spelled correctly.

## Model

| member | source | states |
|---|---|---|
| DateOrder.DateLe | src/services/firestoreService.ts:117 | the order on `YYYY-MM-DD` dates, compared character by character (a total order: the four lemmas below) |
| DateOrder.DateLeReflexive | src/services/firestoreService.ts:117 | every date is ordered before-or-equal to itself |
| DateOrder.DateLeTotal | src/services/firestoreService.ts:117 | any two dates are comparable, so the most-recent-first sort has a well-defined head |
| DateOrder.DateLeTransitive | src/services/firestoreService.ts:117 | the date order is transitive |
| DateOrder.DateLeAntisymmetric | src/services/firestoreService.ts:117 | two dates each before-or-equal to the other are the same date |
| AdaptiveDifficulty.LatestGraded | src/services/firestoreService.ts:115-117 | the head of the graded activities sorted newest first (specified by LatestGradedSpec) |
| AdaptiveDifficulty.DifficultyFor | src/services/firestoreService.ts:119-121 | the band of an overall score (specified by DifficultyForBands and DifficultyForMonotone) |
| AdaptiveDifficulty.DetermineNextDifficulty | src/services/firestoreService.ts:113-122 | the difficulty of the next activity (specified by NextDifficultySpec and NextDifficultyIndependentOfOrder) |
| AdaptiveDifficulty.LatestGradedSpec | src/services/firestoreService.ts:115-117 | no activity is picked exactly when none is graded; a picked one is graded, has a date no graded activity exceeds, and comes first among graded ones with that date (the head of the stable descending sort) |
| AdaptiveDifficulty.LatestGradedUnique | src/services/firestoreService.ts:115-117 | the latest graded activity is unique |
| AdaptiveDifficulty.DifficultyForMonotone | src/services/firestoreService.ts:119-121 | a higher overall score never yields a lower difficulty |
| AdaptiveDifficulty.DifficultyForBands | src/services/firestoreService.ts:119-121 | Hard exactly from 80, Medium exactly on [50, 80), Easy exactly below 50 |
| AdaptiveDifficulty.NextDifficultySpec | src/services/firestoreService.ts:113-122 | Easy for an empty history or one with nothing graded; otherwise Easy when the latest graded activity has no score, else the band of its overall score |
| AdaptiveDifficulty.NextDifficultyIndependentOfOrder | src/services/firestoreService.ts:113-122 | two listings with the same activities, graded dates distinct, give the same difficulty |
| Grading.Percentage | src/services/firestoreService.ts:184-186 | the percentage times the total is 100 times the correct count; within 0–100 for in-range counts; 100 when all are correct |
| Grading.GradeScore | src/services/firestoreService.ts:184-194 | math and reading are percentages of their question counts, overall is their mean, all within 0–100 for in-range counts |
| Grading.GradeScoreExample | src/services/firestoreService.ts:184-194 | 8 of 10 and 6 of 10 grade as 80, 60, overall 70 |
| Grading.GradedActivity | src/services/firestoreService.ts:187-195 | the graded record has status graded and the computed score, every other field unchanged |
| Grading.MarkedViewed | src/services/firestoreService.ts:170 | the record has status viewed, every other field unchanged |
| Grading.UpdatesKeepScoreConsistent | src/types.ts:17-22 | marking viewed and grading keep "a graded record has a score" |
| Grading.StatusForwardOnly | src/services/firestoreService.ts:166-198 | marking viewed moves the status forward or keeps it exactly when it is not graded (a pending one strictly forward); grading never moves it back |
| Grading.CompletedActivities | src/services/firestoreService.ts:204 | the result holds exactly the non-pending activities of the input and is no longer than it |
| Grading.CompletedActivitiesAppend | src/services/firestoreService.ts:204 | the filter distributes over concatenation, so it keeps the input order |
| Documents.NormalizeChild | src/services/firestoreService.ts:26-32 | a stored child read as a record, a missing history read as empty (round trip: NormalizeChildDocsOf) |
| Documents.NormalizeParent | src/services/firestoreService.ts:34-44 | a stored parent read as a record, a missing child list read as empty (ReadAfterWriteChildren, NormalizeParentIdempotent) |
| Documents.ChildDocsOf | src/services/firestoreService.ts:108 | the child list as written back to the parent document (inverse of reading: NormalizeChildDocsOf) |
| Documents.NormalizeChildren | src/services/firestoreService.ts:41-43 | each stored child is normalised in place, none added or dropped |
| Documents.NormalizeChildDocsOf | src/services/firestoreService.ts:26-32 | reading back children that were written gives the same children |
| Documents.ReadAfterWriteChildren | src/services/firestoreService.ts:34-44 | a parent document whose children were written reads back as the parent with exactly those children |
| Documents.NormalizeParentIdempotent | src/services/firestoreService.ts:34-44 | writing a normalised parent back and reading it again changes nothing |
| Documents.FindChild | src/services/firestoreService.ts:219-221 | no index exactly when no child has the id; otherwise the first index holding it |
| Documents.WithResultPrepended | src/services/firestoreService.ts:229-235 | same number of children; the target's history gets the result in front and its other fields are kept; every other child is unchanged |
| SpellingHistory.SortNewestFirst | src/services/firestoreService.ts:256-258 | the stable newest-first sort (specified by SortNewestFirstSpec and the lemmas below) |
| SpellingHistory.InsertNewestFirst | src/services/firestoreService.ts:256-258 | one insertion step of the sort (InsertNewestFirstMembers, InsertNewestFirstSorted) |
| SpellingHistory.InsertNewestFirstMembers | src/services/firestoreService.ts:256-258 | inserting adds exactly the one result |
| SpellingHistory.InsertNewestFirstSorted | src/services/firestoreService.ts:256-258 | inserting into a newest-first list keeps it newest first |
| SpellingHistory.SortNewestFirstSpec | src/services/firestoreService.ts:256-258 | the sort returns a newest-first permutation of its input |
| SpellingHistory.SortNewestFirstOfSorted | src/services/firestoreService.ts:256-258 | an already newest-first list is returned unchanged |
| SpellingHistory.SortNewestFirstIdempotent | src/services/firestoreService.ts:256-258 | sorting twice is sorting once |
| SpellingHistory.SortNewestFirstPrependLatest | src/services/firestoreService.ts:256-258 | a result no older than any other sorts to the front, the rest sorted behind it |
| FirestoreService.ActivityId | src/services/firestoreService.ts:140 | the key `childId_date` of a child's activity on a date (kept by the store invariant, used by ChildHistoryDatesDistinct) |
| FirestoreService.NewActivity | src/services/firestoreService.ts:153-161 | the pending activity created from generated content (NewActivityValid, Store.GetDailyActivity) |
| FirestoreService.ChildHistoryDatesDistinct | src/services/firestoreService.ts:140 | because activities are keyed `childId_date`, a child's listing holds at most one activity per date (so in particular one graded activity per date) |
| FirestoreService.DifficultyDeterminedByStore | src/services/firestoreService.ts:124-134 | any two listings of a child's activities give the same next difficulty |
| FirestoreService.NewActivityValid | src/services/firestoreService.ts:153-162 | storing a new activity under its id keeps every record under `childId_date` with a consistent score |
| FirestoreService.FindChildSameIds | src/services/firestoreService.ts:219-221 | the child lookup depends only on the ids, so it finds the same child after a save |
| FirestoreService.SavedSpelling | src/services/firestoreService.ts:207-238 | succeeds exactly when the parent exists and lists the child; otherwise parent-not-found or child-not-found; a success keeps the set of parents and every other parent's document |
| FirestoreService.SpellingProgressOf | src/services/firestoreService.ts:240-259 | getSpellingProgress (specified by SpellingProgressSpec and the save lemmas below) |
| FirestoreService.SpellingProgressSpec | src/services/firestoreService.ts:240-259 | empty for a missing parent or child; otherwise a newest-first permutation of the stored history |
| FirestoreService.SavedProgress | src/services/firestoreService.ts:207-259 | after a save the history read is the stored history with the new result in front, sorted newest first |
| FirestoreService.SaveAddsResult | src/services/firestoreService.ts:207-259 | a save adds exactly the new result to what the history read returns |
| FirestoreService.SaveLatestShownFirst | src/services/firestoreService.ts:207-259 | a result no older than the stored ones is read back first, followed by the earlier history |
| FirestoreService.SaveTouchesOneParent | src/services/firestoreService.ts:207-238 | a save changes no other parent's spelling history |
| FirestoreService.Store.constructor | src/services/firestoreService.ts:23-24 | a store holds the given collections |
| FirestoreService.Store.ChildActivities | src/services/firestoreService.ts:124-134 | returns every stored activity of the child exactly once and nothing else |
| FirestoreService.Store.GetDailyActivity | src/services/firestoreService.ts:136-164 | an existing record for `childId_today` is returned with nothing changed and no generation; otherwise the generator is called once with the next difficulty of the child's history, its failure is reported with the store unchanged, and on success a pending activity is stored under the key and returned |
| FirestoreService.GetDailyActivityTwice | src/services/firestoreService.ts:136-164 | when the first of two requests for today's activity succeeds, the second returns the same record and the generator has run at most once in all |
| FirestoreService.Store.MarkActivityAsViewed | src/services/firestoreService.ts:166-171 | a missing document is an error and changes nothing; otherwise exactly that record becomes viewed |
| FirestoreService.Store.GradeActivity | src/services/firestoreService.ts:173-198 | a missing activity is an error and changes nothing; otherwise exactly that record is replaced by its graded form, which is returned |
| FirestoreService.Store.GetChildProgress | src/services/firestoreService.ts:200-205 | returns exactly the child's stored activities that are not pending, filtered from its listing in order |
| FirestoreService.Store.SaveSpellingResult | src/services/firestoreService.ts:207-238 | the parent documents become what the save specification gives, or stay unchanged with its error; the child's stored history is the result followed by the old history |
| FirestoreService.Store.AddChild | src/services/firestoreService.ts:90-111 | a missing parent is an error; otherwise the new child, with an empty history, is appended after the existing children and the returned parent is what a later read gives |
| Transcript.ToLower | src/components/SpellingPracticeView.tsx:86-87 | same length, each character lower-cased |
| Transcript.KeepLetters | src/components/SpellingPracticeView.tsx:86 | the result holds only `a`–`z` and is no longer than the input (order and counts: KeepLettersAppend, KeepLettersChar, KeepLettersCount) |
| Transcript.KeepLettersAppend | src/components/SpellingPracticeView.tsx:86 | filtering a concatenation concatenates the filtered parts, so kept letters stay in input order |
| Transcript.KeepLettersChar | src/components/SpellingPracticeView.tsx:86 | a single character is kept exactly when it is in `a`–`z` |
| Transcript.KeepLettersCount | src/components/SpellingPracticeView.tsx:86 | each letter occurs in the result as often as in the input, and no other character occurs |
| Transcript.KeepLettersMembers | src/components/SpellingPracticeView.tsx:86 | a character is kept exactly when it is in `a`–`z` and occurs in the input |
| Transcript.KeepLettersIdentity | src/components/SpellingPracticeView.tsx:86 | the filter changes a string exactly when it holds a character outside `a`–`z` |
| Transcript.NormalizeTranscript | src/components/SpellingPracticeView.tsx:86 | a normalised transcript holds only `a`–`z` |
| Transcript.ToLowerIdempotent | src/components/SpellingPracticeView.tsx:86-87 | lower-casing twice is lower-casing once |
| Transcript.NormalizeTranscriptIdempotent | src/components/SpellingPracticeView.tsx:86 | normalising twice is normalising once |
| Transcript.NormalizeTranscriptExample | src/components/SpellingPracticeView.tsx:86 | "Ca-t" is heard as "cat" |
| Transcript.IsCorrect | src/components/SpellingPracticeView.tsx:90 | the comparison of the handler: the normalised transcript equals the lower-cased word (specified through WordItselfCorrect and PracticeSession.Judge) |
| Transcript.WordItselfCorrect | src/components/SpellingPracticeView.tsx:86-90 | saying the word itself is judged correct exactly when its lower-case form holds only `a`–`z` |
| SpellingPractice.PracticeSession.constructor | src/components/SpellingPracticeView.tsx:121-139 | without speech support the session shows the unsupported message and has no words; otherwise it holds the fetched words or the fetch's error message; it starts idle on the first word with no correct answers |
| SpellingPractice.PracticeSession.Speak | src/components/SpellingPracticeView.tsx:57-65 | the status becomes speaking with the text and its continuation recorded; nothing else changes |
| SpellingPractice.PracticeSession.SpeechEnded | src/components/SpellingPracticeView.tsx:60-63 | the status becomes idle and the recorded continuation is handed back to run |
| SpellingPractice.PracticeSession.HearWord | src/components/SpellingPracticeView.tsx:164 | speaks the current word, to be followed by listening after 500 ms |
| SpellingPractice.PracticeSession.StartListening | src/components/SpellingPracticeView.tsx:67-68 | recognition starts exactly when speech is supported and the session is not already listening |
| SpellingPractice.PracticeSession.OnListeningStarted | src/components/SpellingPracticeView.tsx:75 | the status becomes listening; nothing else changes |
| SpellingPractice.PracticeSession.OnListeningEnded | src/components/SpellingPracticeView.tsx:76-78 | a listening session becomes idle; any other status is kept |
| SpellingPractice.PracticeSession.OnRecognitionError | src/components/SpellingPracticeView.tsx:79-83 | the error message is shown and the session goes idle, word and count unchanged; no event clears the message, so no further word can be heard and the run ends on the error screen |
| SpellingPractice.PracticeSession.Judge | src/components/SpellingPracticeView.tsx:85-95 | the verdict is correct exactly when the normalised transcript equals the lower-cased word; the count grows by one exactly then; the status becomes feedback |
| SpellingPractice.PracticeSession.OnResult | src/components/SpellingPracticeView.tsx:85-98 | with no word at the index nothing changes; otherwise the answer is judged and the verdict spoken ("Correct!" then advance after 1000 ms, or the correct spelling then advance after 1500 ms) |
| SpellingPractice.PracticeSession.NextWord | src/components/SpellingPracticeView.tsx:103-112 | the verdict is cleared; before the last word the index advances and the session goes idle, on the last word it finishes and reports that the result is to be saved |
| SpellingPractice.PracticeSession.SaveResults | src/components/SpellingPracticeView.tsx:114-119 | nothing without a signed-in parent and a selected child; otherwise the store saves the word list with the percentage of correct answers |
| SpellingPractice.PracticeSession.PracticeWord | src/components/SpellingPracticeView.tsx:57-112 | one uninterrupted round keeps the between-words invariant, records one verdict, adds one to the count exactly for a correct answer, and moves to the next word or finishes (and reports it) on the last |
| SpellingPractice.PracticeSession.FinalScore | src/components/SpellingPracticeView.tsx:116 | the percentage of correct answers (bounded by CountBounded, equal to the run's score at the end by FinishedScore) |
| SpellingPractice.CountCorrect | src/components/SpellingPracticeView.tsx:90-92 | the number of correct verdicts is at most the number of verdicts, and equals it exactly when all are correct |
| SpellingPractice.RunScore | src/components/SpellingPracticeView.tsx:116 | the score of a run lies in 0–100 and is 100 exactly when every verdict is correct |
| SpellingPractice.SavedScoreAsWritten | src/components/SpellingPracticeView.tsx:93-116 | the score the handlers save as written omits the last verdict, so it is always below 100 |
| SpellingPractice.SavedScoreMissesLastWord | src/components/SpellingPracticeView.tsx:93-116 | two correct words: the run's score is 100 but 50 is saved as written |
| SpellingPractice.FinishedScore | src/components/SpellingPracticeView.tsx:110-116 | at the end of an uninterrupted run there is one verdict per word and the final score, which the model saves, is the run's score |
| SpellingPractice.CountBounded | src/components/SpellingPracticeView.tsx:116 | between words of an uninterrupted run the count is at most the number of words and the score lies in 0–100 |
| SpellingPractice.CatThenDogg | src/components/SpellingPracticeView.tsx:85-119 | words "cat", "dog" answered "cat", "dogg" give one correct answer and a score of 50, the save succeeds, and the child's progress then holds exactly that one result |

## Left out

- The document database client itself (network, transactions, retries, caching): the two collections are maps and each transaction is one method call that reads and writes them.
- The listing's `orderBy("date", "desc")`: the store returns a child's activities in no particular order; instead the next difficulty is proved not to depend on that order. GetChildProgress: its result is not newest first; it keeps whatever order the listing has.
- Date parsing with `new Date(...)`: dates are compared as strings, which orders well-formed `YYYY-MM-DD` dates correctly; malformed dates (which parse to NaN in the source) are not modelled.
- The clock: `today` and the save's `Date.now()` timestamp are parameters.
- `randomId`: the new child's id is a parameter. AddChild: does not check the id against existing children, as the source does not.
- The content generator (`generateDailyActivityContent`, `generateSpellingList`) and its validation: a function parameter for the activity, and the constructor's word-list argument for the practice.
- `createParentProfile`, `ensureParentProfile` and `getParent`: profile creation and lookup are not part of this model.
- Grading.Percentage: division by zero is excluded by a precondition; the source would store NaN or Infinity for an activity without questions, and GradeActivity requires questions on both sides.
- Stored field types: no check that stored fields have the declared types; `as` casts in the source are taken at face value.
- The speech synthesis and recognition engines, and the timers: their callbacks are event methods, the delays are recorded in the continuation, and the caller decides when to fire them.
- React's stale closures: the model's handlers read the session's current fields. In the source the recognition handlers are those captured when listening was set up. The end handler compares against the status captured then (idle), so it never returns a listening screen to idle. The save reads the count from before the last answer was judged; that is the finding below, and the model saves the corrected score.
- SpellingPractice.PracticeSession.Valid: the count is the number of correct verdicts judged, so it is bounded by the number of answers judged, not by the number of words; events can arrive out of the intended order (a second result for the same word while the advance timer is pending), and the bound by the number of words is proved only for an uninterrupted run (PracticeWord, CountBounded).
- The loading flag, the spinner, `refreshParentData`, the finished screen's message and rounding: presentation only.
- Transcript.ToLower: lower-cases ASCII letters only; JavaScript's `toLowerCase` also maps other scripts.
- SpellingPractice.PracticeSession.SaveResults: requires a non-empty word list; with no words the source's score is NaN, and the result handler fails before any save.

## Findings

| source | as written | input that shows it | evidently intended | confidence | as-written member | corrected member |
|---|---|---|---|---|---|---|
| src/components/SpellingPracticeView.tsx:93-116 | the result handler schedules the `nextWord` captured when listening for the word was set up, and its `saveResults` reads `correctCount` from that render, before the last answer was judged | words "cat", "dog", both spelled correctly: the finished screen shows 100% but 50 is saved | the saved score is the score the finished screen shows, counting every word | high, not executed | SpellingPractice.SavedScoreAsWritten (SavedScoreMissesLastWord) | SpellingPractice.RunScore (FinishedScore, PracticeSession.SaveResults) |
