/** One spelling practice run (src/components/SpellingPracticeView.tsx):
    a state machine over idle, speaking, listening, feedback and finished,
    driven by one method per event. Speech output and speech recognition are
    the environment: each of their callbacks is an event method here, and
    the continuation an utterance runs when it ends is handed back to the
    caller, who runs it after the stated delay. */
module SpellingPractice {
  import opened Results
  import opened Types
  import opened Transcript
  import opened Grading
  import opened Documents
  import opened FirestoreService

  datatype PracticeStatus = Idle | Speaking | Listening | Feedback | Finished

  datatype Judgement = Correct | Incorrect

  /** What runs when the current utterance ends. */
  datatype Continuation =
    | NoContinuation
    | ListenAfter(delayMs: nat)      // start listening after the delay
    | AdvanceAfter(delayMs: nat)     // move to the next word after the delay

  const UnsupportedMessage: string :=
    "Sorry, your browser doesn't support the speech features needed for this practice."
  const RecognitionErrorMessage: string := "Sorry, I had trouble hearing you. Please try again."
  const CorrectUtterance: string := "Correct!"

  function CorrectionUtterance(word: string): string
  {
    "Sorry, the word was " + word + ". Let's try the next one."
  }

  /** The number of correct verdicts. */
  function CountCorrect(v: seq<bool>): (n: nat)
    ensures n <= |v|
    ensures n == |v| <==> forall i :: 0 <= i < |v| ==> v[i]
    decreases |v|
  {
    if v == [] then 0 else CountCorrect(v[..|v| - 1]) + (if v[|v| - 1] then 1 else 0)
  }

  /** The score of a run with these verdicts, one per word: the percentage
      of correct ones, 100 exactly when all are correct. This is the score
      the finished screen shows, and the one the model saves. */
  function RunScore(v: seq<bool>): (score: real)
    requires |v| > 0
    ensures 0.0 <= score <= 100.0
    ensures score == 100.0 <==> forall i :: 0 <= i < |v| ==> v[i]
  {
    Percentage(CountCorrect(v), |v|)
  }

  /** The score the screen's handlers save, as written: the result handler
      runs the next-word step captured when listening for the last word was
      set up, whose save reads the count from before that word was judged.
      The last verdict is therefore never counted, and not even a perfect
      run is saved as 100. */
  function SavedScoreAsWritten(v: seq<bool>): (score: real)
    requires |v| > 0
    ensures 0.0 <= score < 100.0
  {
    Percentage(CountCorrect(v[..|v| - 1]), |v|)
  }

  /** Two words, both spelled correctly: the screen shows 100 but 50 is
      saved. */
  lemma SavedScoreMissesLastWord()
    ensures RunScore([true, true]) == 100.0
    ensures SavedScoreAsWritten([true, true]) == 50.0
  {
    assert [true, true][..1] == [true];
    assert [true][..0] == [];
  }

  /** The observable state of a session. */
  datatype SessionState = SessionState(
    status: PracticeStatus,
    currentWordIndex: nat,
    correctCount: nat,
    feedback: Option<Judgement>,
    error: Option<string>,
    utterance: string,
    onSpeechEnd: Continuation)

  class PracticeSession {
    const speechSupported: bool
    const words: seq<string>
    var status: PracticeStatus
    var currentWordIndex: nat
    var correctCount: nat
    var feedback: Option<Judgement>
    var error: Option<string>
    /** The text last handed to speech output, and what runs when it ends. */
    var utterance: string
    var onSpeechEnd: Continuation
    /** The verdicts given so far, one per recognition result judged. */
    ghost var verdicts: seq<bool>

    /** The index stays on a word, and the count is the number of correct
        verdicts given (so never more than the answers judged). */
    ghost predicate Valid()
      reads this
    {
      && (|words| == 0 ==> currentWordIndex == 0)
      && (|words| > 0 ==> currentWordIndex < |words|)
      && correctCount == CountCorrect(verdicts)
    }

    /** The state between two words of an uninterrupted run: nothing pending,
        and exactly one verdict per word before the current one (and for
        the current one too once finished, which happens on the last word). */
    ghost predicate BetweenWords()
      reads this
    {
      && Valid()
      && feedback.None?
      && (status == Idle || status == Finished)
      && |verdicts| == currentWordIndex + (if status == Finished then 1 else 0)
      && (status == Finished ==> currentWordIndex + 1 == |words|)
    }

    function State(): SessionState
      reads this
    {
      SessionState(status, currentWordIndex, correctCount, feedback, error, utterance, onSpeechEnd)
    }

    function CurrentWord(): string
      reads this
    {
      if currentWordIndex < |words| then words[currentWordIndex] else ""
    }

    /** A new session. Without speech support it shows the unsupported
        error; otherwise it holds the word list, or the content source's
        error message when fetching the list failed. */
    constructor (speechSupported: bool, wordList: Result<seq<string>, string>)
      ensures this.speechSupported == speechSupported
      ensures words == (if speechSupported && wordList.Ok? then wordList.value else [])
      ensures error == (if !speechSupported then Some(UnsupportedMessage)
                        else if wordList.Err? then Some(wordList.error) else None)
      ensures status == Idle && currentWordIndex == 0 && correctCount == 0 && feedback.None?
      ensures utterance == "" && onSpeechEnd == NoContinuation && verdicts == []
      ensures BetweenWords()
    {
      this.speechSupported := speechSupported;
      words := if speechSupported && wordList.Ok? then wordList.value else [];
      error := if !speechSupported then Some(UnsupportedMessage)
               else if wordList.Err? then Some(wordList.error) else None;
      status := Idle;
      currentWordIndex := 0;
      correctCount := 0;
      feedback := None;
      utterance := "";
      onSpeechEnd := NoContinuation;
      verdicts := [];
    }

    /** speak: hand `text` to speech output; the status is speaking until it
        ends. */
    method Speak(text: string, after: Continuation)
      requires Valid()
      modifies this
      ensures Valid() && verdicts == old(verdicts)
      ensures State() == old(State()).(status := Speaking, utterance := text, onSpeechEnd := after)
    {
      status := Speaking;
      utterance := text;
      onSpeechEnd := after;
    }

    /** The utterance ended: back to idle, then its continuation runs. */
    method SpeechEnded() returns (next: Continuation)
      requires Valid()
      modifies this
      ensures Valid() && verdicts == old(verdicts)
      ensures State() == old(State()).(status := Idle)
      ensures next == old(onSpeechEnd)
    {
      status := Idle;
      next := onSpeechEnd;
    }

    /** The "Hear Word" button, offered only on the idle screen: speak the
        current word, then listen half a second after it ends. */
    method HearWord()
      requires Valid() && status == Idle && error.None?
      modifies this
      ensures Valid() && verdicts == old(verdicts)
      ensures State() == old(State()).(status := Speaking, utterance := old(CurrentWord()), onSpeechEnd := ListenAfter(500))
    {
      Speak(CurrentWord(), ListenAfter(500));
    }

    /** startListening: starts recognition unless speech is unsupported or a
        recognition is already listening. Starting changes no state; the
        recognition's start event does. */
    method StartListening() returns (started: bool)
      requires Valid()
      ensures started <==> speechSupported && status != Listening
    {
      if !speechSupported || status == Listening {
        return false;
      }
      started := true;
    }

    /** The recognition's start event. */
    method OnListeningStarted()
      requires Valid()
      modifies this
      ensures Valid() && verdicts == old(verdicts)
      ensures State() == old(State()).(status := Listening)
    {
      status := Listening;
    }

    /** The recognition's end event: a recognition that ends while still
        listening returns the session to idle. */
    method OnListeningEnded()
      requires Valid()
      modifies this
      ensures Valid() && verdicts == old(verdicts)
      ensures State() == old(State()).(status := if old(status) == Listening then Idle else old(status))
    {
      if status == Listening {
        status := Idle;
      }
    }

    /** The recognition's error event: show an error and return to idle,
        without advancing the word or touching the count. */
    method OnRecognitionError()
      requires Valid()
      modifies this
      ensures Valid() && verdicts == old(verdicts)
      ensures State() == old(State()).(status := Idle, error := Some(RecognitionErrorMessage))
      ensures currentWordIndex == old(currentWordIndex) && correctCount == old(correctCount)
    {
      error := Some(RecognitionErrorMessage);
      status := Idle;
    }

    /** The first half of the result handler: judge the transcript against
        the current word and enter the feedback status. */
    method Judge(transcript: string) returns (correct: bool)
      requires Valid() && currentWordIndex < |words|
      modifies this
      ensures Valid() && verdicts == old(verdicts) + [correct]
      ensures correct <==> IsCorrect(transcript, words[currentWordIndex])
      ensures State() == old(State()).(
        status := Feedback,
        feedback := Some(if correct then Correct else Incorrect),
        correctCount := old(correctCount) + (if correct then 1 else 0))
    {
      var heard := NormalizeTranscript(transcript);
      var correctWord := ToLower(words[currentWordIndex]);
      status := Feedback;
      correct := heard == correctWord;
      assert (verdicts + [correct])[..|verdicts|] == verdicts;
      verdicts := verdicts + [correct];
      if correct {
        feedback := Some(Correct);
        correctCount := correctCount + 1;
      } else {
        feedback := Some(Incorrect);
      }
    }

    /** The recognition's result event. The source reads the current word
        before it changes anything, so with no word at the index (an empty
        list) the handler fails and nothing changes. Otherwise the answer is
        judged, and the handler at once speaks the verdict: a correct answer
        moves on one second after "Correct!", a wrong one a second and a half
        after the correct spelling is read out. The status left behind is
        therefore speaking, with the verdict in `feedback`. */
    method OnResult(transcript: string)
      requires Valid()
      modifies this
      ensures Valid()
      ensures old(currentWordIndex) >= |words| ==> State() == old(State()) && verdicts == old(verdicts)
      ensures old(currentWordIndex) < |words| ==>
        var correct := IsCorrect(transcript, words[old(currentWordIndex)]);
        && verdicts == old(verdicts) + [correct]
        && State() == old(State()).(
             status := Speaking,
             feedback := Some(if correct then Correct else Incorrect),
             correctCount := old(correctCount) + (if correct then 1 else 0),
             utterance := if correct then CorrectUtterance
                          else CorrectionUtterance(ToLower(words[old(currentWordIndex)])),
             onSpeechEnd := AdvanceAfter(if correct then 1000 else 1500))
    {
      if currentWordIndex >= |words| {
        return;
      }
      var correctWord := ToLower(words[currentWordIndex]);
      var correct := Judge(transcript);
      if correct {
        Speak(CorrectUtterance, AdvanceAfter(1000));
      } else {
        Speak(CorrectionUtterance(correctWord), AdvanceAfter(1500));
      }
    }

    /** nextWord: clear the verdict; move to the next word, or finish on the
        last one, which is when the result is saved (`finishedNow`). */
    method NextWord() returns (finishedNow: bool)
      requires Valid()
      modifies this
      ensures Valid() && verdicts == old(verdicts)
      ensures finishedNow <==> old(currentWordIndex) + 1 >= |words|
      ensures !finishedNow ==>
        State() == old(State()).(feedback := None, currentWordIndex := old(currentWordIndex) + 1, status := Idle)
      ensures finishedNow ==> State() == old(State()).(feedback := None, status := Finished)
    {
      feedback := None;
      if currentWordIndex < |words| - 1 {
        currentWordIndex := currentWordIndex + 1;
        status := Idle;
        finishedNow := false;
      } else {
        status := Finished;
        finishedNow := true;
      }
    }

    /** The final score: the share of correct answers, as a percentage. */
    function FinalScore(): (score: real)
      reads this
      requires |words| > 0
    {
      Percentage(correctCount, |words|)
    }

    /** saveResults: with a selected child and a signed-in parent, store one
        result holding the word list and the final score; otherwise do
        nothing. The score saved is the one the finished screen shows (see
        SavedScoreAsWritten for the count the screen's handler reads). */
    method SaveResults(store: Store, parentId: Option<string>, childId: Option<string>, timestamp: int)
      returns (r: Option<Outcome<StoreError>>)
      requires store.Valid() && |words| > 0
      modifies store
      ensures store.Valid() && store.activities == old(store.activities)
      ensures store.generations == old(store.generations)
      ensures parentId.None? || childId.None? ==> r.None? && store.parents == old(store.parents)
      ensures parentId.Some? && childId.Some? ==>
        match SavedSpelling(old(store.parents), parentId.value, childId.value,
                            SpellingResult(words, FinalScore(), timestamp))
        case Err(e) => r == Some(Fail(e)) && store.parents == old(store.parents)
        case Ok(m) => r == Some(Pass) && store.parents == m
    {
      if parentId.None? || childId.None? {
        return None;
      }
      var score := Percentage(correctCount, |words|);
      var outcome := store.SaveSpellingResult(parentId.value, childId.value, words, score, timestamp);
      r := Some(outcome);
    }

    /** One word of an uninterrupted run, as the screen drives it: hear the
        word, listen when it ends, answer, hear the verdict, move on.
        `finished` says that this was the last word and the result is due
        to be saved. */
    method PracticeWord(answer: string) returns (finished: bool)
      requires BetweenWords() && status == Idle && error.None? && speechSupported && |words| > 0
      modifies this
      ensures BetweenWords() && error == old(error)
      ensures verdicts == old(verdicts) + [IsCorrect(answer, words[old(currentWordIndex)])]
      ensures correctCount == old(correctCount) + (if IsCorrect(answer, words[old(currentWordIndex)]) then 1 else 0)
      ensures finished <==> old(currentWordIndex) + 1 == |words|
      ensures !finished ==> currentWordIndex == old(currentWordIndex) + 1 && status == Idle
      ensures finished ==> currentWordIndex == old(currentWordIndex) && status == Finished
    {
      HearWord();
      var next := SpeechEnded();
      assert next == ListenAfter(500);
      var started := StartListening();
      assert started;
      OnListeningStarted();
      OnResult(answer);
      next := SpeechEnded();
      finished := NextWord();
    }
  }

  /** Between words of an uninterrupted run, the count of correct answers is
      at most the number of words, so the final score is a percentage. */
  lemma CountBounded(s: PracticeSession)
    requires s.BetweenWords() && |s.words| > 0
    ensures s.correctCount <= |s.words|
    ensures 0.0 <= s.FinalScore() <= 100.0
  {
  }

  /** At the end of an uninterrupted run there is one verdict per word, and
      the final score is the run's score: 100 exactly when every word was
      spelled correctly. */
  lemma FinishedScore(s: PracticeSession)
    requires s.BetweenWords() && s.status == Finished
    ensures |s.verdicts| == |s.words| > 0
    ensures s.FinalScore() == RunScore(s.verdicts)
    ensures s.FinalScore() == 100.0 <==> forall i :: 0 <= i < |s.verdicts| ==> s.verdicts[i]
  {
  }

  /** Words "cat" and "dog", answered "cat" and "dogg", for a child its parent
      lists: one correct answer, a score of 50, and exactly that one result
      in the child's spelling progress afterwards. */
  method CatThenDogg() returns (correct: nat, score: real, saved: Option<Outcome<StoreError>>,
                                progress: seq<SpellingResult>)
    ensures correct == 1 && score == 50.0
    ensures saved == Some(Pass)
    ensures progress == [SpellingResult(["cat", "dog"], 50.0, 1000)]
  {
    var kid := ChildDoc("c1", "Ann", "2", "emoji-star-struck", None);
    var store := new Store(map[], map["p1" := ParentDoc("ann-parent", "parent@example.org", Some([kid]))]);
    var s := new PracticeSession(true, Ok(["cat", "dog"]));
    assert IsCorrect("cat", "cat") by {
      WordItselfCorrect("cat");
    }
    assert !IsCorrect("dogg", "dog") by {
      assert |ToLower("dog")| == 3;
      assert |NormalizeTranscript("dogg")| == 4;
    }
    var finished := s.PracticeWord("cat");
    assert !finished;
    finished := s.PracticeWord("dogg");
    assert finished;
    correct := s.correctCount;
    score := s.FinalScore();
    ghost var before := store.parents;
    assert ChildExists(before, "p1", "c1") by {
      assert NormalizeParent("p1", before["p1"]).children[0].id == "c1";
    }
    saved := s.SaveResults(store, Some("p1"), Some("c1"), 1000);
    progress := SpellingProgressOf(store.parents, "p1", "c1");
    var result := SpellingResult(["cat", "dog"], 50.0, 1000);
    SavedProgress(before, "p1", "c1", result);
    assert TargetHistory(before, "p1", "c1") == [];
    assert [result] + [] == [result];
  }
}
