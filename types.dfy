/** The records of the learning application (src/types.ts). Strings are `seq<char>`,
    percentages are exact rationals and timestamps are milliseconds. */
module Types {
  import opened Results

  datatype Difficulty = Easy | Medium | Hard

  /** The total order on difficulties, used only for comparison. */
  function DifficultyRank(d: Difficulty): nat
  {
    match d
    case Easy => 0
    case Medium => 1
    case Hard => 2
  }

  datatype Question = Question(question: string, answer: string)

  datatype ActivityStatus = Pending | Viewed | Graded

  /** The lifecycle order pending < viewed < graded. */
  function StatusRank(s: ActivityStatus): nat
  {
    match s
    case Pending => 0
    case Viewed => 1
    case Graded => 2
  }

  /** Percentages of one graded activity. */
  datatype Score = Score(math: real, reading: real, overall: real)

  /** One day's activity of one child, stored under `childId_date`. */
  datatype DailyActivity = DailyActivity(
    id: string,
    childId: string,
    date: string,
    mathQuestions: seq<Question>,
    readingPassage: string,
    readingQuestions: seq<Question>,
    status: ActivityStatus,
    score: Option<Score>)

  datatype SpellingResult = SpellingResult(words: seq<string>, score: real, timestamp: int)

  datatype Child = Child(
    id: string,
    name: string,
    gradeLevel: string,
    avatar: string,
    spellingProgress: seq<SpellingResult>)

  datatype Parent = Parent(id: string, username: string, email: string, children: seq<Child>)

  /** What the content source returns for one day's activity. */
  datatype Content = Content(
    mathQuestions: seq<Question>,
    readingPassage: string,
    readingQuestions: seq<Question>)

  /** The errors the store operations raise. */
  datatype StoreError =
    | ActivityNotFound            // "Activity not found."
    | ParentNotFound              // "Parent profile not found."
    | ChildNotFound               // "Child not found for parent."
    | DocumentNotFound            // an update of a document that does not exist
    | ContentGenerationFailed(message: string)
}
