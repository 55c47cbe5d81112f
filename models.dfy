/** The data the engine works on: a case as authored (read-only), one player's
    progression through it (the only state a command may change), and what a
    command returns. Storage identifiers, JSON/BSON naming and timestamps of
    documents are not modelled. */
module Models {
  import opened Text

  /** A numbered stage of a case, with what the player sees while in it. */
  datatype Puzzle = Puzzle(number: int, narrative: String, tables: seq<String>, commands: seq<String>)

  /** A schema fragment that becomes active at puzzle `puzzle`; `insertSql` may be empty. */
  datatype Schema = Schema(puzzle: int, tableName: String, createSql: String, insertSql: String)

  /** A narrative rule: when `command` is matched and the condition holds, answer `response`. */
  datatype CommandResponse = CommandResponse(command: String, condition: String, value: String, response: String)

  /** A puzzle-completion rule: `checkSql` is run and its scalar result compared with `expectValue`. */
  datatype Validation = Validation(
    puzzle: int,
    kind: String,
    checkSql: String,
    expectValue: String,
    successNarrative: String,
    failureNarrative: String,
    unlocksNext: bool,
    nextPuzzle: int)

  /** Statements containing one of `commandTypes` need the focus `requiredFocus`. */
  datatype FocusRequirement = FocusRequirement(
    puzzle: int,
    commandTypes: seq<String>,
    requiredFocus: String,
    errorMessage: String)

  /** Help on `topic`, for puzzle `puzzle` (0 for every puzzle). */
  datatype HelpText = HelpText(puzzle: int, topic: String, content: String)

  datatype Case = Case(
    id: String,
    title: String,
    startingPuzzle: int,
    puzzles: seq<Puzzle>,
    schemas: seq<Schema>,
    commandResponses: seq<CommandResponse>,
    validations: seq<Validation>,
    focusRequirements: seq<FocusRequirement>,
    helpTexts: seq<HelpText>)

  /** The wall-clock time, supplied by the caller. */
  type Timestamp = nat

  /** A statement that changed the database, with the puzzle and focus it was run under. */
  datatype HistoryItem = HistoryItem(timestamp: Timestamp, query: String, puzzleState: int, focusState: String)

  /** What the player sees after a command. */
  datatype GameState = GameState(
    caseId: String,
    currentPuzzle: int,
    currentFocus: String,
    tables: seq<String>,
    commands: seq<String>,
    narrative: String)

  /** One result row, column name to value; the values are opaque to the engine. */
  type Row = map<String, String>

  /** The rows a SELECT produced, or nothing (a statement that is not a SELECT). */
  datatype Data = NoData | Rows(rows: seq<Row>)

  datatype GameResponse = GameResponse(success: bool, narrative: String, data: Data, error: String, state: GameState)

  datatype APIError = APIError(message: String, code: String)

  const ErrFocusRequired: String := "FOCUS_REQUIRED"

  /** The focus of a player who is not looking at anything. */
  const NoFocus: String := "none"

  /** The fields of a progression at one moment. */
  datatype ProgressionState = ProgressionState(
    caseId: String,
    currentPuzzle: int,
    currentFocus: String,
    sqlHistory: seq<HistoryItem>,
    completed: bool)

  /** One player's progress through one case. */
  class Progression {
    var caseId: String
    var currentPuzzle: int
    var currentFocus: String
    var sqlHistory: seq<HistoryItem>
    var completed: bool

    function State(): ProgressionState
      reads this
    {
      ProgressionState(caseId, currentPuzzle, currentFocus, sqlHistory, completed)
    }

    /** The progression of a player's first command in a case. */
    constructor (caseId: String, startingPuzzle: int)
      ensures this.caseId == caseId && currentPuzzle == startingPuzzle
      ensures currentFocus == NoFocus && sqlHistory == [] && !completed
    {
      this.caseId := caseId;
      currentPuzzle := startingPuzzle;
      currentFocus := NoFocus;
      sqlHistory := [];
      completed := false;
    }
  }
}
