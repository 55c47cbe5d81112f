# Casos de Código: the game engine core in Dafny

Casos de Código is a detective game played in SQL. A case has numbered puzzles. It also
has schema fragments that create and fill tables, narrative command rules, help texts,
focus requirements and validations. A player's progression records the current puzzle,
the current focus (what the player is looking at) and a history of the statements that
changed the database.

This project models the engine that answers one command:

- **Processor** (`processor.dfy`): a command is answered by a narrative rule or help text
  if one applies. Otherwise the focus validator may refuse it. Otherwise it is executed
  against a database rebuilt for the player. After that, the first passing validation of
  the player's puzzle may unlock the next puzzle. `GetCurrentState`, `RunValidations`,
  `ExecuteSQL` and `ProcessCommand` are methods over the `Progression` class. Each is
  proved equal to a specification function (`CurrentState`, `Evaluate`, `ExecuteSpec`,
  `ProcessSpec`), and the properties are proved about those functions.
- **Validator** (`validator.dfy`): the focus check and the structural check of a case.
- **Sandbox** (`sandbox.dfy`): the per-command in-memory database. It applies every
  schema fragment active at the player's puzzle, then replays the history except
  destructive statements. It also holds the denylist and the statement filter. The SQL
  engine is an oracle (`Engine`) over an abstract database state. The builder is proved
  to issue exactly its statement plan and to react to failures as the source does.
- **Normalizer** (`normalizer.dfy`): the three case-insensitive replace-all rewrites of
  `ident = 'lit'`, `ident != 'lit'` and `ident LIKE 'lit'` into
  `LOWER(ident) OP LOWER('lit')`. They follow the leftmost-first semantics of Go's
  regular expressions, including the Unicode runes that `(?i)\w` folds in.
- **Session** (`session.dfy`): one turn as the game handler plays it around the
  processor. RESET restarts the case. A successful answer is saved, and the statement it
  recorded is appended to the history that the next turn replays.
- `text.dfy` models the Go string functions the core relies on: `strings.ToUpper`,
  `ToLower`, `TrimSpace`, `Fields`, `Contains`, `HasPrefix` and `EqualFold`, and
  `fmt`'s `%d` printing and scanning. `models.dfy` holds the entities. `wrappers.dfy`
  holds `Option`, `Result` and a first-match search.

## Model

| member | source | states |
|---|---|---|
| Processor.LastNumbered | internal/engine/processor.go:229-235 | the index found holds a puzzle with the number and no later puzzle has it; none only when no puzzle has the number |
| Processor.CurrentState | internal/engine/processor.go:223-237 | the state copies case, puzzle and focus; it shows the tables, commands and narrative of the last puzzle bearing the number, or empty details when none does |
| Processor.GetCurrentState | internal/engine/processor.go:223-237 | the loop that overwrites the details puzzle by puzzle returns exactly `CurrentState` of the progression |
| Processor.ConditionOnNumber | internal/engine/processor.go:103-124 | with a value printed as a decimal int64, `puzzle_state`, `puzzle_state_not`, `puzzle_state_less` and `puzzle_state_greater` hold exactly when the puzzle is =, !=, < or > that number |
| Processor.ConditionValueForms | internal/engine/processor.go:107-118 | the equality conditions compare text (`"02"` never equals puzzle 2) while the ordering ones scan a number (`"03"` orders as 3, `"5_"` as 5, since the runes after the digits are left unread, and `"dois"` as 0) |
| Processor.ScanTrailingRune | internal/engine/processor.go:111-114 | `fmt.Sscanf` with `%d` reads `"5_"` as 5: only the runes 0-9 are digits, and the rest is left unread |
| Processor.HelpAnswer | internal/engine/processor.go:53-66 | only a help verb with a topic gets an answer: the first help text with the topic (equal up to case) that is for every puzzle or this one; none only when no text qualifies |
| Processor.FiringRule | internal/engine/processor.go:68-78 | the rule chosen is the first that matches the command and whose condition holds; none only when no rule does |
| Processor.CheckCondition | internal/engine/processor.go:103-124 | only a known condition tag can hold; `always` holds; `current_focus_none` holds exactly with no focus; the numeric tags are stated by `ConditionOnNumber` and `ConditionValueForms` |
| Processor.RuleMatches | internal/engine/processor.go:69-76 | the three ways a rule answers a command; `FiringRule` states that the first matching rule whose condition holds is chosen |
| Processor.NewFocus | internal/engine/processor.go:79-88 | the leaving verbs clear the focus and a look with an object moves it; `LookSetsFocus` states the look case |
| Processor.HandleGameCommand | internal/engine/processor.go:45-101 | no answer exactly for blank input or when neither help nor a rule applies; an answer succeeds with no rows; a help answer shows the text; a rule answer shows its response with the focus moved as `NewFocus` says |
| Processor.LookSetsFocus | internal/engine/processor.go:79-84 | `OLHAR x`, for a single word x, sets the focus to x in lower case |
| Processor.FieldsOfTwoWords | internal/engine/processor.go:46 | two words separated by a space split into exactly those two fields |
| Processor.FirstPassing | internal/engine/processor.go:170-183 | the validation found is the first of the puzzle with a checking kind whose scalar result equals the expected text; none only when none passes |
| Processor.Evaluate | internal/engine/processor.go:169-201 | no answer exactly when no validation passes, and then the progression is unchanged; otherwise the first passing validation unlocks as it says and its success narrative, the data and the new state are the answer; the progression only ever moves through an unlocking validation of its puzzle |
| Processor.RunValidations | internal/engine/processor.go:169-201 | the loop's answer and the progression it leaves are exactly `Evaluate` of the old progression |
| Processor.Advance | internal/engine/processor.go:183-196 | the passing validation moves the player to its next puzzle with no focus when it unlocks, and answers with its narrative and the new state |
| Processor.EvaluateFirst | internal/engine/processor.go:170-196 | when validation i is the first of the puzzle to pass, it decides the verdict |
| Processor.EvaluateNone | internal/engine/processor.go:170-200 | when none passes, there is no answer and the progression is unchanged |
| Processor.IsSelect | internal/engine/processor.go:133-137 | the trimmed, upper-cased query starts with SELECT; `ExecuteSpec` and `SelectRecordsNothing` state that such a query is run for its rows and never recorded |
| Processor.Conclude | internal/engine/processor.go:157-166 | once a statement ran, the first passing validation on the database it left gives the answer and the next progression (`Concludes`, through `Evaluate`); with none, a plain success shows the data and the unchanged state; either way the answer succeeds and keeps the history item |
| Processor.ExecuteSpec | internal/engine/processor.go:126-167 | an error exactly when the database cannot be built, with the progression unchanged; a query or statement the engine rejects gives a failed answer with the engine's error and the unchanged state, and records nothing; otherwise the validations decide on the database the query or statement left (`Concludes`); a history item exactly for a non-SELECT statement that ran, with the time, text, puzzle and focus it ran under |
| Processor.ExecuteSQL | internal/engine/processor.go:126-167 | the method's result and new progression are exactly `ExecuteSpec` of the old progression |
| Processor.ProcessSpec | internal/engine/processor.go:24-43 | a narrative answer is final and changes nothing; a focus refusal carries the requirement's message and changes nothing; the case id, history and completion are never touched; any other command is executed as `ExecuteSpec` says; an error only when the database cannot be built; a recorded statement is the input, not a SELECT, and it ran |
| Processor.ProcessCommand | internal/engine/processor.go:24-43 | the method's result and new progression are exactly `ProcessSpec` of the old progression |
| Processor.BlankIsNeverNarrative | internal/engine/processor.go:25-29 | input made only of spaces is never answered by a narrative rule |
| Processor.SelectRecordsNothing | internal/engine/processor.go:137-143 | a SELECT never produces a history item |
| Processor.ForwardCasesOnlyAdvance | internal/engine/processor.go:183-187 | if every unlocking validation points to a later or equal puzzle, a command never moves the player back |
| Validator.FirstViolation | internal/engine/validator.go:17-28 | the requirement found is the first one the statement breaks; none only when it breaks none |
| Validator.ValidateSQLCommand | internal/engine/validator.go:14-31 | an error exactly when some requirement of the player's puzzle names a command type occurring in the upper-cased statement while the focus differs; the error carries the first such requirement's message and the focus-required code; a player at every required focus is never refused |
| Validator.ForPuzzle | internal/engine/validator.go:17-18 | keeps exactly the requirements of the puzzle |
| Validator.FirstViolationForPuzzle | internal/engine/validator.go:17-28 | the first violation among the puzzle's own requirements is the first violation among all |
| Validator.OnlyCurrentPuzzleConsulted | internal/engine/validator.go:17-18 | dropping every other puzzle's requirements from the case does not change the validator's answer |
| Validator.NumberedFromOne | internal/engine/validator.go:42-46 | true exactly when every puzzle number is at least 1 |
| Validator.IsValidCase | internal/engine/validator.go:33-49 | valid exactly when id and title are non-empty, there is a puzzle, and every puzzle is numbered from 1 |
| Sandbox.Active | internal/db/sqlite_factory.go:24-25 | the fragments kept are exactly those with a puzzle at or below the player's |
| Sandbox.ReplayQueries | internal/db/sqlite_factory.go:42-43 | every replayed statement is non-empty and not dangerous, and every such history entry is replayed |
| Sandbox.Build | internal/db/sqlite_factory.go:18-52 | the open error, else the first failing schema statement's error, else the replayed database; `CreateInMemoryDB` is proved equal to it and `BuildAppend` and `SkippedEntryIrrelevant` state how it follows the history |
| Sandbox.CreateInMemoryDB | internal/db/sqlite_factory.go:18-52 | the builder's result is exactly `Build`: the open error, else the first failing schema statement's error, else the history replayed on the schema |
| Sandbox.ApplySchemas | internal/db/sqlite_factory.go:24-40 | the loop issues the create and then the non-empty insert of each active fragment, in order, and stops at the first failure with its error |
| Sandbox.ReplayHistory | internal/db/sqlite_factory.go:42-49 | the loop executes the replayable entries in stored order and carries on past failures |
| Sandbox.SchemaPlanStep | internal/db/sqlite_factory.go:24-38 | an active fragment contributes its create and then its insert if non-empty; an inactive one contributes nothing |
| Sandbox.ExecAllCons | internal/db/sqlite_factory.go:26-37 | a failing statement aborts with its error; a succeeding one continues on the database it left |
| Sandbox.ActiveCumulative | internal/db/sqlite_factory.go:24-25 | fragment selection is cumulative: the fragments active at an earlier puzzle are, in the same order, those of a later puzzle's selection that are active at the earlier one |
| Sandbox.ActiveCons | internal/db/sqlite_factory.go:24-25 | a leading fragment is kept exactly when it is active |
| Sandbox.ReplayQueriesAppend | internal/db/sqlite_factory.go:42-49 | the replay of a split history is the replay of the first part followed by that of the second |
| Sandbox.ReplayAllAppend | internal/db/sqlite_factory.go:42-49 | replaying two statement lists is replaying the second on the database the first left |
| Sandbox.BuildAppend | internal/db/sqlite_factory.go:18-52 | appending an entry to the history never changes whether the build fails; when it succeeds, the new database is the old one with the entry executed, or the old one for an empty or dangerous entry |
| Sandbox.SkippedEntryIrrelevant | internal/db/sqlite_factory.go:42-49 | an empty or dangerous entry anywhere in the history does not affect the database |
| Sandbox.IsDangerousSQL | internal/db/sqlite_factory.go:54-64 | some denylisted keyword occurs in the upper-cased query (`ContainsAny`); `DangerousInContext` and `DangerousInsideWord` state that it is a substring test |
| Sandbox.ContainsAny | internal/db/sqlite_factory.go:58-63 | true exactly when some keyword occurs in the text |
| Sandbox.DangerousInContext | internal/db/sqlite_factory.go:54-64 | a dangerous query stays dangerous whatever text surrounds it |
| Sandbox.DangerousInsideWord | internal/db/sqlite_factory.go:54-64 | the denylist is a substring test: an UPDATE whose literal contains `Backdrop` is dangerous and is never replayed |
| Sandbox.ValidateSQL | internal/db/sqlite_factory.go:66-84 | an accepted query is never dangerous |
| Sandbox.ValidateSQLIsVerbTest | internal/db/sqlite_factory.go:73-84 | as written, the filter accepts exactly the safe queries whose upper-cased text starts with SELECT, INSERT, UPDATE or DELETE; the table test never fires |
| Sandbox.ValidateSQLIgnoresTables | internal/db/sqlite_factory.go:73-78 | `" SELECT * FROM livros"` is rejected by the filter as written and accepted by the intended one |
| Sandbox.ValidateSQLIntended | internal/db/sqlite_factory.go:66-84 | the corrected filter never accepts a dangerous query |
| Sandbox.IntendedAcceptsTables | internal/db/sqlite_factory.go:73-78 | the corrected filter accepts every safe query that names an allowed table, in any case |
| Normalizer.MatchAt | internal/engine/sql_normalizer.go:8-15 | the match of `(\w+)\s*OP\s*'([^']*)'` at an index; `MatchAtHead`, `NoMatchToQuote` and `NoMatchWithoutQuote` state where matches start and what they capture |
| Normalizer.MatchAtHead | internal/engine/sql_normalizer.go:8-15 | no match starts before the first comparison head ahead of a quote, and at that head the match captures the identifier and the literal up to the closing quote |
| Normalizer.NoMatchToQuote | internal/engine/sql_normalizer.go:8-15 | no match starts up to a quote with no head before it, or with no quote closing a literal after it |
| Normalizer.NormalizeSQL | internal/engine/sql_normalizer.go:5-18 | the `=` pass, then the `!=` pass, then the LIKE pass; `NormalizeIdempotent`, `NoQuoteUnchanged`, `ComparisonRewritten` and `EqPassSkipsNeq` state its properties |
| Normalizer.PassStep | internal/engine/sql_normalizer.go:8-9 | a replace-all pass copies a rune where no match starts; where one starts, it emits the rewrite and resumes after the match |
| Normalizer.PassQuoteFree | internal/engine/sql_normalizer.go:8-15 | a pass copies a text with no quote unchanged |
| Normalizer.PassToQuote | internal/engine/sql_normalizer.go:8-15 | when no comparison starts before the next quote, or no literal closes, a pass copies everything up to and including that quote |
| Normalizer.PassAtHead | internal/engine/sql_normalizer.go:8-15 | a pass copies the text before the first comparison head ahead of a closed literal, then emits `LOWER(ident) OP LOWER('lit')` and resumes after the closing quote |
| Normalizer.SettledHasNoMatch | internal/engine/sql_normalizer.go:8-15 | no match starts anywhere in a text whose literals hold neither `=` nor LIKE and that has no comparison head before a literal |
| Normalizer.PassFixed | internal/engine/sql_normalizer.go:8-15 | such a text is left unchanged by the pass |
| Normalizer.PassSettles | internal/engine/sql_normalizer.go:8-15 | a pass over a text with clean literals keeps them clean; it leaves no head of its own operator before a literal, and no head of another operator where there was none |
| Normalizer.NormalizeIdempotent | internal/engine/sql_normalizer.go:5-18 | normalizing twice equals normalizing once, for queries whose literals hold neither `=` nor LIKE |
| Normalizer.NoQuoteUnchanged | internal/engine/sql_normalizer.go:5-18 | a query without a quote is returned unchanged |
| Normalizer.ComparisonAt | internal/engine/sql_normalizer.go:8-15 | a comparison at the front of a text is rewritten to `LOWER(ident) OP LOWER('lit')`, with the identifier being the longest leading run of word runes, and the pass resumes after the closing quote |
| Normalizer.ComparisonRewritten | internal/engine/sql_normalizer.go:8-15 | the same for the concrete text `x'lit'y` |
| Normalizer.EqPassSkipsNeq | internal/engine/sql_normalizer.go:8-12 | the `=` pass does not touch a `!=` comparison: it copies the identifier, the operator and the opening quote |
| Session.Restarted | internal/handlers/game.go:68-69 | the starting puzzle, no focus and an empty history, as the reset stores them; `PlaySpec` states that RESET saves exactly this |
| Session.Saved | internal/handlers/game.go:151-164 | a failed answer saves nothing; a successful one saves the shown puzzle and focus, marks the case completed once the puzzle reaches the puzzle count, and appends exactly the recorded statement unless it is the reset marker |
| Session.PlaySpec | internal/handlers/game.go:67-164 | RESET restarts the case and answers with the reset narrative and the starting puzzle; any other input gives the processor's error, saving nothing, or the processor's answer with its turn's progression passed through `Saved`; the case id never changes, completion is never withdrawn, and the history grows by at most the input itself, a statement that is not a SELECT and ran on the player's database |
| Session.TelemetryStatus | internal/handlers/game.go:127-138 | the status is recorded exactly when the response is not nil, and it is "success" exactly for a successful response |
| Session.PlayAsWritten | internal/handlers/game.go:83-150 | the handler as written ends by reading a nil response exactly when the input is not RESET and the processor fails; otherwise it ends with the turn `PlaySpec` describes |
| Session.OpenFailureReachesProcessor | internal/engine/processor.go:24-43 | with no rule, help text or focus requirement, a command reaches execution, and an engine that cannot open a database makes the processor fail with that error |
| Session.OpenFailureDereferencesNil | internal/handlers/game.go:127-150 | for such a command the handler as written reads the nil response |
| Session.OpenFailureAnswersError | internal/handlers/game.go:146-149 | for the same command the intended turn answers with the processor's error and saves nothing |
| Session.SaveReply | internal/handlers/game.go:151-164 | the progression after saving is exactly `Saved` of the old one |
| Session.PlayTurn | internal/handlers/game.go:67-164 | the answer and the saved progression are exactly `PlaySpec` of the old progression |
| Session.ReplayReproducesTurn | internal/db/sqlite_factory.go:42-49 | after a turn that saved a statement without moving the puzzle, the next rebuild gives the database the statement left, or the previous one when the replay skips the statement |

## Left out

- The SQLite driver is an oracle (`Sandbox.Engine`): SQL parsing and execution, the rows
  returned, and the text form of a scalar (`fmt.Sprintf("%v")`) are its parameters.
  Row serialisation (`serializeRows`, internal/engine/processor.go:203-221) is part of
  the oracle's `query` result.
- Processor.FirstPassing: the validations' check queries are read through the engine's `scalar`, which is assumed to leave the database unchanged; a check query that changes it, affecting later checks, is not modelled.
- Closing the database and the rows (`defer Close`) is not modelled: a rebuilt database
  is never reused.
- `time.Now` is a `now` parameter. The log line printed on a failed replay is left out.
- MongoDB storage, HTTP decoding and encoding, authentication, configuration, users and
  telemetry are left out. The handler's turn is modelled as a value in `Session`, not as
  its storage calls. The history append that storage does separately is folded into the
  saved progression.
- Session.PlaySpec: a processor error is answered as the handler intends, with the error and nothing saved. The handler as written reads the nil response for telemetry first (see Findings, and `Session.PlayAsWritten`). The rest of the telemetry event is left out.
- `Session.Saved`: the `IsDebug` flag of the response is never set by the engine, so the
  handler's `!response.IsDebug` test (internal/handlers/game.go:161) is taken as true.
- The error branch at internal/engine/processor.go:39 is dead, because the validator
  only returns `APIError`, so it is not modelled.
- Integers are unbounded. Only `Processor.ConditionOnNumber` is restricted to int64
  values. A scanned value out of the int64 range is modelled as the failed scan it is in
  Go, so the condition compares with 0.
- Strings are sequences of runes. Invalid UTF-8 and case mappings outside ASCII and
  Latin-1 are not modelled. `Text.Fields` is defined by structural recursion with the
  same splitting as `strings.Fields`.
- `NormalizeSQL` is not called by the processor or any handler in this repository. It is
  modelled and proved on its own.
- Normalizer.NormalizeIdempotent: proved only for queries whose literals contain neither
  `=` nor LIKE. Other queries are not covered.
- Normalizer.ComparisonRewritten: states the rest of the output as the pass continuing
  in the same text (`PassFrom`), not as a pass over the remaining text on its own.
- Normalizer.EqPassSkipsNeq: the rest of the output is stated as in
  `ComparisonRewritten`.
- Normalizer.SuffixFacts: the facts carried to a suffix are proved in one direction only.
- `ValidateSQL` is not called by the processor or any handler in this repository. It is
  modelled with its finding below.
- Processor.SelectRecordsNothing and Processor.ForwardCasesOnlyAdvance follow directly
  from `ProcessSpec`'s contract.

## Findings

| source | as written | input that shows it | evidently intended | confidence | as-written member | corrected member |
|---|---|---|---|---|---|---|
| internal/db/sqlite_factory.go:73-78 | the allowed table names are lower case and are searched for in the upper-cased query, so the table test never matches | `" SELECT * FROM livros"`: safe and naming `livros`, but rejected because its upper-cased text starts with a space | a safe query naming an allowed table is accepted | not executed | Sandbox.ValidateSQLIgnoresTables | Sandbox.IntendedAcceptsTables |
| internal/handlers/game.go:127-138 | the telemetry event reads `response.Success` before the error check at line 146; a processor error comes with a nil response (internal/engine/processor.go:39, 129), so the handler dereferences nil and never sends the internal-error answer | any input other than RESET, in a case with no rules, help texts or focus requirements, while the database cannot be opened | the error is checked first, or the status read only for a non-nil response, so the handler answers "Erro interno" and saves nothing | not executed | Session.OpenFailureDereferencesNil | Session.OpenFailureAnswersError |
