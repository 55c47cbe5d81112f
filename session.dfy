/** One turn as the game handler plays it around the processor: RESET restarts the
    case, any other input goes to the processor, and a successful answer is saved as
    the player's progression, with the statement it recorded appended to the history
    that the next turn replays. */
module Session {
  import opened Wrappers
  import opened Text
  import opened Models
  import opened Sandbox
  import opened Validator
  import opened Processor

  /** The input that restarts the case, compared after trimming and upper-casing. */
  const ResetCommand: String := "RESET"

  /** A history entry with this query is never saved. */
  const ResetMarker: String := "RESET_CASE"

  const ResetNarrative: String := "Progresso resetado."

  /** The input restarts the case. */
  predicate IsReset(command: String) {
    ToUpper(TrimSpace(command)) == ResetCommand
  }

  /** The progression after a restart: the starting puzzle, no focus and an empty
      history; completion is kept. */
  function Restarted(c: Case, p: ProgressionState): ProgressionState {
    p.(currentPuzzle := c.startingPuzzle, currentFocus := NoFocus, sqlHistory := [])
  }

  /** The progression saved after the processor answered with `reply` for a player whose
      progression was `p`: a failed answer saves nothing; a successful one saves the
      puzzle and focus it shows, marks the case completed once the puzzle is past the
      last, and appends the statement it recorded unless that is the reset marker. */
  function Saved(c: Case, p: ProgressionState, reply: Reply): (q: ProgressionState)
    ensures !reply.response.success ==> q == p
    ensures reply.response.success ==>
      q.currentPuzzle == reply.response.state.currentPuzzle && q.currentFocus == reply.response.state.currentFocus
    ensures q.caseId == p.caseId
    ensures q.completed <==> p.completed || (reply.response.success && reply.response.state.currentPuzzle >= |c.puzzles|)
    ensures |p.sqlHistory| <= |q.sqlHistory| <= |p.sqlHistory| + 1 && q.sqlHistory[..|p.sqlHistory|] == p.sqlHistory
    ensures |q.sqlHistory| > |p.sqlHistory| <==>
      reply.response.success && reply.item.Some? && reply.item.value.query != ResetMarker
    ensures |q.sqlHistory| > |p.sqlHistory| ==> q.sqlHistory[|p.sqlHistory|] == reply.item.value
  {
    if !reply.response.success then p
    else
      var puzzle := reply.response.state.currentPuzzle;
      var recorded := if reply.item.Some? && reply.item.value.query != ResetMarker then [reply.item.value] else [];
      p.(currentPuzzle := puzzle,
         currentFocus := reply.response.state.currentFocus,
         completed := p.completed || puzzle >= |c.puzzles|,
         sqlHistory := p.sqlHistory + recorded)
  }

  /** The answer of one turn (or the error that prevented one) and the saved progression. */
  datatype Outcome = Outcome(answer: Result<GameResponse, String>, saved: ProgressionState)

  /** One turn of `command` for the saved progression `p` at time `now`. */
  function PlaySpec<D>(e: Engine<D>, c: Case, p: ProgressionState, command: String, now: Timestamp): (o: Outcome)
    // The case never changes, and completion is never withdrawn.
    ensures o.saved.caseId == p.caseId
    ensures p.completed ==> o.saved.completed
    // A restart clears the history; otherwise the history only grows, one statement at most.
    ensures IsReset(command) ==> o.saved == Restarted(c, p) && o.answer.Success?
    ensures IsReset(command) ==>
      o.answer.value == GameResponse(true, ResetNarrative, NoData, "", GameState(p.caseId, c.startingPuzzle, NoFocus, [], [], ""))
    // Any other input is the processor's: its error, or its answer with the turn's
    // progression saved.
    ensures !IsReset(command) ==>
      var t := ProcessSpec(e, c, p, command, now);
      && (t.result.Failure? ==> o == Outcome(Failure(t.result.error), p))
      && (t.result.Success? ==> o == Outcome(Success(t.result.value.response), Saved(c, t.after, t.result.value)))
    ensures !IsReset(command) ==>
      |p.sqlHistory| <= |o.saved.sqlHistory| <= |p.sqlHistory| + 1 && o.saved.sqlHistory[..|p.sqlHistory|] == p.sqlHistory
    // An error or a failed answer saves nothing.
    ensures o.answer.Failure? || !o.answer.value.success ==> o.saved == p
    // A saved statement is the input itself, not a SELECT, and ran on the player's database.
    ensures |o.saved.sqlHistory| > |p.sqlHistory| ==>
      && !IsSelect(command)
      && o.saved.sqlHistory[|p.sqlHistory|] == HistoryItem(now, command, p.currentPuzzle, p.currentFocus)
      && Build(e, c, p.currentPuzzle, p.sqlHistory).Success?
      && e.exec(Build(e, c, p.currentPuzzle, p.sqlHistory).value, command).Executed?
  {
    if IsReset(command) then
      Outcome(Success(GameResponse(true, ResetNarrative, NoData, "",
                                   GameState(p.caseId, c.startingPuzzle, NoFocus, [], [], ""))),
              Restarted(c, p))
    else
      var t := ProcessSpec(e, c, p, command, now);
      match t.result
      case Failure(err) => Outcome(Failure(err), p)
      case Success(reply) =>
        var q := Saved(c, t.after, reply);
        assert |q.sqlHistory| > |p.sqlHistory| ==> q.sqlHistory[|p.sqlHistory|] == reply.item.value;
        Outcome(Success(reply.response), q)
  }

  // ---------------------------------------------------------------------------
  // The handler as written: the telemetry event reads the processor's response before
  // the handler checks the processor's error

  /** The status the telemetry event records for the processor's response; none where
      the response is nil, which Go cannot read. */
  function TelemetryStatus(response: Option<GameResponse>): (status: Option<String>)
    ensures status.None? <==> response.None?
    ensures status.Some? ==> (status.value == "success" <==> response.value.success)
  {
    match response
    case None => None
    case Some(r) => Some(if r.success then "success" else "error")
  }

  /** How the handler's turn ends: with an outcome, or by reading a nil response. */
  datatype HandlerExit = Completed(outcome: Outcome) | NilDereference

  /** One turn as the handler is written: the processor's response is read for the
      telemetry status before its error is looked at, so a processor error, which comes
      with a nil response, ends the turn before the internal-error answer is sent. */
  function PlayAsWritten<D>(e: Engine<D>, c: Case, p: ProgressionState, command: String, now: Timestamp): (x: HandlerExit)
    ensures x.NilDereference? <==> !IsReset(command) && ProcessSpec(e, c, p, command, now).result.Failure?
    ensures x.Completed? ==> x.outcome == PlaySpec(e, c, p, command, now)
  {
    if IsReset(command) then Completed(PlaySpec(e, c, p, command, now))
    else
      var t := ProcessSpec(e, c, p, command, now);
      var response := if t.result.Success? then Some(t.result.value.response) else None;
      match TelemetryStatus(response)
      case None => NilDereference
      case Some(_) => Completed(PlaySpec(e, c, p, command, now))
  }

  /** A command that reaches execution while the database cannot be opened: the processor
      reports the error with a nil response, and the handler as written reads it. */
  lemma OpenFailureDereferencesNil<D>(e: Engine<D>, c: Case, p: ProgressionState, command: String, now: Timestamp)
    requires !IsReset(command) && e.open.Failure?
    requires c.helpTexts == [] && c.commandResponses == [] && c.focusRequirements == []
    ensures PlayAsWritten(e, c, p, command, now) == NilDereference
  {
    OpenFailureReachesProcessor(e, c, p, command, now);
  }

  /** For the same command, the intended turn answers with the processor's error and
      saves nothing. */
  lemma OpenFailureAnswersError<D>(e: Engine<D>, c: Case, p: ProgressionState, command: String, now: Timestamp)
    requires !IsReset(command) && e.open.Failure?
    requires c.helpTexts == [] && c.commandResponses == [] && c.focusRequirements == []
    ensures PlaySpec(e, c, p, command, now) == Outcome(Failure(e.open.error), p)
  {
    OpenFailureReachesProcessor(e, c, p, command, now);
  }

  /** With no narrative rule, help text or focus requirement, a command reaches execution,
      and an engine that cannot open a database makes the processor fail. */
  lemma OpenFailureReachesProcessor<D>(e: Engine<D>, c: Case, p: ProgressionState, command: String, now: Timestamp)
    requires e.open.Failure?
    requires c.helpTexts == [] && c.commandResponses == [] && c.focusRequirements == []
    ensures ProcessSpec(e, c, p, command, now).result == Failure(e.open.error)
  {
    var upper := ToUpper(TrimSpace(command));
    assert HelpAnswer(c, Fields(upper), p.currentPuzzle).None?;
    assert FiringRule(c, upper, Fields(upper), p.currentPuzzle, p.currentFocus).None?;
    assert ValidateSQLCommand(c, p.currentPuzzle, p.currentFocus, command).None?;
  }

  /** Saves the processor's answer into the player's progression. */
  method SaveReply(c: Case, prog: Progression, reply: Reply)
    modifies prog
    ensures prog.State() == Saved(c, old(prog.State()), reply)
  {
    var response := reply.response;
    if response.success {
      prog.currentPuzzle := response.state.currentPuzzle;
      prog.currentFocus := response.state.currentFocus;
      if prog.currentPuzzle >= |c.puzzles| {
        prog.completed := true;
      }
      var historyItem := reply.item;
      if historyItem.Some? && historyItem.value.query != ResetMarker {
        prog.sqlHistory := prog.sqlHistory + [historyItem.value];
      }
    }
  }

  /** Plays one turn on the player's progression. */
  method PlayTurn<D>(e: Engine<D>, c: Case, prog: Progression, command: String, now: Timestamp)
    returns (answer: Result<GameResponse, String>)
    modifies prog
    ensures Outcome(answer, prog.State()) == PlaySpec(e, c, old(prog.State()), command, now)
  {
    var cleanSQL := ToUpper(TrimSpace(command));
    if cleanSQL == ResetCommand {
      prog.currentPuzzle := c.startingPuzzle;
      prog.currentFocus := NoFocus;
      prog.sqlHistory := [];
      return Success(GameResponse(true, ResetNarrative, NoData, "",
                                  GameState(prog.caseId, c.startingPuzzle, NoFocus, [], [], "")));
    }
    var r := ProcessCommand(e, c, prog, command, now);
    if r.Failure? {
      return Failure(r.error);
    }
    SaveReply(c, prog, r.value);
    return Success(r.value.response);
  }

  /** The database the next turn rebuilds is the one the saved statement produced: when a
      turn saves a statement and stays at the same puzzle, replaying the longer history
      gives the database the statement left behind, unless the statement is empty or
      looks dangerous, in which case the replay skips it and the rebuilt database is the
      one from before the statement. */
  lemma ReplayReproducesTurn<D>(e: Engine<D>, c: Case, p: ProgressionState, command: String, now: Timestamp)
    requires !IsReset(command)
    requires |PlaySpec(e, c, p, command, now).saved.sqlHistory| > |p.sqlHistory|
    requires PlaySpec(e, c, p, command, now).saved.currentPuzzle == p.currentPuzzle
    ensures var q := PlaySpec(e, c, p, command, now).saved;
            var before := Build(e, c, p.currentPuzzle, p.sqlHistory).value;
            Build(e, c, q.currentPuzzle, q.sqlHistory) ==
              if command != "" && !IsDangerousSQL(command)
              then Success(e.exec(before, command).db)
              else Success(before)
  {
    var q := PlaySpec(e, c, p, command, now).saved;
    var item := HistoryItem(now, command, p.currentPuzzle, p.currentFocus);
    assert q.sqlHistory == p.sqlHistory + [item];
    BuildAppend(e, c, p.currentPuzzle, p.sqlHistory, item);
  }
}
