/** The command processor: one player's input is answered either by the case's narrative
    rules (help texts and command responses), or by the focus validator's refusal, or by
    executing it against a database rebuilt for the player, after which the case's
    validations may complete the puzzle. Only a passing validation changes the
    progression. */
module Processor {
  import opened Wrappers
  import opened Text
  import opened Models
  import opened Sandbox
  import opened Validator

  // ---------------------------------------------------------------------------
  // The state shown to the player

  /** The index of the last puzzle numbered `number`. */
  function LastNumbered(puzzles: seq<Puzzle>, number: int): (r: Option<nat>)
    ensures r.Some? ==> r.value < |puzzles| && puzzles[r.value].number == number
    ensures r.Some? ==> forall j :: r.value < j < |puzzles| ==> puzzles[j].number != number
    ensures r.None? <==> forall j :: 0 <= j < |puzzles| ==> puzzles[j].number != number
  {
    if puzzles == [] then None
    else if puzzles[|puzzles| - 1].number == number then Some(|puzzles| - 1)
    else LastNumbered(puzzles[..|puzzles| - 1], number)
  }

  /** The state shown for progression `p`: its case, puzzle and focus, with the tables,
      commands and narrative of the last puzzle bearing its number, or none if no
      puzzle does. */
  function CurrentState(puzzles: seq<Puzzle>, p: ProgressionState): (st: GameState)
    ensures st.caseId == p.caseId && st.currentPuzzle == p.currentPuzzle && st.currentFocus == p.currentFocus
    ensures (forall j :: 0 <= j < |puzzles| ==> puzzles[j].number != p.currentPuzzle)
            ==> st.tables == [] && st.commands == [] && st.narrative == ""
    ensures forall i :: 0 <= i < |puzzles| && puzzles[i].number == p.currentPuzzle
              && (forall j :: i < j < |puzzles| ==> puzzles[j].number != p.currentPuzzle)
              ==> st.tables == puzzles[i].tables && st.commands == puzzles[i].commands
                  && st.narrative == puzzles[i].narrative
  {
    var st := GameState(p.caseId, p.currentPuzzle, p.currentFocus, [], [], "");
    match LastNumbered(puzzles, p.currentPuzzle)
    case None => st
    case Some(i) => st.(tables := puzzles[i].tables, commands := puzzles[i].commands, narrative := puzzles[i].narrative)
  }

  /** Copies the progression's case, puzzle and focus, and overwrites the puzzle details
      with those of every puzzle bearing its number, in order. */
  method GetCurrentState(c: Case, prog: Progression) returns (state: GameState)
    ensures state == CurrentState(c.puzzles, prog.State())
  {
    state := GameState(prog.caseId, prog.currentPuzzle, prog.currentFocus, [], [], "");
    var i := 0;
    while i < |c.puzzles|
      invariant 0 <= i <= |c.puzzles|
      invariant state == CurrentState(c.puzzles[..i], prog.State())
    {
      var pz := c.puzzles[i];
      assert c.puzzles[..i + 1][..i] == c.puzzles[..i];
      if pz.number == prog.currentPuzzle {
        state := state.(tables := pz.tables, commands := pz.commands, narrative := pz.narrative);
      }
      i := i + 1;
    }
    assert c.puzzles[..i] == c.puzzles;
  }

  // ---------------------------------------------------------------------------
  // Conditions of narrative rules

  /** The integer fmt.Sscanf reads from `value`, or 0 when it reads none. */
  function ScannedOrZero(value: String): int {
    match ScanInt(value)
    case Some(n) => n
    case None => 0
  }

  /** The condition tags a rule may carry. */
  predicate IsConditionTag(tag: String) {
    || tag == "always" || tag == "puzzle_state" || tag == "puzzle_state_not"
    || tag == "puzzle_state_less" || tag == "puzzle_state_greater" || tag == "current_focus_none"
  }

  /** Whether rule `resp`'s condition holds for a player at `puzzle` looking at `focus`;
      an unknown condition never holds. */
  function CheckCondition(resp: CommandResponse, puzzle: int, focus: String): (r: bool)
    ensures r ==> IsConditionTag(resp.condition)
    ensures resp.condition == "always" ==> r
    ensures resp.condition == "current_focus_none" ==> (r <==> focus == NoFocus)
  {
    if resp.condition == "always" then true
    else if resp.condition == "puzzle_state" then IntToString(puzzle) == resp.value
    else if resp.condition == "puzzle_state_not" then IntToString(puzzle) != resp.value
    else if resp.condition == "puzzle_state_less" then puzzle < ScannedOrZero(resp.value)
    else if resp.condition == "puzzle_state_greater" then puzzle > ScannedOrZero(resp.value)
    else if resp.condition == "current_focus_none" then focus == NoFocus
    else false
  }

  /** With a value written as a decimal number, the four puzzle conditions compare the
      player's puzzle with that number. */
  lemma ConditionOnNumber(resp: CommandResponse, puzzle: int, focus: String, n: int)
    requires resp.value == IntToString(n)
    requires MinInt64 <= n <= MaxInt64 && MinInt64 <= puzzle <= MaxInt64
    ensures resp.condition == "puzzle_state" ==> (CheckCondition(resp, puzzle, focus) <==> puzzle == n)
    ensures resp.condition == "puzzle_state_not" ==> (CheckCondition(resp, puzzle, focus) <==> puzzle != n)
    ensures resp.condition == "puzzle_state_less" ==> (CheckCondition(resp, puzzle, focus) <==> puzzle < n)
    ensures resp.condition == "puzzle_state_greater" ==> (CheckCondition(resp, puzzle, focus) <==> puzzle > n)
  {
    ScanIntOfIntToString(n);
    ScanIntOfIntToString(puzzle);
  }

  /** The equality conditions compare text, the ordering conditions compare numbers: a
      value written with a leading zero never equals a puzzle, yet orders like the
      number; a value whose number is followed by other runes orders like the number; a
      value with no number in it orders like 0. */
  lemma ConditionValueForms(cmd: String, response: String, focus: String)
    ensures !CheckCondition(CommandResponse(cmd, "puzzle_state", "02", response), 2, focus)
    ensures CheckCondition(CommandResponse(cmd, "puzzle_state_less", "03", response), 2, focus)
    ensures CheckCondition(CommandResponse(cmd, "puzzle_state_greater", "dois", response), 2, focus)
    ensures CheckCondition(CommandResponse(cmd, "puzzle_state_less", "5_", response), 3, focus)
  {
    assert IntToString(2) == "2";
    ScanLeadingZero();
    ScanTrailingRune();
    assert ScanInt("dois") == None by {
      assert DigitRun("dois") == 0;
    }
  }

  /** `%d` reads "03" as 3. */
  lemma ScanLeadingZero()
    ensures ScanInt("03") == Some(3)
  {
    assert DigitRun("03") == 2 by {
      assert "03"[1..] == "3";
      assert "3"[1..] == [];
    }
    assert "03"[..2] == "03";
    assert DigitsValue("03") == 3 by {
      assert "03"[..1] == "0";
    }
  }

  /** `%d` reads "5_" as 5 and leaves the underscore unread. */
  lemma ScanTrailingRune()
    ensures ScanInt("5_") == Some(5)
  {
    assert "5_"[1..] == "_";
    assert DigitRun("5_") == 1;
    assert "5_"[..1] == "5";
    assert DigitsValue("5") == 5 by {
      assert "5"[..0] == [];
    }
  }

  // ---------------------------------------------------------------------------
  // Narrative rules

  const HelpVerbs: seq<String> := ["AJUDA", "HELP", "/AJUDA", "/HELP"]

  /** The verb of a command that looks at something. */
  const LookVerb: String := "OLHAR"

  /** Help text `ht` answers `topic` at `puzzle`: same topic up to case, for this puzzle
      or for every puzzle. */
  predicate HelpApplies(ht: HelpText, topic: String, puzzle: int) {
    EqualFold(ht.topic, topic) && (ht.puzzle == 0 || ht.puzzle == puzzle)
  }

  /** The first help text answering a help request with a topic, if `parts` is one. */
  function HelpAnswer(c: Case, parts: seq<String>, puzzle: int): (r: Option<nat>)
    ensures r.Some? ==> |parts| > 1 && parts[0] in HelpVerbs
    ensures r.Some? ==> r.value < |c.helpTexts| && HelpApplies(c.helpTexts[r.value], parts[1], puzzle)
    ensures r.Some? ==> forall j :: 0 <= j < r.value ==> !HelpApplies(c.helpTexts[j], parts[1], puzzle)
    ensures |parts| > 1 && parts[0] in HelpVerbs && r.None?
            ==> forall j :: 0 <= j < |c.helpTexts| ==> !HelpApplies(c.helpTexts[j], parts[1], puzzle)
  {
    if |parts| > 1 && parts[0] in HelpVerbs then
      var topic := parts[1];
      FirstMatch(c.helpTexts, ht => HelpApplies(ht, topic, puzzle))
    else None
  }

  /** Rule `resp` answers the command: the same command, a look whose text is part of the
      rule's command, or a bare help verb that is the rule's command. */
  predicate RuleMatches(resp: CommandResponse, command: String, parts: seq<String>) {
    || resp.command == command
    || (HasPrefix(command, LookVerb) && Contains(resp.command, command))
    || (|parts| == 1 && (parts[0] == "AJUDA" || parts[0] == "HELP") && resp.command == parts[0])
  }

  /** Rule `resp` answers the command and its condition holds. */
  predicate RuleFires(resp: CommandResponse, command: String, parts: seq<String>, puzzle: int, focus: String) {
    RuleMatches(resp, command, parts) && CheckCondition(resp, puzzle, focus)
  }

  /** The focus after a rule answered the command. */
  function NewFocus(command: String, parts: seq<String>, focus: String): String {
    if command == "SAIR" || command == "FECHAR" || command == "PARAR" then NoFocus
    else if HasPrefix(command, LookVerb) && |parts| > 1 then ToLower(parts[1])
    else focus
  }

  /** The first rule that answers the command and whose condition holds. */
  function FiringRule(c: Case, command: String, parts: seq<String>, puzzle: int, focus: String): (r: Option<nat>)
    ensures r.Some? ==> r.value < |c.commandResponses| && RuleFires(c.commandResponses[r.value], command, parts, puzzle, focus)
    ensures r.Some? ==> forall j :: 0 <= j < r.value ==> !RuleFires(c.commandResponses[j], command, parts, puzzle, focus)
    ensures r.None? <==> forall j :: 0 <= j < |c.commandResponses| ==> !RuleFires(c.commandResponses[j], command, parts, puzzle, focus)
  {
    FirstMatch(c.commandResponses, resp => RuleFires(resp, command, parts, puzzle, focus))
  }

  /** The narrative answer to a trimmed, upper-cased command: a help text, else the first
      rule that fires, which may move the focus; none for a blank command or when
      neither applies. The answer always succeeds, carries no rows and shows the
      player's puzzle. */
  function HandleGameCommand(c: Case, p: ProgressionState, command: String): (r: Option<GameResponse>)
    ensures r.None? <==>
              || Fields(command) == []
              || (HelpAnswer(c, Fields(command), p.currentPuzzle).None?
                  && FiringRule(c, command, Fields(command), p.currentPuzzle, p.currentFocus).None?)
    ensures r.Some? ==> r.value.success && r.value.data == NoData && r.value.error == ""
    ensures Fields(command) != [] && HelpAnswer(c, Fields(command), p.currentPuzzle).Some? ==>
      r == Some(GameResponse(true, c.helpTexts[HelpAnswer(c, Fields(command), p.currentPuzzle).value].content,
                             NoData, "", CurrentState(c.puzzles, p)))
    ensures r.Some? && HelpAnswer(c, Fields(command), p.currentPuzzle).None? ==>
      var k := FiringRule(c, command, Fields(command), p.currentPuzzle, p.currentFocus).value;
      && r.value.narrative == c.commandResponses[k].response
      && r.value.state == CurrentState(c.puzzles, p).(currentFocus := NewFocus(command, Fields(command), p.currentFocus))
  {
    var parts := Fields(command);
    if parts == [] then None
    else
      match HelpAnswer(c, parts, p.currentPuzzle)
      case Some(i) => Some(GameResponse(true, c.helpTexts[i].content, NoData, "", CurrentState(c.puzzles, p)))
      case None =>
        match FiringRule(c, command, parts, p.currentPuzzle, p.currentFocus)
        case None => None
        case Some(k) =>
          var state := CurrentState(c.puzzles, p).(currentFocus := NewFocus(command, parts, p.currentFocus));
          Some(GameResponse(true, c.commandResponses[k].response, NoData, "", state))
  }

  /** A run of non-space runes ended by a space, or by the end, is one field long. */
  lemma FieldLengthOfField(x: String, y: String)
    requires forall i :: 0 <= i < |x| ==> !IsSpace(x[i])
    requires y == [] || IsSpace(y[0])
    ensures FieldLength(x + y) == |x|
  {
    assert forall i :: 0 <= i < |x| ==> (x + y)[i] == x[i];
    assert y != [] ==> (x + y)[|x|] == y[0];
  }

  /** A single word is its own and only field. */
  lemma FieldsOfWord(x: String)
    requires x != [] && forall i :: 0 <= i < |x| ==> !IsSpace(x[i])
    ensures Fields(x) == [x]
  {
    FieldLengthOfField(x, []);
    assert x + [] == x;
    assert x[..|x|] == x;
    assert Fields(x[|x|..]) == [];
  }

  /** A word after a space is the only field. */
  lemma FieldsAfterSpace(x: String)
    requires x != [] && forall i :: 0 <= i < |x| ==> !IsSpace(x[i])
    ensures Fields(" " + x) == [x]
  {
    assert (" " + x)[1..] == x;
    FieldsOfWord(x);
  }

  /** Two words separated by a space are two fields. */
  lemma FieldsOfTwoWords(w: String, x: String)
    requires w != [] && forall i :: 0 <= i < |w| ==> !IsSpace(w[i])
    requires x != [] && forall i :: 0 <= i < |x| ==> !IsSpace(x[i])
    ensures Fields(w + " " + x) == [w, x]
  {
    var s := w + " " + x;
    assert s == w + (" " + x);
    assert s[0] == w[0];
    FieldLengthOfField(w, " " + x);
    assert s[..|w|] == w;
    assert s[|w|..] == " " + x;
    FieldsAfterSpace(x);
  }

  lemma LookVerbIsWord()
    ensures LookVerb != [] && forall i :: 0 <= i < |LookVerb| ==> !IsSpace(LookVerb[i])
  {
  }

  /** The look verb followed by one word splits into the verb and that word. */
  lemma LookSplitsInTwo(x: String)
    requires x != [] && forall i :: 0 <= i < |x| ==> !IsSpace(x[i])
    ensures Fields(LookVerb + " " + x) == [LookVerb, x]
  {
    LookVerbIsWord();
    FieldsOfTwoWords(LookVerb, x);
  }

  /** The look verb followed by a word is a look and none of the leaving verbs. */
  lemma LookIsLook(x: String)
    requires x != []
    ensures HasPrefix(LookVerb + " " + x, LookVerb)
    ensures |LookVerb + " " + x| > |"FECHAR"|
  {
    assert (LookVerb + " " + x)[..5] == LookVerb;
  }

  /** Looking at something sets the focus to its name in lower case. */
  lemma LookSetsFocus(x: String, focus: String)
    requires x != [] && forall i :: 0 <= i < |x| ==> !IsSpace(x[i])
    ensures NewFocus(LookVerb + " " + x, Fields(LookVerb + " " + x), focus) == ToLower(x)
  {
    LookIsLook(x);
    LookSplitsInTwo(x);
  }

  // ---------------------------------------------------------------------------
  // Validations

  /** The validation kinds that run a check; any other kind never passes. */
  predicate IsCheckKind(kind: String) {
    kind == "result_check" || kind == "table_check" || kind == "table_complete_check" || kind == "sql_check"
  }

  /** Validation `v` of `puzzle` passes on `db`: it is of a checking kind and its query's
      scalar result, rendered as text, is the expected value. */
  predicate Passes<D>(e: Engine<D>, db: D, v: Validation, puzzle: int) {
    v.puzzle == puzzle && IsCheckKind(v.kind) && e.scalar(db, v.checkSql) == Some(v.expectValue)
  }

  /** The progression after validation `v` passed: the next puzzle, with no focus, if it
      unlocks one; otherwise unchanged. */
  function Unlock(p: ProgressionState, v: Validation): ProgressionState {
    if v.unlocksNext then p.(currentPuzzle := v.nextPuzzle, currentFocus := NoFocus) else p
  }

  /** The answer of the validations, if one passed, and the progression afterwards. */
  datatype Verdict = Verdict(response: Option<GameResponse>, after: ProgressionState)

  /** The index of the first validation of `puzzle` that passes on `db`. */
  function FirstPassing<D>(e: Engine<D>, validations: seq<Validation>, db: D, puzzle: int): (r: Option<nat>)
    ensures r.Some? ==> r.value < |validations| && Passes(e, db, validations[r.value], puzzle)
    ensures r.Some? ==> forall j :: 0 <= j < r.value ==> !Passes(e, db, validations[j], puzzle)
    ensures r.None? <==> forall j :: 0 <= j < |validations| ==> !Passes(e, db, validations[j], puzzle)
  {
    FirstMatch(validations, v => Passes(e, db, v, puzzle))
  }

  /** `after` is `p`, or `p` moved on by an unlocking validation of its puzzle: the
      validation's next puzzle, with no focus. */
  predicate UnlockedBy(c: Case, p: ProgressionState, after: ProgressionState) {
    || after == p
    || exists i :: 0 <= i < |c.validations| && c.validations[i].puzzle == p.currentPuzzle
         && c.validations[i].unlocksNext
         && after == p.(currentPuzzle := c.validations[i].nextPuzzle, currentFocus := NoFocus)
  }

  /** The first validation of the player's puzzle that passes decides the verdict; with
      none, there is no answer and the progression is unchanged. */
  function Evaluate<D>(e: Engine<D>, c: Case, p: ProgressionState, db: D, data: Data): (r: Verdict)
    ensures r.response.None? <==>
      forall i :: 0 <= i < |c.validations| ==> !Passes(e, db, c.validations[i], p.currentPuzzle)
    ensures r.response.None? ==> r.after == p
    ensures r.response.Some? ==>
      exists i :: 0 <= i < |c.validations| && Passes(e, db, c.validations[i], p.currentPuzzle)
        && (forall j :: 0 <= j < i ==> !Passes(e, db, c.validations[j], p.currentPuzzle))
        && r.after == Unlock(p, c.validations[i])
        && r.response.value == GameResponse(true, c.validations[i].successNarrative, data, "", CurrentState(c.puzzles, r.after))
    ensures UnlockedBy(c, p, r.after)
  {
    match FirstPassing(e, c.validations, db, p.currentPuzzle)
    case None => Verdict(None, p)
    case Some(i) =>
      var after := Unlock(p, c.validations[i]);
      Verdict(Some(GameResponse(true, c.validations[i].successNarrative, data, "", CurrentState(c.puzzles, after))), after)
  }

  /** Runs the validations of the player's puzzle in order; the first that passes may
      move the player to the next puzzle, and its success narrative is the answer. */
  method RunValidations<D>(e: Engine<D>, c: Case, prog: Progression, db: D, lastData: Data) returns (r: Option<GameResponse>)
    modifies prog
    ensures Verdict(r, prog.State()) == Evaluate(e, c, old(prog.State()), db, lastData)
  {
    var i := 0;
    while i < |c.validations|
      invariant 0 <= i <= |c.validations|
      invariant prog.State() == old(prog.State())
      invariant forall j :: 0 <= j < i ==> !Passes(e, db, c.validations[j], prog.currentPuzzle)
    {
      var v := c.validations[i];
      if v.puzzle == prog.currentPuzzle {
        var passed := false;
        if IsCheckKind(v.kind) {
          var count := e.scalar(db, v.checkSql);
          if count.Some? && count.value == v.expectValue {
            passed := true;
          }
        }
        assert passed == Passes(e, db, v, prog.currentPuzzle);
        if passed {
          EvaluateFirst(e, c, prog.State(), db, lastData, i);
          var response := Advance(c, prog, v, lastData);
          return Some(response);
        }
      }
      i := i + 1;
    }
    EvaluateNone(e, c, prog.State(), db, lastData);
    return None;
  }

  /** Moves the player on as the passing validation `v` says and answers with its
      success narrative. */
  method Advance(c: Case, prog: Progression, v: Validation, lastData: Data) returns (response: GameResponse)
    modifies prog
    ensures prog.State() == Unlock(old(prog.State()), v)
    ensures response == GameResponse(true, v.successNarrative, lastData, "", CurrentState(c.puzzles, prog.State()))
  {
    if v.unlocksNext {
      prog.currentPuzzle := v.nextPuzzle;
      prog.currentFocus := NoFocus;
    }
    var newState := GetCurrentState(c, prog);
    response := GameResponse(true, v.successNarrative, lastData, "", newState);
  }

  /** The verdict when validation `i` is the first of the player's puzzle to pass. */
  lemma {:induction false} EvaluateFirst<D>(e: Engine<D>, c: Case, p: ProgressionState, db: D, data: Data, i: nat)
    requires i < |c.validations| && Passes(e, db, c.validations[i], p.currentPuzzle)
    requires forall j :: 0 <= j < i ==> !Passes(e, db, c.validations[j], p.currentPuzzle)
    ensures var after := Unlock(p, c.validations[i]);
      Evaluate(e, c, p, db, data)
        == Verdict(Some(GameResponse(true, c.validations[i].successNarrative, data, "", CurrentState(c.puzzles, after))), after)
  {
    var r := FirstPassing(e, c.validations, db, p.currentPuzzle);
    assert r.Some?;
    assert r.value == i;
  }

  /** The verdict when no validation of the player's puzzle passes. */
  lemma {:induction false} EvaluateNone<D>(e: Engine<D>, c: Case, p: ProgressionState, db: D, data: Data)
    requires forall j :: 0 <= j < |c.validations| ==> !Passes(e, db, c.validations[j], p.currentPuzzle)
    ensures Evaluate(e, c, p, db, data) == Verdict(None, p)
  {
  }

  // ---------------------------------------------------------------------------
  // Execution

  /** The processor's answer and the history item recording a statement that changed
      the database. */
  datatype Reply = Reply(response: GameResponse, item: Option<HistoryItem>)

  /** The outcome of a command (a reply, or the error that prevented one) and the
      progression afterwards. */
  datatype Turn = Turn(result: Result<Reply, String>, after: ProgressionState)

  /** The trimmed, upper-cased query starts with SELECT. */
  predicate IsSelect(query: String) {
    HasPrefix(ToUpper(TrimSpace(query)), "SELECT")
  }

  /** A failed answer carrying `message` and the state of the unchanged progression. */
  function Refusal(c: Case, p: ProgressionState, message: String): GameResponse {
    GameResponse(false, "", NoData, message, CurrentState(c.puzzles, p))
  }

  /** `t` is the outcome once a statement ran on `db` with `data`: the first passing
      validation of the player's puzzle answers and moves the progression; with none,
      a plain success shows the data and the unchanged state. Either way `item` is kept. */
  predicate Concludes<D>(e: Engine<D>, c: Case, p: ProgressionState, db: D, data: Data, item: Option<HistoryItem>, t: Turn) {
    var v := Evaluate(e, c, p, db, data);
    && t.after == v.after
    && t.result == Success(Reply(
         if v.response.Some? then v.response.value else GameResponse(true, "", data, "", CurrentState(c.puzzles, p)),
         item))
  }

  /** The answer once a statement ran: the validations' answer if one passed, otherwise a
      plain success with the data; either way it succeeds and keeps `item`. */
  function Conclude<D>(e: Engine<D>, c: Case, p: ProgressionState, db: D, data: Data, item: Option<HistoryItem>): (t: Turn)
    ensures Concludes(e, c, p, db, data, item, t)
    ensures t.result.Success? && t.result.value.response.success && t.result.value.item == item
    ensures t.result.value.response.data == data
    ensures UnlockedBy(c, p, t.after)
  {
    var verdict := Evaluate(e, c, p, db, data);
    match verdict.response
    case Some(resp) => Turn(Success(Reply(resp, item)), verdict.after)
    case None => Turn(Success(Reply(GameResponse(true, "", data, "", CurrentState(c.puzzles, p)), item)), p)
  }

  /** Executing `query` for progression `p` at time `now`: an error only when the
      database cannot be built; a failed answer that changes and records nothing when
      the statement fails; otherwise the validations decide, and a statement that is not
      a SELECT is recorded with the puzzle and focus it ran under. */
  function ExecuteSpec<D>(e: Engine<D>, c: Case, p: ProgressionState, query: String, now: Timestamp): (t: Turn)
    ensures UnlockedBy(c, p, t.after)
    ensures t.result.Failure? <==> Build(e, c, p.currentPuzzle, p.sqlHistory).Failure?
    ensures t.result.Failure? ==> t.after == p && Build(e, c, p.currentPuzzle, p.sqlHistory) == Failure(t.result.error)
    ensures t.result.Success? && !t.result.value.response.success ==> t.after == p && t.result.value.item.None?
    ensures t.result.Success? ==> (t.result.value.item.Some? <==>
      !IsSelect(query) && e.exec(Build(e, c, p.currentPuzzle, p.sqlHistory).value, query).Executed?)
    ensures t.result.Success? && t.result.value.item.Some? ==>
      t.result.value.item.value == HistoryItem(now, query, p.currentPuzzle, p.currentFocus)
    // A query or statement the engine rejects gives a failed answer with the engine's
    // error and the unchanged state.
    ensures Build(e, c, p.currentPuzzle, p.sqlHistory).Success? && IsSelect(query) ==>
      var q := e.query(Build(e, c, p.currentPuzzle, p.sqlHistory).value, query);
      q.QueryFailed? ==> t == Turn(Success(Reply(Refusal(c, p, q.message), None)), p)
    ensures Build(e, c, p.currentPuzzle, p.sqlHistory).Success? && !IsSelect(query) ==>
      var x := e.exec(Build(e, c, p.currentPuzzle, p.sqlHistory).value, query);
      x.ExecFailed? ==> t == Turn(Success(Reply(Refusal(c, p, x.message), None)), p)
    // Otherwise the validations decide, on the database the query or statement left.
    ensures Build(e, c, p.currentPuzzle, p.sqlHistory).Success? && IsSelect(query) ==>
      var q := e.query(Build(e, c, p.currentPuzzle, p.sqlHistory).value, query);
      q.Answered? ==> Concludes(e, c, p, q.db, Rows(q.rows), None, t)
    ensures Build(e, c, p.currentPuzzle, p.sqlHistory).Success? && !IsSelect(query) ==>
      var x := e.exec(Build(e, c, p.currentPuzzle, p.sqlHistory).value, query);
      x.Executed? ==> Concludes(e, c, p, x.db, NoData, Some(HistoryItem(now, query, p.currentPuzzle, p.currentFocus)), t)
  {
    match Build(e, c, p.currentPuzzle, p.sqlHistory)
    case Failure(err) => Turn(Failure(err), p)
    case Success(db) =>
      if IsSelect(query) then
        match e.query(db, query)
        case QueryFailed(err) => Turn(Success(Reply(Refusal(c, p, err), None)), p)
        case Answered(after, rows) => Conclude(e, c, p, after, Rows(rows), None)
      else
        match e.exec(db, query)
        case ExecFailed(_, err) => Turn(Success(Reply(Refusal(c, p, err), None)), p)
        case Executed(changed) =>
          Conclude(e, c, p, changed, NoData, Some(HistoryItem(now, query, p.currentPuzzle, p.currentFocus)))
  }

  /** Builds the player's database, runs the query (a SELECT for its rows, anything else
      for its effect, recorded as a history item), then the validations. */
  method ExecuteSQL<D>(e: Engine<D>, c: Case, prog: Progression, query: String, now: Timestamp) returns (r: Result<Reply, String>)
    modifies prog
    ensures Turn(r, prog.State()) == ExecuteSpec(e, c, old(prog.State()), query, now)
  {
    var built := CreateInMemoryDB(e, c, prog);
    if built.Failure? {
      return Failure(built.error);
    }
    var db := built.value;
    var upper := ToUpper(TrimSpace(query));
    var data := NoData;
    var historyItem: Option<HistoryItem> := None;
    if HasPrefix(upper, "SELECT") {
      var answered := e.query(db, query);
      if answered.QueryFailed? {
        var state := GetCurrentState(c, prog);
        return Success(Reply(GameResponse(false, "", NoData, answered.message, state), None));
      }
      db := answered.db;
      data := Rows(answered.rows);
    } else {
      var outcome := e.exec(db, query);
      if outcome.ExecFailed? {
        var state := GetCurrentState(c, prog);
        return Success(Reply(GameResponse(false, "", NoData, outcome.message, state), None));
      }
      db := outcome.db;
      historyItem := Some(HistoryItem(now, query, prog.currentPuzzle, prog.currentFocus));
    }
    var validationResponse := RunValidations(e, c, prog, db, data);
    if validationResponse.Some? {
      return Success(Reply(validationResponse.value, historyItem));
    }
    var state := GetCurrentState(c, prog);
    return Success(Reply(GameResponse(true, "", data, "", state), historyItem));
  }

  // ---------------------------------------------------------------------------
  // A command

  /** Processing `command` for progression `p` at time `now`. */
  function ProcessSpec<D>(e: Engine<D>, c: Case, p: ProgressionState, command: String, now: Timestamp): (t: Turn)
    // Only the puzzle and the focus change, and only through an unlocking validation of
    // the player's puzzle.
    ensures UnlockedBy(c, p, t.after)
    ensures t.after.caseId == p.caseId && t.after.sqlHistory == p.sqlHistory && t.after.completed == p.completed
    // A narrative answer is final: nothing is validated, executed or recorded.
    ensures HandleGameCommand(c, p, ToUpper(TrimSpace(command))).Some? ==>
      t == Turn(Success(Reply(HandleGameCommand(c, p, ToUpper(TrimSpace(command))).value, None)), p)
    // A focus refusal carries the requirement's message.
    ensures HandleGameCommand(c, p, ToUpper(TrimSpace(command))).None?
            && ValidateSQLCommand(c, p.currentPuzzle, p.currentFocus, command).Some? ==>
      t == Turn(Success(Reply(Refusal(c, p, ValidateSQLCommand(c, p.currentPuzzle, p.currentFocus, command).value.message), None)), p)
    // An error only when the database cannot be built.
    ensures t.result.Failure? ==> t.after == p && Build(e, c, p.currentPuzzle, p.sqlHistory) == Failure(t.result.error)
    // A failed answer changes and records nothing.
    ensures t.result.Success? && !t.result.value.response.success ==> t.after == p && t.result.value.item.None?
    // Only a statement that is not a SELECT and ran records history: the original text,
    // with the puzzle and focus it ran under.
    ensures t.result.Success? && t.result.value.item.Some? ==>
      && !IsSelect(command)
      && t.result.value.item.value == HistoryItem(now, command, p.currentPuzzle, p.currentFocus)
      && Build(e, c, p.currentPuzzle, p.sqlHistory).Success?
      && e.exec(Build(e, c, p.currentPuzzle, p.sqlHistory).value, command).Executed?
    // Any other command is executed.
    ensures HandleGameCommand(c, p, ToUpper(TrimSpace(command))).None?
            && ValidateSQLCommand(c, p.currentPuzzle, p.currentFocus, command).None? ==>
      t == ExecuteSpec(e, c, p, command, now)
  {
    match HandleGameCommand(c, p, ToUpper(TrimSpace(command)))
    case Some(resp) => Turn(Success(Reply(resp, None)), p)
    case None =>
      match ValidateSQLCommand(c, p.currentPuzzle, p.currentFocus, command)
      case Some(err) => Turn(Success(Reply(Refusal(c, p, err.message), None)), p)
      case None => ExecuteSpec(e, c, p, command, now)
  }

  /** Answers one command: a narrative rule, else the focus validator's refusal, else
      the statement's execution. */
  method ProcessCommand<D>(e: Engine<D>, c: Case, prog: Progression, command: String, now: Timestamp) returns (r: Result<Reply, String>)
    modifies prog
    ensures Turn(r, prog.State()) == ProcessSpec(e, c, old(prog.State()), command, now)
  {
    var upperCommand := ToUpper(TrimSpace(command));
    var response := HandleGameCommand(c, prog.State(), upperCommand);
    if response.Some? {
      return Success(Reply(response.value, None));
    }
    var err := ValidateSQLCommand(c, prog.currentPuzzle, prog.currentFocus, command);
    if err.Some? {
      var state := GetCurrentState(c, prog);
      return Success(Reply(GameResponse(false, "", NoData, err.value.message, state), None));
    }
    r := ExecuteSQL(e, c, prog, command, now);
  }

  // ---------------------------------------------------------------------------
  // Properties of a command

  /** Blank input is never a narrative command. */
  lemma BlankIsNeverNarrative(c: Case, p: ProgressionState, command: String)
    requires forall i :: 0 <= i < |command| ==> IsSpace(command[i])
    ensures HandleGameCommand(c, p, ToUpper(TrimSpace(command))).None?
  {
    assert TrimSpace(command) == [];
    assert ToUpper([]) == [];
  }

  /** A SELECT never records history. */
  lemma SelectRecordsNothing<D>(e: Engine<D>, c: Case, p: ProgressionState, command: String, now: Timestamp)
    requires IsSelect(command)
    ensures ProcessSpec(e, c, p, command, now).result.Success? ==> ProcessSpec(e, c, p, command, now).result.value.item.None?
  {
  }

  /** When every unlocking validation points forward, a command never moves the player
      back. */
  lemma ForwardCasesOnlyAdvance<D>(e: Engine<D>, c: Case, p: ProgressionState, command: String, now: Timestamp)
    requires forall i :: 0 <= i < |c.validations| && c.validations[i].unlocksNext
               ==> c.validations[i].nextPuzzle >= c.validations[i].puzzle
    ensures ProcessSpec(e, c, p, command, now).after.currentPuzzle >= p.currentPuzzle
  {
  }
}
