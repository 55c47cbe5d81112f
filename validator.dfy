/** The focus validator: before a statement is executed, the focus requirements of the
    player's puzzle are scanned in authored order, and the first one whose command types
    occur in the upper-cased statement while the player looks at something else rejects
    it. Also the structural check of a case. */
module Validator {
  import opened Wrappers
  import opened Text
  import opened Models
  import opened Sandbox

  /** `req` is a rule of `puzzle` that the upper-cased statement `upper` breaks at `focus`. */
  predicate Violates(req: FocusRequirement, puzzle: int, focus: String, upper: String) {
    req.puzzle == puzzle && focus != req.requiredFocus && ContainsAny(upper, req.commandTypes)
  }

  /** The first requirement of `reqs` that the statement breaks. */
  function FirstViolation(reqs: seq<FocusRequirement>, puzzle: int, focus: String, upper: String): (r: Option<FocusRequirement>)
    ensures r.None? <==> forall j :: 0 <= j < |reqs| ==> !Violates(reqs[j], puzzle, focus, upper)
    ensures r.Some? ==>
      exists i :: 0 <= i < |reqs| && reqs[i] == r.value && Violates(reqs[i], puzzle, focus, upper)
        && forall j :: 0 <= j < i ==> !Violates(reqs[j], puzzle, focus, upper)
  {
    if reqs == [] then None
    else if Violates(reqs[0], puzzle, focus, upper) then Some(reqs[0])
    else
      var r := FirstViolation(reqs[1..], puzzle, focus, upper);
      assert r.Some? ==>
        exists i :: 1 <= i < |reqs| && reqs[i] == r.value && Violates(reqs[i], puzzle, focus, upper)
          && forall j :: 0 <= j < i ==> !Violates(reqs[j], puzzle, focus, upper)
      by {
        if r.Some? {
          var i :| 0 <= i < |reqs[1..]| && reqs[1..][i] == r.value && Violates(reqs[1..][i], puzzle, focus, upper)
            && forall j :: 0 <= j < i ==> !Violates(reqs[1..][j], puzzle, focus, upper);
          assert reqs[i + 1] == r.value;
          forall j | 1 <= j < i + 1
            ensures !Violates(reqs[j], puzzle, focus, upper)
          {
            assert reqs[j] == reqs[1..][j - 1];
          }
        }
      }
      r
  }

  /** The error of the first requirement of the player's puzzle that `command` breaks,
      none when it breaks none. */
  function ValidateSQLCommand(c: Case, puzzle: int, focus: String, command: String): (r: Option<APIError>)
    ensures r.Some? <==>
      exists i, k :: 0 <= i < |c.focusRequirements| && 0 <= k < |c.focusRequirements[i].commandTypes|
        && c.focusRequirements[i].puzzle == puzzle
        && focus != c.focusRequirements[i].requiredFocus
        && Contains(ToUpper(command), c.focusRequirements[i].commandTypes[k])
    ensures r.Some? ==>
      exists i :: 0 <= i < |c.focusRequirements|
        && Violates(c.focusRequirements[i], puzzle, focus, ToUpper(command))
        && r.value == APIError(c.focusRequirements[i].errorMessage, ErrFocusRequired)
        && forall j :: 0 <= j < i ==> !Violates(c.focusRequirements[j], puzzle, focus, ToUpper(command))
    ensures (forall i :: 0 <= i < |c.focusRequirements| && c.focusRequirements[i].puzzle == puzzle
               ==> c.focusRequirements[i].requiredFocus == focus) ==> r.None?
  {
    match FirstViolation(c.focusRequirements, puzzle, focus, ToUpper(command))
    case None => None
    case Some(req) => Some(APIError(req.errorMessage, ErrFocusRequired))
  }

  /** The requirements of `puzzle`, in authored order. */
  function ForPuzzle(reqs: seq<FocusRequirement>, puzzle: int): (r: seq<FocusRequirement>)
    ensures forall q :: q in r <==> q in reqs && q.puzzle == puzzle
  {
    if reqs == [] then []
    else (if reqs[0].puzzle == puzzle then [reqs[0]] else []) + ForPuzzle(reqs[1..], puzzle)
  }

  lemma {:induction false} FirstViolationForPuzzle(reqs: seq<FocusRequirement>, puzzle: int, focus: String, upper: String)
    ensures FirstViolation(ForPuzzle(reqs, puzzle), puzzle, focus, upper) == FirstViolation(reqs, puzzle, focus, upper)
  {
    if reqs != [] {
      FirstViolationForPuzzle(reqs[1..], puzzle, focus, upper);
      var rest := ForPuzzle(reqs[1..], puzzle);
      if reqs[0].puzzle == puzzle {
        var t := [reqs[0]] + rest;
        assert ForPuzzle(reqs, puzzle) == t;
        assert t[0] == reqs[0] && t[1..] == rest;
      } else {
        assert ForPuzzle(reqs, puzzle) == rest;
      }
    }
  }

  /** Only the requirements of the player's puzzle are consulted: dropping every other
      requirement from the case changes nothing. */
  lemma OnlyCurrentPuzzleConsulted(c: Case, puzzle: int, focus: String, command: String)
    ensures ValidateSQLCommand(c.(focusRequirements := ForPuzzle(c.focusRequirements, puzzle)), puzzle, focus, command)
            == ValidateSQLCommand(c, puzzle, focus, command)
  {
    FirstViolationForPuzzle(c.focusRequirements, puzzle, focus, ToUpper(command));
  }

  // ---------------------------------------------------------------------------
  // Structural check of a case

  /** Every puzzle is numbered from 1. */
  function NumberedFromOne(puzzles: seq<Puzzle>): (ok: bool)
    ensures ok <==> forall i :: 0 <= i < |puzzles| ==> puzzles[i].number >= 1
  {
    if puzzles == [] then true else puzzles[0].number >= 1 && NumberedFromOne(puzzles[1..])
  }

  /** A case is valid when it has an identifier, a title and at least one puzzle, and
      every puzzle is numbered from 1. */
  function IsValidCase(c: Case): (ok: bool)
    ensures ok <==> c.id != "" && c.title != "" && |c.puzzles| > 0
                    && forall i :: 0 <= i < |c.puzzles| ==> c.puzzles[i].number >= 1
  {
    if c.id == "" || c.title == "" then false
    else if |c.puzzles| == 0 then false
    else NumberedFromOne(c.puzzles)
  }
}
