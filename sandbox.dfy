/** The ephemeral database builder: a fresh in-memory database per command, with
    every schema fragment active at the player's puzzle applied in declared order
    and the player's history replayed on top, destructive statements excepted.

    The SQL engine itself is an oracle (`Engine`): a database state of type `D`
    that statements are executed against. The builder is then exactly the
    sequence of statements it issues (`SchemaPlan`, `ReplayQueries`) and how it
    reacts to their failures (`Build`). */
module Sandbox {
  import opened Wrappers
  import opened Text
  import opened Models

  /** Outcome of executing one statement: the database afterwards, and the engine's
      error text when it failed (a failing statement may have changed the database). */
  datatype ExecOutcome<D> = Executed(db: D) | ExecFailed(db: D, message: String)

  /** Outcome of running a query: the rows it returned and the database it left (a text
      holding several statements runs them all and returns the last one's rows), or
      the engine's error text. */
  datatype QueryOutcome<D> = Answered(db: D, rows: seq<Row>) | QueryFailed(message: String)

  /** The SQL engine as seen by the core: opening an in-memory database, executing a
      statement, running a query and serialising its rows, and reading the first
      column of the first row of a query rendered as text (None when that fails). */
  datatype Engine<!D> = Engine(
    open: Result<D, String>,
    exec: (D, String) -> ExecOutcome<D>,
    query: (D, String) -> QueryOutcome<D>,
    scalar: (D, String) -> Option<String>)

  // ---------------------------------------------------------------------------
  // The statement plan

  /** A fragment's statements: its create statement, then its insert statement if any. */
  function FragmentStatements(f: Schema): seq<String> {
    [f.createSql] + (if f.insertSql != "" then [f.insertSql] else [])
  }

  /** The fragments active at `puzzle`, in declared order. */
  function Active(schemas: seq<Schema>, puzzle: int): (r: seq<Schema>)
    ensures forall f :: f in r <==> f in schemas && f.puzzle <= puzzle
  {
    if schemas == [] then []
    else (if schemas[0].puzzle <= puzzle then [schemas[0]] else []) + Active(schemas[1..], puzzle)
  }

  /** The statements of `fragments`, in order. */
  function Statements(fragments: seq<Schema>): seq<String> {
    if fragments == [] then [] else FragmentStatements(fragments[0]) + Statements(fragments[1..])
  }

  /** The schema statements the builder issues at `puzzle`: those of the active fragments,
      in declared order. */
  function SchemaPlan(schemas: seq<Schema>, puzzle: int): seq<String> {
    Statements(Active(schemas, puzzle))
  }

  /** The history entries that are replayed, in stored order. */
  function ReplayQueries(history: seq<HistoryItem>): (r: seq<String>)
    ensures forall q :: q in r ==> q != "" && !IsDangerousSQL(q)
    ensures forall i :: 0 <= i < |history| && history[i].query != "" && !IsDangerousSQL(history[i].query)
              ==> history[i].query in r
  {
    if history == [] then []
    else
      var q := history[0].query;
      (if q != "" && !IsDangerousSQL(q) then [q] else []) + ReplayQueries(history[1..])
  }

  /** Executing statements in order, stopping at the first failure and reporting its error. */
  function ExecAll<D>(e: Engine<D>, d: D, stmts: seq<String>): Result<D, String> {
    if stmts == [] then Success(d)
    else
      match e.exec(d, stmts[0])
      case ExecFailed(_, message) => Failure(message)
      case Executed(d') => ExecAll(e, d', stmts[1..])
  }

  /** Executing statements in order, carrying on past failures. */
  function ReplayAll<D>(e: Engine<D>, d: D, stmts: seq<String>): D {
    if stmts == [] then d else ReplayAll(e, e.exec(d, stmts[0]).db, stmts[1..])
  }

  /** The database built for a player at `puzzle` with `history`, or the error that aborted it. */
  function Build<D>(e: Engine<D>, c: Case, puzzle: int, history: seq<HistoryItem>): Result<D, String> {
    match e.open
    case Failure(err) => Failure(err)
    case Success(d0) =>
      match ExecAll(e, d0, SchemaPlan(c.schemas, puzzle))
      case Failure(err) => Failure(err)
      case Success(d1) => Success(ReplayAll(e, d1, ReplayQueries(history)))
  }

  // ---------------------------------------------------------------------------
  // The builder

  /** Opens a database, applies the active schema fragments (closing the database and
      failing on the first error) and replays the history (ignoring replay errors). */
  method CreateInMemoryDB<D>(e: Engine<D>, c: Case, prog: Progression) returns (r: Result<D, String>)
    ensures r == Build(e, c, prog.currentPuzzle, prog.sqlHistory)
  {
    if e.open.Failure? {
      return Failure(e.open.error);
    }
    var applied := ApplySchemas(e, e.open.value, c.schemas, prog.currentPuzzle);
    if applied.Failure? {
      return Failure(applied.error);
    }
    var db := ReplayHistory(e, applied.value, prog.sqlHistory);
    return Success(db);
  }

  /** Executes the create and insert statements of the fragments active at `puzzle`, in
      declared order, stopping at the first statement that fails. */
  method ApplySchemas<D>(e: Engine<D>, db0: D, schemas: seq<Schema>, puzzle: int) returns (r: Result<D, String>)
    ensures r == ExecAll(e, db0, SchemaPlan(schemas, puzzle))
  {
    var db := db0;
    var i := 0;
    while i < |schemas|
      invariant 0 <= i <= |schemas|
      invariant ExecAll(e, db0, SchemaPlan(schemas, puzzle)) == ExecAll(e, db, SchemaPlan(schemas[i..], puzzle))
    {
      var schema := schemas[i];
      SchemaPlanStep(schemas[i..], puzzle);
      assert schemas[i..][1..] == schemas[i + 1..];
      if schema.puzzle <= puzzle {
        ghost var rest := SchemaPlan(schemas[i + 1..], puzzle);
        ghost var inserts := if schema.insertSql != "" then [schema.insertSql] else [];
        ExecAllCons(e, db, schema.createSql, inserts + rest);
        var created := e.exec(db, schema.createSql);
        if created.ExecFailed? {
          return Failure(created.message);
        }
        db := created.db;
        if schema.insertSql != "" {
          ExecAllCons(e, db, schema.insertSql, rest);
          var inserted := e.exec(db, schema.insertSql);
          if inserted.ExecFailed? {
            return Failure(inserted.message);
          }
          db := inserted.db;
        }
      }
      i := i + 1;
    }
    return Success(db);
  }

  /** Re-executes every non-empty, non-dangerous history entry in stored order; a
      statement that fails is only logged. */
  method ReplayHistory<D>(e: Engine<D>, db0: D, history: seq<HistoryItem>) returns (db: D)
    ensures db == ReplayAll(e, db0, ReplayQueries(history))
  {
    db := db0;
    var j := 0;
    while j < |history|
      invariant 0 <= j <= |history|
      invariant ReplayAll(e, db0, ReplayQueries(history)) == ReplayAll(e, db, ReplayQueries(history[j..]))
    {
      var item := history[j];
      assert history[j..][1..] == history[j + 1..];
      if item.query != "" && !IsDangerousSQL(item.query) {
        ghost var rest := ReplayQueries(history[j + 1..]);
        assert ReplayQueries(history[j..]) == [item.query] + rest;
        assert ([item.query] + rest)[1..] == rest;
        db := e.exec(db, item.query).db;
      } else {
        assert ReplayQueries(history[j..]) == ReplayQueries(history[j + 1..]);
      }
      j := j + 1;
    }
  }

  lemma SchemaPlanStep(schemas: seq<Schema>, puzzle: int)
    requires schemas != []
    ensures schemas[0].puzzle <= puzzle ==>
      SchemaPlan(schemas, puzzle) == [schemas[0].createSql]
        + ((if schemas[0].insertSql != "" then [schemas[0].insertSql] else []) + SchemaPlan(schemas[1..], puzzle))
    ensures schemas[0].puzzle > puzzle ==> SchemaPlan(schemas, puzzle) == SchemaPlan(schemas[1..], puzzle)
  {
    var rest := Active(schemas[1..], puzzle);
    if schemas[0].puzzle <= puzzle {
      assert Active(schemas, puzzle) == [schemas[0]] + rest;
      assert ([schemas[0]] + rest)[1..] == rest;
    } else {
      assert Active(schemas, puzzle) == rest;
    }
  }

  lemma ExecAllCons<D>(e: Engine<D>, d: D, stmt: String, rest: seq<String>)
    ensures e.exec(d, stmt).ExecFailed? ==> ExecAll(e, d, [stmt] + rest) == Failure(e.exec(d, stmt).message)
    ensures e.exec(d, stmt).Executed? ==> ExecAll(e, d, [stmt] + rest) == ExecAll(e, e.exec(d, stmt).db, rest)
  {
    assert ([stmt] + rest)[1..] == rest;
  }

  // ---------------------------------------------------------------------------
  // What the plan guarantees

  /** Fragment selection is cumulative: the fragments active at `k` are exactly the
      fragments active at any later puzzle `k'` that were already active at `k`, in the
      same order. */
  lemma {:induction false} ActiveCumulative(schemas: seq<Schema>, k: int, k': int)
    requires k <= k'
    ensures Active(Active(schemas, k'), k) == Active(schemas, k)
  {
    if schemas != [] {
      var f, rest := schemas[0], schemas[1..];
      assert schemas == [f] + rest;
      ActiveCumulative(rest, k, k');
      ActiveCons(f, rest, k);
      ActiveCons(f, rest, k');
      if f.puzzle <= k' {
        ActiveCons(f, Active(rest, k'), k);
      }
    }
  }

  /** The fragments active in a list that starts with `f`. */
  lemma {:induction false} ActiveCons(f: Schema, rest: seq<Schema>, k: int)
    ensures Active([f] + rest, k) == if f.puzzle <= k then [f] + Active(rest, k) else Active(rest, k)
  {
    assert ([f] + rest)[1..] == rest;
    assert [] + Active(rest, k) == Active(rest, k);
  }

  /** Replaying a history split in two replays the two parts one after the other. */
  lemma {:induction false} ReplayQueriesAppend(h1: seq<HistoryItem>, h2: seq<HistoryItem>)
    ensures ReplayQueries(h1 + h2) == ReplayQueries(h1) + ReplayQueries(h2)
  {
    if h1 != [] {
      assert (h1 + h2)[1..] == h1[1..] + h2;
      ReplayQueriesAppend(h1[1..], h2);
    } else {
      assert h1 + h2 == h2;
    }
  }

  lemma {:induction false} ReplayAllAppend<D>(e: Engine<D>, d: D, a: seq<String>, b: seq<String>)
    ensures ReplayAll(e, d, a + b) == ReplayAll(e, ReplayAll(e, d, a), b)
  {
    if a != [] {
      assert (a + b)[1..] == a[1..] + b;
      ReplayAllAppend(e, e.exec(d, a[0]).db, a[1..], b);
    } else {
      assert a + b == b;
    }
  }

  /** The database rebuilt for the next command, once `item` has been appended to the
      history, is the database rebuilt now with `item`'s statement executed on it; an
      empty or dangerous statement leaves the rebuilt database as it was. */
  lemma BuildAppend<D>(e: Engine<D>, c: Case, puzzle: int, history: seq<HistoryItem>, item: HistoryItem)
    ensures Build(e, c, puzzle, history).Failure? <==> Build(e, c, puzzle, history + [item]).Failure?
    ensures Build(e, c, puzzle, history).Success? ==>
      Build(e, c, puzzle, history + [item]) ==
        if item.query != "" && !IsDangerousSQL(item.query)
        then Success(e.exec(Build(e, c, puzzle, history).value, item.query).db)
        else Build(e, c, puzzle, history)
  {
    ReplayQueriesAppend(history, [item]);
    assert [item][1..] == [];
    if e.open.Success? && ExecAll(e, e.open.value, SchemaPlan(c.schemas, puzzle)).Success? {
      var d1 := ExecAll(e, e.open.value, SchemaPlan(c.schemas, puzzle)).value;
      ReplayAllAppend(e, d1, ReplayQueries(history), ReplayQueries([item]));
    }
  }

  /** An empty or dangerous entry anywhere in the history has no effect on the database. */
  lemma SkippedEntryIrrelevant<D>(e: Engine<D>, c: Case, puzzle: int, h1: seq<HistoryItem>, item: HistoryItem, h2: seq<HistoryItem>)
    requires item.query == "" || IsDangerousSQL(item.query)
    ensures Build(e, c, puzzle, h1 + [item] + h2) == Build(e, c, puzzle, h1 + h2)
  {
    ReplayQueriesAppend(h1 + [item], h2);
    ReplayQueriesAppend(h1, [item]);
    ReplayQueriesAppend(h1, h2);
    assert [item][1..] == [];
    assert ReplayQueries([item]) == [];
    assert ReplayQueries(h1 + [item]) == ReplayQueries(h1);
    assert ReplayQueries(h1 + [item] + h2) == ReplayQueries(h1 + h2);
  }

  // ---------------------------------------------------------------------------
  // Destructive statements

  const DangerousKeywords: seq<String> := ["DROP", "TRUNCATE", "ALTER", "ATTACH", "DETACH", "VACUUM"]

  /** Some word of `words` occurs in `s`. */
  function ContainsAny(s: String, words: seq<String>): (r: bool)
    ensures r <==> exists k :: 0 <= k < |words| && Contains(s, words[k])
  {
    if words == [] then false else Contains(s, words[0]) || ContainsAny(s, words[1..])
  }

  /** A denylisted keyword occurs anywhere in the upper-cased query, even inside a word
      or a string literal. */
  predicate IsDangerousSQL(query: String) {
    ContainsAny(ToUpper(query), DangerousKeywords)
  }

  const AllowedTables: seq<String> := ["pistas_logicas", "suspeitos", "livros", "funcionarios"]

  predicate StartsWithVerb(upper: String) {
    HasPrefix(upper, "SELECT") || HasPrefix(upper, "INSERT") || HasPrefix(upper, "UPDATE") || HasPrefix(upper, "DELETE")
  }

  /** The statement filter as written: dangerous queries are refused; then a query that
      mentions an allowed table name, compared in lower case against the upper-cased
      text, is accepted; otherwise the upper-cased text must start with a verb. */
  function ValidateSQL(query: String): (ok: bool)
    ensures ok ==> !IsDangerousSQL(query)
  {
    var upper := ToUpper(query);
    if IsDangerousSQL(query) then false
    else if ContainsAny(upper, AllowedTables) then true
    else StartsWithVerb(upper)
  }

  /** The statement filter with the allowed table names upper-cased before the comparison. */
  function ValidateSQLIntended(query: String): (ok: bool)
    ensures ok ==> !IsDangerousSQL(query)
  {
    var upper := ToUpper(query);
    if IsDangerousSQL(query) then false
    else if ContainsAny(upper, UpperAll(AllowedTables)) then true
    else StartsWithVerb(upper)
  }

  /** A dangerous query stays dangerous whatever text surrounds it. */
  lemma DangerousInContext(x: String, q: String, y: String)
    requires IsDangerousSQL(q)
    ensures IsDangerousSQL(x + q + y)
  {
    var k :| 0 <= k < |DangerousKeywords| && Contains(ToUpper(q), DangerousKeywords[k]);
    UpperOfConcat(x + q, y);
    UpperOfConcat(x, q);
    ContainsInContext(ToUpper(x), ToUpper(q), ToUpper(y), DangerousKeywords[k]);
  }

  /** The denylist is a substring test: an ordinary update whose string literal merely
      contains a keyword inside a word is dangerous, so it is never replayed. */
  lemma DangerousInsideWord()
    ensures IsDangerousSQL("UPDATE livros SET titulo = 'Backdrop'")
  {
    var u := ToUpper("UPDATE livros SET titulo = 'Backdrop'");
    assert u[32..36] == "DROP";
    assert OccursAt(u, DangerousKeywords[0], 32);
  }

  /** No upper-cased text contains an allowed table name as written, so the table test of
      ValidateSQL never accepts anything and the filter is the verb-prefix test alone. */
  lemma ValidateSQLIsVerbTest(query: String)
    ensures ValidateSQL(query) <==> !IsDangerousSQL(query) && StartsWithVerb(ToUpper(query))
  {
    forall k | 0 <= k < |AllowedTables|
      ensures !Contains(ToUpper(query), AllowedTables[k])
    {
      UpperLacksLowerCase(query, AllowedTables[k], 0);
    }
  }

  /** A query naming an allowed table, led by a space: rejected by the filter as
      written, accepted by the intended one. */
  lemma {:induction false} ValidateSQLIgnoresTables()
    ensures !ValidateSQL(" SELECT * FROM livros")
    ensures ValidateSQLIntended(" SELECT * FROM livros")
  {
    var q := " SELECT * FROM livros";
    TableQueryIsSafe();
    TableQueryHasNoVerb();
    ValidateSQLIsVerbTest(q);
    IntendedAcceptsTables(q, 2);
  }

  /** The upper-cased table query starts with a space, not a verb. */
  lemma {:induction false} TableQueryHasNoVerb()
    ensures !StartsWithVerb(" SELECT * FROM LIVROS")
  {
    var u := " SELECT * FROM LIVROS";
    assert u[..6][0] == ' ';
  }

  lemma {:induction false} TableQueryIsSafe()
    ensures ToUpper(" SELECT * FROM livros") == " SELECT * FROM LIVROS"
    ensures !IsDangerousSQL(" SELECT * FROM livros")
    ensures Contains(ToUpper(" SELECT * FROM livros"), ToUpper(AllowedTables[2]))
  {
    UpperTableQuery();
    UpperTableQueryIsSafe();
    TableQueryNamesTable();
  }

  lemma {:induction false} TableQueryNamesTable()
    ensures ToUpper(AllowedTables[2]) == "LIVROS" && Contains(" SELECT * FROM LIVROS", "LIVROS")
  {
    assert OccursAt(" SELECT * FROM LIVROS", "LIVROS", 15);
  }

  lemma {:induction false} UpperTableQuery()
    ensures ToUpper(" SELECT * FROM livros") == " SELECT * FROM LIVROS"
  {
  }

  /** The upper-cased table query holds none of the denylisted keywords: it has no `A`,
      `D` or `U`, and each keyword has one of them. */
  lemma {:induction false} UpperTableQueryIsSafe()
    ensures !ContainsAny(" SELECT * FROM LIVROS", DangerousKeywords)
  {
    var u := " SELECT * FROM LIVROS";
    TableQueryRunes();
    forall k | 0 <= k < |DangerousKeywords|
      ensures !Contains(u, DangerousKeywords[k])
    {
      var w := DangerousKeywords[k];
      if k == 1 { LacksRune(u, w, 2); }
      else if k == 5 { LacksRune(u, w, 1); }
      else { LacksRune(u, w, 0); }
    }
  }

  lemma {:induction false} TableQueryRunes()
    ensures 'A' !in " SELECT * FROM LIVROS" && 'D' !in " SELECT * FROM LIVROS" && 'U' !in " SELECT * FROM LIVROS"
  {
  }

  /** With the names upper-cased, a safe query that names an allowed table is accepted,
      whatever case it is written in. */
  lemma IntendedAcceptsTables(query: String, k: nat)
    requires k < |AllowedTables| && !IsDangerousSQL(query)
    requires Contains(ToUpper(query), ToUpper(AllowedTables[k]))
    ensures ValidateSQLIntended(query)
  {
    assert UpperAll(AllowedTables)[k] == ToUpper(AllowedTables[k]);
  }

  function UpperAll(words: seq<String>): (r: seq<String>)
    ensures |r| == |words| && forall k :: 0 <= k < |words| ==> r[k] == ToUpper(words[k])
  {
    if words == [] then [] else [ToUpper(words[0])] + UpperAll(words[1..])
  }
}
