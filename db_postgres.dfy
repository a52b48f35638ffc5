/** `server/db-postgres.js`: the module-level PostgreSQL pool with `query`, `execute` and
    `initializeDatabase`. */
module DbPostgres {
  import opened PgPool
  import opened Options
  import Seqs
  import Strings
  import Placeholders

  /** `query(text, params)`: the text goes to the pool verbatim, with no placeholder rewrite. */
  method Query(pool: Pool, text: string, params: seq<SqlValue>) returns (sent: Call, result: Outcome<RowsAndFields>)
    ensures sent == Call(text, params)
    ensures result == AsPair(pool(text, params))
  {
    sent := Call(text, params);
    result := AsPair(pool(text, params));
  }

  /** `execute(text, params)`: the same rewrite as the adapter's `execute`. */
  method Execute(pool: Pool, text: string, params: seq<SqlValue>) returns (sent: Call, result: Outcome<RowsAndFields>)
    ensures sent.text == Placeholders.PrepareQuery(text, |params|)
    ensures sent.values == params
    ensures result == AsPair(pool(sent.text, sent.values))
  {
    var modifiedText := Placeholders.Rewrite(text, params);
    sent := Call(modifiedText, params);
    result := AsPair(pool(modifiedText, params));
  }

  /** `initScript.split(';').filter(query => query.trim().length > 0)` */
  function InitStatements(script: string): seq<string>
  {
    Seqs.Filter(Strings.SplitOn(script, ';'), (p: string) => !Strings.IsBlank(p))
  }

  /** The statements are the non-blank pieces between semicolons: none is blank, none contains
      `;`, they keep the script's order, and no non-blank piece is dropped. */
  lemma InitStatementsPieces(script: string)
    ensures forall i :: 0 <= i < |InitStatements(script)| ==>
      !Strings.IsBlank(InitStatements(script)[i]) && ';' !in InitStatements(script)[i]
    ensures Seqs.IsSubsequence(InitStatements(script), Strings.SplitOn(script, ';'))
    ensures forall p :: p in Strings.SplitOn(script, ';') && !Strings.IsBlank(p) ==> p in InitStatements(script)
  {
    var pieces := Strings.SplitOn(script, ';');
    Strings.SplitPieces(script, ';');
    Seqs.FilterIsSubsequence(pieces, (p: string) => !Strings.IsBlank(p));
    Seqs.FilterMembers(pieces, (p: string) => !Strings.IsBlank(p));
  }

  /** Running `stmts` one after another against a database `db`, where `exec` gives the
      database after a statement or `None` when the statement fails. A failed statement
      leaves the database as it was and is recorded; the run goes on with the next one. */
  function RunAll<S>(db: S, stmts: seq<string>, exec: (S, string) -> Option<S>): (S, seq<string>)
  {
    if stmts == [] then (db, [])
    else
      var (d, failed) := RunAll(db, stmts[..|stmts| - 1], exec);
      var last := stmts[|stmts| - 1];
      match exec(d, last)
      case None => (d, failed + [last])
      case Some(d') => (d', failed)
  }

  /** One more statement at the end is one more step of the run. */
  lemma RunAllSnoc<S>(db: S, stmts: seq<string>, q: string, exec: (S, string) -> Option<S>)
    ensures var (d, failed) := RunAll(db, stmts, exec);
      RunAll(db, stmts + [q], exec) ==
        if exec(d, q).None? then (d, failed + [q]) else (exec(d, q).value, failed)
  {
    assert (stmts + [q])[..|stmts + [q]| - 1] == stmts;
  }

  /** Only statements of the script are reported as failed, in script order; when every
      statement succeeds, none is. */
  lemma {:induction false} RunAllFailures<S>(db: S, stmts: seq<string>, exec: (S, string) -> Option<S>)
    ensures Seqs.IsSubsequence(RunAll(db, stmts, exec).1, stmts)
    ensures (forall d, q :: exec(d, q).Some?) ==> RunAll(db, stmts, exec).1 == []
  {
    var idx := RunAllFailureIndices(db, stmts, exec);
    if (forall d, q :: exec(d, q).Some?) && stmts != [] {
      var init := stmts[..|stmts| - 1];
      RunAllFailures(db, init, exec);
      var (d, failed) := RunAll(db, init, exec);
      assert exec(d, stmts[|stmts| - 1]).Some?;
    }
  }

  lemma {:induction false} RunAllFailureIndices<S>(db: S, stmts: seq<string>, exec: (S, string) -> Option<S>)
    returns (idx: seq<nat>)
    ensures |idx| == |RunAll(db, stmts, exec).1|
    ensures forall k :: 0 <= k < |idx| ==> idx[k] < |stmts| && RunAll(db, stmts, exec).1[k] == stmts[idx[k]]
    ensures forall k, l :: 0 <= k < l < |idx| ==> idx[k] < idx[l]
  {
    if stmts == [] {
      idx := [];
    } else {
      var init := stmts[..|stmts| - 1];
      var front := RunAllFailureIndices(db, init, exec);
      var (d, failed) := RunAll(db, init, exec);
      if exec(d, stmts[|stmts| - 1]).None? {
        idx := front + [|stmts| - 1];
      } else {
        idx := front;
      }
    }
  }

  /** The `for (const query of queries)` loop: each statement is tried in turn, a failure is
      logged and the loop goes on. */
  method RunStatements<S>(db: S, queries: seq<string>, exec: (S, string) -> Option<S>)
    returns (final: S, failed: seq<string>)
    ensures (final, failed) == RunAll(db, queries, exec)
  {
    final, failed := db, [];
    var i := 0;
    while i < |queries|
      invariant 0 <= i <= |queries|
      invariant (final, failed) == RunAll(db, queries[..i], exec)
    {
      var query := queries[i];
      assert queries[..i + 1] == queries[..i] + [query];
      RunAllSnoc(db, queries[..i], query, exec);
      var step := exec(final, query);
      if step.None? {
        failed := failed + [query];
      } else {
        final := step.value;
      }
      i := i + 1;
    }
    assert queries[..i] == queries;
  }

  /** `initializeDatabase()`: connect (when that fails the error is rethrown); read the init
      script (when that fails the error is logged and nothing runs); then run every
      statement in turn, logging a failure and carrying on with the next statement.
      `connects` is the outcome of `pool.connect()` and `script` the file's contents. */
  method InitializeDatabase<S>(connects: bool, script: Option<string>, db: S, exec: (S, string) -> Option<S>)
    returns (ok: bool, attempted: seq<string>, final: S, failed: seq<string>)
    ensures ok == connects
    ensures attempted == (if connects && script.Some? then InitStatements(script.value) else [])
    ensures (final, failed) == RunAll(db, attempted, exec)
  {
    attempted, final, failed := [], db, [];
    ok := connects;
    if connects && script.Some? {
      attempted := InitStatements(script.value);
      final, failed := RunStatements(db, attempted, exec);
    }
  }
}
