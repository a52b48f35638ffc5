/** `createPostgresAdapter` in `server/db-adapter.js`: an object with the MySQL driver's
    `execute`/`query` interface over a PostgreSQL pool. */
module DbAdapter {
  import opened PgPool
  import Placeholders

  /** `execute(query, params)`: the query with its `?` placeholders numbered, the parameter
      list untouched, and the answer reshaped to `[rows, fields]`; a rejection is rethrown. */
  method Execute(pool: Pool, query: string, params: seq<SqlValue>) returns (sent: Call, result: Outcome<RowsAndFields>)
    ensures sent.text == Placeholders.PrepareQuery(query, |params|)
    ensures sent.values == params
    ensures result == AsPair(pool(sent.text, sent.values))
  {
    var modifiedQuery := Placeholders.Rewrite(query, params);
    sent := Call(modifiedQuery, params);
    result := AsPair(pool(modifiedQuery, params));
  }

  /** `query(query, params)` is `this.execute(query, params)`. */
  method Query(pool: Pool, query: string, params: seq<SqlValue>) returns (sent: Call, result: Outcome<RowsAndFields>)
    ensures sent.text == Placeholders.PrepareQuery(query, |params|)
    ensures sent.values == params
    ensures result == AsPair(pool(sent.text, sent.values))
  {
    sent, result := Execute(pool, query, params);
  }
}
