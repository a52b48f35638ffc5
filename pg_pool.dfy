/** The part of the `pg` driver's connection pool the adapters see: `pool.query(text, values)`
    either resolves with a result object or rejects with an error. The database behind
    the pool is a parameter of the model; values are the JavaScript values a query is bound to. */
module PgPool {

  datatype SqlValue = SqlNull | SqlBool(b: bool) | SqlInt(i: int) | SqlText(s: string)

  type Row = seq<SqlValue>

  /** The fields of a `pg` result object that the adapters read. */
  datatype PgResult = PgResult(rows: seq<Row>, fields: seq<string>, rowCount: nat)

  /** How one `pool.query` call settles. */
  datatype PoolOutcome = Done(result: PgResult) | Failed(message: string)

  /** The database behind the pool, answering one query at a time. */
  type Pool = (string, seq<SqlValue>) -> PoolOutcome

  /** The text and values actually handed to `pool.query`. */
  datatype Call = Call(text: string, values: seq<SqlValue>)

  /** How an adapter function settles: it returns a value or throws. */
  datatype Outcome<T> = Returned(value: T) | Thrown(message: string)

  /** The MySQL-shaped pair `[rows, fields]`. */
  datatype RowsAndFields = RowsAndFields(rows: seq<Row>, fields: seq<string>)

  /** `return [result.rows, result.fields]`, with a rejection passed on to the caller. */
  function AsPair(o: PoolOutcome): (r: Outcome<RowsAndFields>)
    ensures r.Thrown? <==> o.Failed?
    ensures o.Failed? ==> r.message == o.message
    ensures o.Done? ==> r.value.rows == o.result.rows && r.value.fields == o.result.fields
  {
    match o
    case Done(res) => Returned(RowsAndFields(res.rows, res.fields))
    case Failed(m) => Thrown(m)
  }

  /** `return result`: the raw result object, with a rejection passed on to the caller. */
  function AsRaw(o: PoolOutcome): (r: Outcome<PgResult>)
    ensures r.Thrown? <==> o.Failed?
    ensures o.Failed? ==> r.message == o.message
    ensures o.Done? ==> r.value == o.result
  {
    match o
    case Done(res) => Returned(res)
    case Failed(m) => Thrown(m)
  }
}
