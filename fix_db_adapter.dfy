/** `server/fix-db-adapter.js`: a stand-alone repair script with its own `executeQuery` and a
    `testConnection` routine that seeds the administrator account when it is missing. */
module FixDbAdapter {
  import opened PgPool
  import Placeholders

  /** `executeQuery(query, params)`: the same placeholder rewrite as the adapter, but the raw
      `pg` result object is returned rather than `[rows, fields]`; a rejection is rethrown. */
  method ExecuteQuery(pool: Pool, query: string, params: seq<SqlValue>) returns (sent: Call, result: Outcome<PgResult>)
    ensures sent.text == Placeholders.PrepareQuery(query, |params|)
    ensures sent.values == params
    ensures result == AsRaw(pool(sent.text, sent.values))
  {
    var modifiedQuery := Placeholders.Rewrite(query, params);
    sent := Call(modifiedQuery, params);
    result := AsRaw(pool(modifiedQuery, params));
  }

  const NowQuery: string := "SELECT NOW() as time"
  const CountUsersQuery: string := "SELECT COUNT(*) FROM users"
  const AdminLookupQuery: string := "SELECT * FROM users WHERE email = 'admin@example.com'"
  /** The administrator insert, written in four pieces so that each can be checked on its own. */
  const AdminInsertColumns1: string := "INSERT INTO users (first_name, "
  const AdminInsertColumns2: string := "last_name, phone, email, "
  const AdminInsertColumns3: string := "password_hash, is_active, role) "
  const AdminInsertValues: string := "VALUES ($1, $2, $3, $4, $5, $6, $7)"
  const AdminInsertQuery: string := AdminInsertColumns1 + AdminInsertColumns2 + AdminInsertColumns3 + AdminInsertValues
  /** The bcrypt hash stored for the seeded administrator. */
  const AdminPasswordHash: string := "$2b$10$92IXUNpkjO0rOQ5byMi.Ye4oKoEa3Ro9llC/.og/at2.uheWG/igi"
  const AdminValues: seq<SqlValue> :=
    [SqlText("Admin"), SqlText("System"), SqlText("123456789"), SqlText("admin@example.com"),
     SqlText(AdminPasswordHash), SqlBool(true), SqlText("admin")]

  /** The statement that creates the administrator, as it reaches the pool. */
  function AdminInsert(): (c: Call)
    ensures c.values == AdminValues
  {
    Call(Placeholders.PrepareQuery(AdminInsertQuery, |AdminValues|), AdminValues)
  }

  /** The insert already uses `$n` references, so the rewrite leaves it as written. */
  lemma AdminInsertUnchanged()
    ensures AdminInsert().text == AdminInsertQuery
  {
    AdminInsertHasNoMarks();
  }

  lemma AdminInsertHasNoMarks()
    ensures '?' !in AdminInsertQuery
  {
    NoMarks1();
    NoMarks2();
    NoMarks3();
    NoMarks4();
  }

  lemma NoMarks1() ensures '?' !in AdminInsertColumns1 {}
  lemma NoMarks2() ensures '?' !in AdminInsertColumns2 {}
  lemma NoMarks3() ensures '?' !in AdminInsertColumns3 {}
  lemma NoMarks4() ensures '?' !in AdminInsertValues {}

  /** `testConnection()`: the calls it makes, in order. A failing time query (or one with no
      row to read the time from) ends the routine; a failing user count is logged and
      ignored; the administrator is inserted only when the lookup by `admin@example.com`
      succeeds with no rows. */
  method TestConnection(pool: Pool) returns (calls: seq<Call>)
    ensures |calls| >= 1 && calls[0] == Call(NowQuery, [])
    ensures !(pool(NowQuery, []).Done? && pool(NowQuery, []).result.rows != []) ==>
              calls == [Call(NowQuery, [])]
    ensures pool(NowQuery, []).Done? && pool(NowQuery, []).result.rows != [] ==>
              && 3 <= |calls| <= 4
              && calls[1] == Call(CountUsersQuery, [])
              && calls[2] == Call(AdminLookupQuery, [])
              && (|calls| == 4 ==> calls[3] == AdminInsert())
    ensures AdminInsert() in calls <==>
      pool(NowQuery, []).Done? && pool(NowQuery, []).result.rows != [] &&
      pool(AdminLookupQuery, []).Done? && pool(AdminLookupQuery, []).result.rows == []
  {
    var sent, result := ExecuteQuery(pool, NowQuery, []);
    calls := [sent];
    if result.Thrown? || result.value.rows == [] {
      return;
    }
    sent, result := ExecuteQuery(pool, CountUsersQuery, []);
    calls := calls + [sent];
    var lookup;
    sent, lookup := ExecuteQuery(pool, AdminLookupQuery, []);
    calls := calls + [sent];
    if lookup.Returned? && lookup.value.rows == [] {
      sent, result := ExecuteQuery(pool, AdminInsertQuery, AdminValues);
      calls := calls + [sent];
    }
    assert AdminInsert().values != [];
  }
}
