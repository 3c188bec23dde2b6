/** The SQLite database file the loader writes, as seen through one
    connection: what is committed on disk and what the connection's open
    transaction has added to it.  The statements behave as `Relational`
    states. */
module Store {
  import opened Wrappers
  import opened JsonValue
  import opened Relational

  class Database {
    /** The tables as committed on disk. */
    var committed: Tables
    /** The tables as the connection sees them, its open transaction included. */
    var staged: Tables
    /** `requests`, `request_headers`, `response_headers` and their indexes exist. */
    var schema: bool

    /** `create_database` on a path where no database exists yet. */
    constructor ()
      ensures committed == NoTables() && staged == NoTables() && !schema
    {
      committed := NoTables();
      staged := NoTables();
      schema := false;
    }

    /** `sqlite3.connect`: a new connection starts from what is committed. */
    method Connect()
      modifies this`staged
      ensures staged == committed
    {
      staged := committed;
    }

    /** `create_tables_if_not_exist`: every statement is `IF NOT EXISTS`, and
        sqlite3 runs DDL outside any transaction, so the schema is in place
        at once and survives a later rollback. */
    method CreateTables()
      modifies this`schema
      ensures schema
    {
      schema := true;
    }

    /** `cursor.execute` of the `requests` insert; a failing statement adds nothing. */
    method AddRequest(params: seq<Json>) returns (r: Result<int, LoadError>)
      requires schema && |params| == |Columns|
      modifies this`staged
      ensures InsertRow(old(staged), params).Ok? ==>
                r == Ok(InsertRow(old(staged), params).value.1) && staged == InsertRow(old(staged), params).value.0
      ensures InsertRow(old(staged), params).Err? ==>
                r == Err(InsertRow(old(staged), params).error) && staged == old(staged)
    {
      var outcome := InsertRow(staged, params);
      if outcome.Ok? {
        staged := outcome.value.0;
        r := Ok(outcome.value.1);
      } else {
        r := Err(outcome.error);
      }
    }

    /** `cursor.execute` of a header insert; a failing statement adds nothing. */
    method AddHeader(table: HeaderTable, requestId: int, name: string, value: Json) returns (r: Result<(), LoadError>)
      requires schema
      modifies this`staged
      ensures InsertHeaderRow(old(staged), table, requestId, name, value).Ok? ==>
                r.Ok? && staged == InsertHeaderRow(old(staged), table, requestId, name, value).value
      ensures InsertHeaderRow(old(staged), table, requestId, name, value).Err? ==>
                r == Err(InsertHeaderRow(old(staged), table, requestId, name, value).error) && staged == old(staged)
    {
      var outcome := Relational.InsertHeaderRow(staged, table, requestId, name, value);
      if outcome.Ok? {
        staged := outcome.value;
        r := Ok(());
      } else {
        r := Err(outcome.error);
      }
    }

    /** `conn.commit()`. */
    method Commit()
      modifies this`committed
      ensures committed == staged
    {
      committed := staged;
    }

    /** `conn.rollback()`: the open transaction is dropped. */
    method Rollback()
      modifies this`staged
      ensures staged == committed
    {
      staged := committed;
    }
  }
}
