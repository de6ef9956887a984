/** What both builders do with a finished statement: pick `exec` or
    `prepare`/`execute` by its first keyword, check the driver's SQLSTATE, and turn
    the driver's answer into the value the caller gets.  The database itself is not
    modelled: its answer to one statement is a `DbResponse` handed in by the caller. */
module Gateway {
  import opened Outcomes
  import opened Php

  /** The driver's answer to one statement: the SQLSTATE and message of
      `errorInfo()`, the row count `exec` returns, `lastInsertId()`, whether
      `PDOStatement::execute` reported success, and the rows `fetchAll` returns. */
  datatype DbResponse = DbResponse(
    sqlState: string,
    errorMessage: string,
    affected: int,
    lastInsertId: string,
    executed: bool,
    rows: seq<PhpArray>)

  /** The SQLSTATE that means "no error". */
  const NoError: string := "00000"

  predicate Succeeded(db: DbResponse) {
    db.sqlState == NoError
  }

  /** What a builder operation hands back: the statement text (when only the SQL is
      asked for), a row count, an insert id, a result set, or one aggregate value. */
  datatype Reply =
    | Text(sql: string)
    | RowCount(count: int)
    | InsertId(id: string)
    | Rows(rows: seq<PhpArray>)
    | Scalar(value: Value)

  /** `is_insert`: the first six characters, upper-cased, are INSERT. */
  predicate IsInsert(sql: string) {
    StartsWithKeyword(sql, "INSERT")
  }

  /** `is_select`: the first six characters, upper-cased, are SELECT. */
  predicate IsSelect(sql: string) {
    StartsWithKeyword(sql, "SELECT")
  }

  /** Keyword detection ignores case but not position: a text that starts with the
      keyword in any letter case is detected, and a text whose first character is
      a blank is never detected, whatever follows. */
  lemma KeywordDetection(s: string)
    ensures IsSelect(Upper(s)) == IsSelect(s) && IsInsert(Upper(s)) == IsInsert(s)
    ensures |s| > 0 && IsTrimChar(s[0]) ==> !IsSelect(s) && !IsInsert(s)
    ensures IsSelect("select" + s) && IsInsert("insert" + s)
  {
    var n := if |s| < 6 then |s| else 6;
    assert Upper(s)[..n] == Upper(s[..n]);
    assert Upper(Upper(s[..n])) == Upper(s[..n]) by {
      forall i | 0 <= i < n ensures UpperChar(UpperChar(s[i])) == UpperChar(s[i]) {
      }
    }
    assert ("select" + s)[..6] == "select";
    assert ("insert" + s)[..6] == "insert";
    assert Upper("select") == "SELECT";
    assert Upper("insert") == "INSERT";
    if |s| > 0 && IsTrimChar(s[0]) {
      assert Upper(s[..n])[0] == s[0];
    }
  }

  /** A text that starts with a lead whose first six characters are a keyword is
      detected, before and after trimming. */
  lemma KeywordPrefix(kw: string, lead: string, s: string)
    requires kw == "INSERT" || kw == "SELECT" || kw == "UPDATE" || kw == "DELETE"
    requires |lead| >= 6 && lead[..6] == kw
    requires |s| >= |lead| && s[..|lead|] == lead
    ensures StartsWithKeyword(s, kw)
    ensures StartsWithKeyword(Trim(s), kw)
  {
    assert s[..6] == kw by { assert s[..6] == s[..|lead|][..6]; }
    assert Upper(kw) == kw;
    assert s == kw + s[6..];
    TrimKeepsPrefix(kw, s[6..]);
    var t := Trim(s);
    assert t[..6] == kw;
  }

  /** The message of `ChainPDO::ensure`. */
  function ErrorText(db: DbResponse, sql: string): string {
    "SQL_STATE: " + db.sqlState + ", ERROR_INFO: " + db.errorMessage + ", SQL: " + sql + "."
  }

  /** `ChainPDO::execute` after the text is trimmed: an error state throws; an
      INSERT answers with the row count when more than one row went in and with the
      insert id otherwise; every other statement answers with the row count. */
  function ExecuteReply(sql: string, db: DbResponse): (r: Result<Reply>)
    ensures r.Ok? <==> Succeeded(db)
    ensures r.Err? ==> r.error == Exception(ErrorText(db, sql))
    ensures r.Ok? ==> (r.value.InsertId? <==> IsInsert(sql) && db.affected <= 1)
    ensures r.Ok? && !r.value.InsertId? ==> r.value == RowCount(db.affected)
  {
    if !Succeeded(db) then Err(Exception(ErrorText(db, sql)))
    else if IsInsert(sql) then
      if db.affected > 1 then Ok(RowCount(db.affected)) else Ok(InsertId(db.lastInsertId))
    else Ok(RowCount(db.affected))
  }

  /** `ChainPDO::query` after the text is trimmed: an error state throws, otherwise
      the fetched rows come back. */
  function QueryReply(sql: string, db: DbResponse): (r: Result<Reply>)
    ensures r.Ok? <==> Succeeded(db)
    ensures r.Ok? ==> r.value == Rows(db.rows)
    ensures r.Err? ==> r.error == Exception(ErrorText(db, sql))
  {
    if !Succeeded(db) then Err(Exception(ErrorText(db, sql))) else Ok(Rows(db.rows))
  }

  /** `$rows[0]["count(key)"]`: the first row's count column, or null when the
      result set is empty or lacks the column. */
  function CountValue(rows: seq<PhpArray>, keyName: string): Value {
    if rows == [] then Null else Index(Arr(rows[0]), StrKey("count(" + keyName + ")"))
  }

  /** The count is the first row's `count(key)` column wherever that column
      stands, and null when there is no row or no such column. */
  lemma CountValueFirstRow(rows: seq<PhpArray>, keyName: string, i: nat)
    requires rows != [] && UniqueKeys(rows[0]) && i < |rows[0]|
    requires rows[0][i].0 == StrKey("count(" + keyName + ")")
    ensures CountValue(rows, keyName) == rows[0][i].1
  {
    LookupAt(rows[0], i);
  }

  lemma CountValueMissing(rows: seq<PhpArray>, keyName: string)
    requires rows == [] || forall i | 0 <= i < |rows[0]| :: rows[0][i].0 != StrKey("count(" + keyName + ")")
    ensures CountValue(rows, keyName) == Null
  {
    if rows != [] {
      LookupNone(rows[0], StrKey("count(" + keyName + ")"));
    }
  }
}
