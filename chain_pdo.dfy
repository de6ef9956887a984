/** The `ChainPDO` builder: an option store filled by chained setters, five
    composers that turn the store into one statement, and the raw entry point
    `sql()`.  A composer either hands back the statement text or runs it; both clear
    the store, while a composer that throws leaves the store as it was (except for
    the in-place rewrite of the field list by `parseField`). */
module Chain {
  import opened Outcomes
  import opened Php
  import opened Quoting
  import opened Clauses
  import opened Gateway

  // ---------------------------------------------------------------------------
  // Statement texts

  /** `insert`: the table is used as given, followed by a space and the data
      fragment (which itself starts with a space); a refused data fragment is the
      composer's error. */
  function InsertStatement(table: string, o: Options): (r: Result<string>)
    ensures r.Ok? <==> InsertDataClause(o).Ok?
    ensures r.Err? ==> r.error == InsertDataClause(o).error
    ensures r.Ok? ==> |r.value| >= 12 && r.value[..12] == "INSERT INTO "
  {
    var data :- InsertDataClause(o);
    var r := "INSERT INTO " + (table + " " + data);
    assert r[..12] == "INSERT INTO ";
    Ok(r)
  }

  /** `delete`: only the limit can be refused. */
  function DeleteStatement(table: string, o: Options): (r: Result<string>)
    ensures r.Ok? <==> LimitClauseForUD(o).Ok?
    ensures r.Err? ==> r.error == LimitClauseForUD(o).error
    ensures r.Ok? ==> |r.value| >= 12 && r.value[..12] == "DELETE FROM "
  {
    var limit :- LimitClauseForUD(o);
    var r := "DELETE FROM " + (table + " " + WhereClause(o) + OrderClause(o) + limit);
    assert r[..12] == "DELETE FROM ";
    Ok(r)
  }

  /** `update`: the data fragment is parsed before the limit, so its errors win. */
  function UpdateStatement(table: string, o: Options): (r: Result<string>)
    ensures r.Ok? <==> UpdateDataClause(o).Ok? && LimitClauseForUD(o).Ok?
    ensures UpdateDataClause(o).Err? ==> r == Err(UpdateDataClause(o).error)
    ensures UpdateDataClause(o).Ok? && LimitClauseForUD(o).Err? ==> r == Err(LimitClauseForUD(o).error)
    ensures r.Ok? ==> |r.value| >= 7 && r.value[..7] == "UPDATE "
  {
    var data :- UpdateDataClause(o);
    var limit :- LimitClauseForUD(o);
    var r := "UPDATE " + (table + " SET " + data + WhereClause(o) + OrderClause(o) + limit);
    assert r[..7] == "UPDATE ";
    Ok(r)
  }

  /** `select`: the field list is parsed before the limit, so its errors win. */
  function SelectStatement(table: string, o: Options): (r: Result<string>)
    ensures r.Ok? <==> FieldClause(o).Ok? && LimitClause(o).Ok?
    ensures FieldClause(o).Err? ==> r == Err(FieldClause(o).error)
    ensures FieldClause(o).Ok? && LimitClause(o).Err? ==> r == Err(LimitClause(o).error)
    ensures r.Ok? ==> |r.value| >= 7 && r.value[..7] == "SELECT "
  {
    var field :- FieldClause(o);
    var limit :- LimitClause(o);
    var r := "SELECT " + (DistinctClause(o) + field + table + JoinClause(o) + WhereClause(o)
       + GroupClause(o) + HavingClause(o) + OrderClause(o) + limit);
    assert r[..7] == "SELECT ";
    Ok(r)
  }

  /** `count`: a SELECT of the single column `count(key)`, never refused. */
  function CountStatement(table: string, keyName: string, o: Options): (r: string)
    ensures |r| >= 7 && r[..7] == "SELECT "
  {
    var r := "SELECT " + (DistinctClause(o) + " count(" + keyName + ") FROM " + table + JoinClause(o) + WhereClause(o));
    assert r[..7] == "SELECT ";
    r
  }

  /** What a composer that runs `execute` hands back: the text itself when only
      the text is asked for, otherwise a row count or an insert id, or the error. */
  function ExecuteOrText(text: string, onlyReturnSql: bool, db: DbResponse): (r: Result<Reply>)
    ensures onlyReturnSql ==> r == Ok(Text(text))
    ensures !onlyReturnSql ==> (r.Ok? <==> Succeeded(db))
    ensures !onlyReturnSql && r.Ok? ==> r.value.RowCount? || r.value.InsertId?
  {
    if onlyReturnSql then Ok(Text(text)) else ExecuteReply(Trim(text), db)
  }

  /** What a composer that runs `query` hands back: the text itself when only the
      text is asked for, otherwise the fetched rows, or the error. */
  function QueryOrText(text: string, onlyReturnSql: bool, db: DbResponse): (r: Result<Reply>)
    ensures onlyReturnSql ==> r == Ok(Text(text))
    ensures !onlyReturnSql ==> (r.Ok? <==> Succeeded(db))
    ensures !onlyReturnSql && r.Ok? ==> r.value == Rows(db.rows)
  {
    if onlyReturnSql then Ok(Text(text)) else QueryReply(Trim(text), db)
  }

  // ---------------------------------------------------------------------------
  // Properties of the composed statements

  /** With none of its options set, SELECT reads every column of the table. */
  lemma SelectDefault(table: string, o: Options)
    requires Empty(Get(o, "distinct")) && Empty(Get(o, "field")) && Empty(Get(o, "join"))
    requires Empty(Get(o, "where")) && Empty(Get(o, "group")) && Empty(Get(o, "having"))
    requires Empty(Get(o, "order")) && Empty(Get(o, "limit"))
    ensures SelectStatement(table, o) == Ok("SELECT * FROM " + table)
  {
    assert FieldClause(o) == Ok("* FROM ");
    assert LimitClause(o) == Ok("");
    assert DistinctClause(o) == "" && JoinClause(o) == "" && WhereClause(o) == "";
    assert GroupClause(o) == "" && HavingClause(o) == "" && OrderClause(o) == "";
    assert "" + "* FROM " + table + "" + "" + "" + "" + "" + "" == "* FROM " + table;
    assert "SELECT " + ("* FROM " + table) == "SELECT * FROM " + table;
  }

  /** With none of its options set, DELETE has no condition: it removes every row. */
  lemma DeleteDefault(table: string, o: Options)
    requires Empty(Get(o, "where")) && Empty(Get(o, "order")) && Empty(Get(o, "limit"))
    ensures DeleteStatement(table, o) == Ok("DELETE FROM " + table + " ")
  {
    assert LimitClauseForUD(o) == Ok("");
    assert WhereClause(o) == "" && OrderClause(o) == "";
    var t := table + " ";
    assert t + "" + "" + "" == t;
    assert "DELETE FROM " + t == "DELETE FROM " + table + " ";
  }

  /** COUNT reads only the distinct, join and where options: the field list is
      replaced by the row count, and group, having, order and limit are left out. */
  lemma CountIgnoresClauses(table: string, keyName: string, o: Options, o2: Options)
    requires Get(o, "distinct") == Get(o2, "distinct") && Get(o, "join") == Get(o2, "join")
    requires Get(o, "where") == Get(o2, "where")
    ensures CountStatement(table, keyName, o) == CountStatement(table, keyName, o2)
  {
    assert DistinctClause(o) == DistinctClause(o2) && JoinClause(o) == JoinClause(o2);
    assert WhereClause(o) == WhereClause(o2);
  }

  /** With no distinct, join or where set, COUNT counts every row of the table. */
  lemma CountDefault(table: string, keyName: string, o: Options)
    requires Empty(Get(o, "distinct")) && Empty(Get(o, "join")) && Empty(Get(o, "where"))
    ensures CountStatement(table, keyName, o) == "SELECT  count(" + keyName + ") FROM " + table
  {
    assert DistinctClause(o) == "" && JoinClause(o) == "" && WhereClause(o) == "";
    var t := " count(" + keyName + ") FROM " + table;
    assert "" + " count(" + keyName + ") FROM " + table + "" + "" == t;
    assert "SELECT " + t == "SELECT  count(" + keyName + ") FROM " + table;
  }

  /** A non-integer limit makes UPDATE and DELETE throw once their data is valid,
      whatever else is set. */
  lemma LimitRefusedForUD(table: string, o: Options)
    requires !Empty(Get(o, "limit")) && !Get(o, "limit").Int?
    ensures DeleteStatement(table, o) == Err(Exception(LimitNotInteger))
    ensures UpdateDataClause(o).Ok? ==> UpdateStatement(table, o) == Err(Exception(LimitNotInteger))
  {
    LimitForUDCases(o);
  }

  /** The composed statements start with their keyword, also after `execute` and
      `query` trim them, so an INSERT is answered as an insert and nothing else is,
      and a SELECT goes through `sql()` as a query. */
  lemma StatementKeywords(table: string, keyName: string, o: Options)
    ensures InsertStatement(table, o).Ok? ==> IsInsert(Trim(InsertStatement(table, o).value))
    ensures DeleteStatement(table, o).Ok? ==>
      !IsInsert(Trim(DeleteStatement(table, o).value)) && !IsSelect(DeleteStatement(table, o).value)
    ensures UpdateStatement(table, o).Ok? ==>
      !IsInsert(Trim(UpdateStatement(table, o).value)) && !IsSelect(UpdateStatement(table, o).value)
    ensures SelectStatement(table, o).Ok? ==> IsSelect(SelectStatement(table, o).value)
    ensures IsSelect(CountStatement(table, keyName, o))
  {
    if InsertStatement(table, o).Ok? {
      InsertKeyword(table, o);
    }
    if DeleteStatement(table, o).Ok? {
      DeleteKeyword(table, o);
    }
    if UpdateStatement(table, o).Ok? {
      UpdateKeyword(table, o);
    }
    if SelectStatement(table, o).Ok? {
      SelectKeyword(table, o);
    }
    CountKeyword(table, keyName, o);
  }

  lemma InsertKeyword(table: string, o: Options)
    requires InsertStatement(table, o).Ok?
    ensures IsInsert(Trim(InsertStatement(table, o).value))
  {
    KeywordPrefix("INSERT", "INSERT INTO ", InsertStatement(table, o).value);
  }

  lemma DeleteKeyword(table: string, o: Options)
    requires DeleteStatement(table, o).Ok?
    ensures !IsInsert(Trim(DeleteStatement(table, o).value)) && !IsSelect(DeleteStatement(table, o).value)
  {
    KeywordPrefix("DELETE", "DELETE FROM ", DeleteStatement(table, o).value);
  }

  lemma UpdateKeyword(table: string, o: Options)
    requires UpdateStatement(table, o).Ok?
    ensures !IsInsert(Trim(UpdateStatement(table, o).value)) && !IsSelect(UpdateStatement(table, o).value)
  {
    KeywordPrefix("UPDATE", "UPDATE ", UpdateStatement(table, o).value);
  }

  lemma SelectKeyword(table: string, o: Options)
    requires SelectStatement(table, o).Ok?
    ensures IsSelect(SelectStatement(table, o).value)
  {
    KeywordPrefix("SELECT", "SELECT ", SelectStatement(table, o).value);
  }

  lemma CountKeyword(table: string, keyName: string, o: Options)
    ensures IsSelect(CountStatement(table, keyName, o))
  {
    KeywordPrefix("SELECT", "SELECT ", CountStatement(table, keyName, o));
  }

  /** A successful INSERT that runs answers with the insert id for one row and with
      the row count for several; UPDATE and DELETE always answer with the row count. */
  lemma InsertReplies(table: string, o: Options, db: DbResponse)
    requires InsertStatement(table, o).Ok? && Succeeded(db)
    ensures ExecuteOrText(InsertStatement(table, o).value, false, db) ==
      if db.affected > 1 then Ok(RowCount(db.affected)) else Ok(InsertId(db.lastInsertId))
  {
    StatementKeywords(table, "id", o);
  }

  lemma UpdateDeleteReplies(table: string, o: Options, db: DbResponse)
    requires Succeeded(db)
    ensures UpdateStatement(table, o).Ok? ==>
      ExecuteOrText(UpdateStatement(table, o).value, false, db) == Ok(RowCount(db.affected))
    ensures DeleteStatement(table, o).Ok? ==>
      ExecuteOrText(DeleteStatement(table, o).value, false, db) == Ok(RowCount(db.affected))
  {
    StatementKeywords(table, "id", o);
  }

  /** A one-row insert of a single plain column: the table as given, then two
      spaces, the back-quoted column and the double-quoted value (the library's own
      example is table "user", column "user_name", value "zhangsan"). */
  lemma InsertOneColumn(table: string, column: string, value: string)
    requires PlainName(column)
    ensures InsertStatement(table, map["data" := DataRecord(Arr([(StrKey(column), Str(value))]), Arr([]))])
      == Ok("INSERT INTO " + table + "  (`" + column + "`) VALUES (\"" + value + "\")")
  {
    assert "INSERT INTO " + (table + " " + (" (" + ("`" + column + "`") + ") VALUES " + ("(\"" + value + "\")")))
      == "INSERT INTO " + table + "  (`" + column + "`) VALUES (\"" + value + "\")";
    var row := [(StrKey(column), Str(value))];
    var o := map["data" := DataRecord(Arr(row), Arr([]))];
    DataRecordParts(o, Arr(row), Arr([]));
    OneColumnClause(column, value);
  }

  lemma OneColumnClause(column: string, value: string)
    requires PlainName(column)
    ensures InsertSingleClause([(StrKey(column), Str(value))])
      == Ok(" (" + ("`" + column + "`") + ") VALUES " + ("(\"" + value + "\")"))
  {
    var row := [(StrKey(column), Str(value))];
    NamedKeyIsAssoc(row, 0, column);
    PlainNameQuoted(column);
    assert QuotedKeys(row) == ["`" + column + "`"];
    assert ValueStrings(row) == [value];
  }

  /** The refusals of the first argument the library's own examples expect, in the
      order the checks run: no data, a scalar as data, a list where one record
      belongs, and, with rows given, a record as the column list. */
  lemma InsertFirstRefusals(table: string, record: PhpArray, list: PhpArray, scalar: Value)
    requires IsAssoc(record) && list != [] && !IsAssoc(list)
    requires !scalar.Arr? && !Empty(scalar)
    ensures InsertStatement(table, map[]) == Err(Exception(MissingFirst))
    ensures InsertStatement(table, map["data" := DataRecord(scalar, Arr([]))])
      == Err(Exception(NotArrayMessage("the first")))
    ensures InsertStatement(table, map["data" := DataRecord(Arr(list), Arr([]))])
      == Err(Exception(NotAssocMessage("the first")))
    ensures InsertStatement(table, map["data" := DataRecord(Arr(record), Arr(list))])
      == Err(Exception(NotNormalMessage("the first")))
  {
    DataRecordParts(map["data" := DataRecord(scalar, Arr([]))], scalar, Arr([]));
    DataRecordParts(map["data" := DataRecord(Arr(list), Arr([]))], Arr(list), Arr([]));
    DataRecordParts(map["data" := DataRecord(Arr(record), Arr(list))], Arr(record), Arr(list));
  }

  /** The refusals of the rows: a scalar or a record given where the rows belong. */
  lemma InsertSecondRefusals(table: string, record: PhpArray, list: PhpArray, scalar: Value)
    requires IsAssoc(record) && list != [] && !IsAssoc(list)
    requires !scalar.Arr? && !Empty(scalar)
    ensures InsertStatement(table, map["data" := DataRecord(Arr(list), scalar)])
      == Err(Exception(NotArrayMessage("the second")))
    ensures InsertStatement(table, map["data" := DataRecord(Arr(list), Arr(record))])
      == Err(Exception(NotNormalMessage("the second")))
  {
    DataRecordParts(map["data" := DataRecord(Arr(list), scalar)], Arr(list), scalar);
    DataRecordParts(map["data" := DataRecord(Arr(list), Arr(record))], Arr(list), Arr(record));
  }

  /** A record among the rows is refused as "the element of the second" once the
      columns have passed their own checks. */
  lemma InsertRowRefused(table: string, record: PhpArray, list: PhpArray)
    requires IsAssoc(record) && list != [] && !IsAssoc(list) && !HasArrayValue(list)
    ensures InsertStatement(table, map["data" := DataRecord(Arr(list), Arr([(IntKey(0), Arr(record))]))])
      == Err(Exception(NotNormalMessage("the element of the second")))
  {
    var rows := [(IntKey(0), Arr(record))];
    var o := map["data" := DataRecord(Arr(list), Arr(rows))];
    DataRecordParts(o, Arr(list), Arr(rows));
    assert !IsAssoc(rows) by { IntToStrZero(0); }
    assert RowCheck(rows[0].1) == Fail(Exception(NotNormalMessage("the element of the second")));
    assert FirstBadRow(rows) == Some(Exception(NotNormalMessage("the element of the second")));
    assert InsertMultiClause(list, Arr(rows)) == Err(Exception(NotNormalMessage("the element of the second")));
    assert InsertDataClause(o) == Err(Exception(NotNormalMessage("the element of the second")));
  }

  // ---------------------------------------------------------------------------
  // The builder object

  class ChainPdo {
    /** The connection settings the object was built with (`getConfig`). */
    const config: Value
    /** The option store. */
    var options: Options
    /** The last statement run, trimmed; empty after a composer that only returns
        its text. */
    var sql: string
    /** Whether a prepared statement is held (`$this->stmt !== null`). */
    var hasStatement: bool

    constructor (config: Value)
      ensures this.config == config
      ensures options == map[] && sql == "" && !hasStatement
    {
      this.config := config;
      options := map[];
      sql := "";
      hasStatement := false;
    }

    /** Setting one option: the store gains or replaces that key; nothing else
        changes. */
    method Set(key: string, v: Value)
      modifies this
      ensures options == old(options)[key := v]
      ensures sql == old(sql) && hasStatement == old(hasStatement)
    {
      options := options[key := v];
    }

    method Distinct()
      modifies this
      ensures options == old(options)["distinct" := Bool(true)]
      ensures sql == old(sql) && hasStatement == old(hasStatement)
    {
      Set("distinct", Bool(true));
    }

    method Field(field: Value)
      modifies this
      ensures options == old(options)["field" := field]
      ensures sql == old(sql) && hasStatement == old(hasStatement)
    {
      Set("field", field);
    }

    /** `join` stores the trimmed text; `trim` refuses an array. */
    method Join(join: Value) returns (st: Status)
      modifies this
      ensures st.Fail? <==> join.Arr?
      ensures st.Fail? ==> st.error == TypeError(TrimTypeError) && options == old(options)
      ensures st.Pass? ==> options == old(options)["join" := Str(Trim(ToStr(join)))]
      ensures sql == old(sql) && hasStatement == old(hasStatement)
    {
      if join.Arr? { return Fail(TypeError(TrimTypeError)); }
      Set("join", Str(Trim(ToStr(join))));
      return Pass;
    }

    method Where(where: Value)
      modifies this
      ensures options == old(options)["where" := where]
      ensures sql == old(sql) && hasStatement == old(hasStatement)
    {
      Set("where", where);
    }

    method Group(group: Value)
      modifies this
      ensures options == old(options)["group" := group]
      ensures sql == old(sql) && hasStatement == old(hasStatement)
    {
      Set("group", group);
    }

    method Having(having: Value)
      modifies this
      ensures options == old(options)["having" := having]
      ensures sql == old(sql) && hasStatement == old(hasStatement)
    {
      Set("having", having);
    }

    /** `order` stores the trimmed text; `trim` refuses an array. */
    method Order(order: Value) returns (st: Status)
      modifies this
      ensures st.Fail? <==> order.Arr?
      ensures st.Fail? ==> st.error == TypeError(TrimTypeError) && options == old(options)
      ensures st.Pass? ==> options == old(options)["order" := Str(Trim(ToStr(order)))]
      ensures sql == old(sql) && hasStatement == old(hasStatement)
    {
      if order.Arr? { return Fail(TypeError(TrimTypeError)); }
      Set("order", Str(Trim(ToStr(order))));
      return Pass;
    }

    /** `limit` stores the value untouched; it is trimmed when parsed. */
    method Limit(limit: Value)
      modifies this
      ensures options == old(options)["limit" := limit]
      ensures sql == old(sql) && hasStatement == old(hasStatement)
    {
      Set("limit", limit);
    }

    /** `data($dataOrFields, $data = [])`. */
    method Data(dataOrFields: Value, data: Value)
      modifies this
      ensures options == old(options)["data" := DataRecord(dataOrFields, data)]
      ensures sql == old(sql) && hasStatement == old(hasStatement)
    {
      Set("data", DataRecord(dataOrFields, data));
    }

    /** `clean`. */
    method Clean()
      modifies this
      ensures options == map[] && sql == "" && !hasStatement
    {
      sql := "";
      hasStatement := false;
      options := map[];
    }

    /** `cleanAndReturnSql`. */
    method CleanAndReturnSql(text: string) returns (s: string)
      modifies this
      ensures s == text
      ensures options == map[] && sql == "" && !hasStatement
    {
      Clean();
      return text;
    }

    /** `execute`: the store is cleared, the trimmed text is kept as the last
        statement and run with `exec`. */
    method Execute(text: string, db: DbResponse) returns (r: Result<Reply>)
      modifies this
      ensures r == ExecuteReply(Trim(text), db)
      ensures options == map[] && sql == Trim(text) && !hasStatement
    {
      Clean();
      sql := Trim(text);
      r := ExecuteReply(sql, db);
    }

    /** `query`: like `execute`, but through a prepared statement that is kept. */
    method Query(text: string, db: DbResponse) returns (r: Result<Reply>)
      modifies this
      ensures r == QueryReply(Trim(text), db)
      ensures options == map[] && sql == Trim(text) && hasStatement
    {
      Clean();
      sql := Trim(text);
      hasStatement := true;
      r := QueryReply(sql, db);
    }

    /** `sql()`: a text whose first six characters read SELECT is queried, any other
        is executed; the test looks at the text before it is trimmed. */
    method Sql(text: string, db: DbResponse) returns (r: Result<Reply>)
      modifies this
      ensures r == if IsSelect(text) then QueryReply(Trim(text), db) else ExecuteReply(Trim(text), db)
      ensures options == map[] && sql == Trim(text) && hasStatement == IsSelect(text)
    {
      if IsSelect(text) {
        r := Query(text, db);
      } else {
        r := Execute(text, db);
      }
    }

    /** `parseField`, which rewrites the stored field list in place. */
    method ParseField() returns (r: Result<string>)
      modifies this
      ensures r == FieldClause(old(options))
      ensures options == FieldRewrite(old(options))
      ensures sql == old(sql) && hasStatement == old(hasStatement)
    {
      r := FieldClause(options);
      options := FieldRewrite(options);
    }

    /** `insert`. */
    method Insert(table: string, onlyReturnSql: bool, db: DbResponse) returns (r: Result<Reply>)
      modifies this
      ensures match InsertStatement(table, old(options))
        case Err(e) => r == Err(e) && options == old(options) && sql == old(sql) && hasStatement == old(hasStatement)
        case Ok(text) =>
          && r == ExecuteOrText(text, onlyReturnSql, db)
          && options == map[] && sql == (if onlyReturnSql then "" else Trim(text)) && !hasStatement
    {
      var data := ParseDataForInsert(options);
      if data.Err? { return Err(data.error); }
      var text := "INSERT INTO " + (table + " " + data.value);
      if onlyReturnSql {
        text := CleanAndReturnSql(text);
        return Ok(Text(text));
      }
      r := Execute(text, db);
    }

    /** `delete`. */
    method Delete(table: string, onlyReturnSql: bool, db: DbResponse) returns (r: Result<Reply>)
      modifies this
      ensures match DeleteStatement(table, old(options))
        case Err(e) => r == Err(e) && options == old(options) && sql == old(sql) && hasStatement == old(hasStatement)
        case Ok(text) =>
          && r == ExecuteOrText(text, onlyReturnSql, db)
          && options == map[] && sql == (if onlyReturnSql then "" else Trim(text)) && !hasStatement
    {
      var where := ParseWhere(options);
      var limit := LimitClauseForUD(options);
      if limit.Err? { return Err(limit.error); }
      var text := "DELETE FROM " + (table + " " + where + OrderClause(options) + limit.value);
      if onlyReturnSql {
        text := CleanAndReturnSql(text);
        return Ok(Text(text));
      }
      r := Execute(text, db);
    }

    /** `update`. */
    method Update(table: string, onlyReturnSql: bool, db: DbResponse) returns (r: Result<Reply>)
      modifies this
      ensures match UpdateStatement(table, old(options))
        case Err(e) => r == Err(e) && options == old(options) && sql == old(sql) && hasStatement == old(hasStatement)
        case Ok(text) =>
          && r == ExecuteOrText(text, onlyReturnSql, db)
          && options == map[] && sql == (if onlyReturnSql then "" else Trim(text)) && !hasStatement
    {
      var data := ParseDataForUpdate(options);
      if data.Err? { return Err(data.error); }
      var where := ParseWhere(options);
      var limit := LimitClauseForUD(options);
      if limit.Err? { return Err(limit.error); }
      var text := "UPDATE " + (table + " SET " + data.value + where + OrderClause(options) + limit.value);
      if onlyReturnSql {
        text := CleanAndReturnSql(text);
        return Ok(Text(text));
      }
      r := Execute(text, db);
    }

    /** `select`: a failure leaves the store with its field list rewritten. */
    method Select(table: string, onlyReturnSql: bool, db: DbResponse) returns (r: Result<Reply>)
      modifies this
      ensures match SelectStatement(table, old(options))
        case Err(e) =>
          r == Err(e) && options == FieldRewrite(old(options)) && sql == old(sql) && hasStatement == old(hasStatement)
        case Ok(text) =>
          && r == QueryOrText(text, onlyReturnSql, db)
          && options == map[] && sql == (if onlyReturnSql then "" else Trim(text)) && hasStatement == !onlyReturnSql
    {
      ghost var o := options;
      var distinct := DistinctClause(options);
      var field := ParseField();
      if field.Err? { return Err(field.error); }
      FieldRewriteOthers(o);
      var where := ParseWhere(options);
      var limit := LimitClause(options);
      if limit.Err? { return Err(limit.error); }
      var text := "SELECT " + (distinct + field.value + table + JoinClause(options) + where
                  + GroupClause(options) + HavingClause(options) + OrderClause(options) + limit.value);
      if onlyReturnSql {
        text := CleanAndReturnSql(text);
        return Ok(Text(text));
      }
      r := Query(text, db);
    }

    /** `count`: the first row's `count(key)` column. */
    method Count(table: string, keyName: string, onlyReturnSql: bool, db: DbResponse) returns (r: Result<Reply>)
      modifies this
      ensures onlyReturnSql ==> r == Ok(Text(CountStatement(table, keyName, old(options))))
      ensures !onlyReturnSql ==>
        r == (var q := QueryReply(Trim(CountStatement(table, keyName, old(options))), db);
              if q.Err? then q else Ok(Scalar(CountValue(q.value.rows, keyName))))
      ensures options == map[] && hasStatement == !onlyReturnSql
      ensures sql == if onlyReturnSql then "" else Trim(CountStatement(table, keyName, old(options)))
    {
      var where := ParseWhere(options);
      var text := "SELECT " + (DistinctClause(options) + " count(" + keyName + ") FROM " + table
                  + JoinClause(options) + where);
      if onlyReturnSql {
        text := CleanAndReturnSql(text);
        return Ok(Text(text));
      }
      var q := Query(text, db);
      if q.Err? { return q; }
      return Ok(Scalar(CountValue(q.value.rows, keyName)));
    }
  }

  /** The in-place rewrite of the field list touches no other option. */
  lemma FieldRewriteOthers(o: Options)
    ensures forall k | k != "field" :: Get(FieldRewrite(o), k) == Get(o, k)
    ensures DistinctClause(FieldRewrite(o)) == DistinctClause(o)
    ensures JoinClause(FieldRewrite(o)) == JoinClause(o)
    ensures WhereClause(FieldRewrite(o)) == WhereClause(o)
    ensures GroupClause(FieldRewrite(o)) == GroupClause(o)
    ensures HavingClause(FieldRewrite(o)) == HavingClause(o)
    ensures OrderClause(FieldRewrite(o)) == OrderClause(o)
    ensures LimitClause(FieldRewrite(o)) == LimitClause(o)
  {
    FieldRewriteKeeps(o);
    FieldRewriteKeepsLeading(o);
    FieldRewriteKeepsTrailing(o);
  }

  lemma FieldRewriteKeeps(o: Options)
    ensures forall k | k != "field" :: Get(FieldRewrite(o), k) == Get(o, k)
  {
  }

  lemma FieldRewriteKeepsLeading(o: Options)
    ensures DistinctClause(FieldRewrite(o)) == DistinctClause(o)
    ensures JoinClause(FieldRewrite(o)) == JoinClause(o)
    ensures WhereClause(FieldRewrite(o)) == WhereClause(o)
  {
    FieldRewriteKeeps(o);
    OtherThanField("distinct");
    OtherThanField("join");
    OtherThanField("where");
  }

  lemma FieldRewriteKeepsTrailing(o: Options)
    ensures GroupClause(FieldRewrite(o)) == GroupClause(o)
    ensures HavingClause(FieldRewrite(o)) == HavingClause(o)
    ensures OrderClause(FieldRewrite(o)) == OrderClause(o)
    ensures LimitClause(FieldRewrite(o)) == LimitClause(o)
  {
    FieldRewriteKeeps(o);
    OtherThanField("group");
    OtherThanField("having");
    OtherThanField("order");
    OtherThanField("limit");
  }

  lemma OtherThanField(k: string)
    requires k != [] && k[0] != 'f'
    ensures k != "field"
  {
  }
}
