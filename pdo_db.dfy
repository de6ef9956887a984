/** The older `PDODB` class: one process-wide builder whose settings accumulate in a
    static configuration.  It composes the same five statements as `ChainPDO` with
    laxer checks: no shape validation of data, single-row INSERT only, a WHERE
    built from any array and a LIMIT taken as written. */
module Legacy {
  import opened Outcomes
  import opened Php
  import opened Quoting
  import opened Clauses
  import opened Gateway
  import Factory
  import Chain

  // ---------------------------------------------------------------------------
  // The static configuration and _checkConfig

  /** The static configuration before any call, in its order. */
  const LegacyDefaults: PhpArray := [
    (StrKey("DB_TYPE"), Str("mysql")),
    (StrKey("DB_HOST"), Str("localhost")),
    (StrKey("DB_PORT"), Str("3306")),
    (StrKey("DB_CHAR"), Str("utf8")),
    (StrKey("DB_PCONN"), Bool(false)),
    (StrKey("DB_USER"), Str("")),
    (StrKey("DB_PWD"), Str("")),
    (StrKey("DB_NAME"), Str("")),
    (StrKey("DB_PARAMS"), Arr([]))
  ]

  /** The value of `PDO::ATTR_PERSISTENT`. */
  const PersistentAttribute: int := 12

  const UserMissing: string := "DB_USER not configured"
  const PasswordMissing: string := "DB_PWD not configured"
  const NameMissing: string := "DB_NAME not configured"

  function MergeTypeError(v: Value): string {
    "array_merge(): Argument #2 must be of type array, " + TypeName(v) + " given"
  }

  /** The connection-attribute step: only when DB_PARAMS is empty and DB_PCONN is
      set does DB_PARAMS become the one-entry array asking for a persistent
      connection. */
  function WithPersistence(config: PhpArray): (r: PhpArray)
    ensures !Empty(Index(Arr(config), StrKey("DB_PARAMS"))) ==> r == config
    ensures Empty(Index(Arr(config), StrKey("DB_PCONN"))) ==> r == config
  {
    var params := Index(Arr(config), StrKey("DB_PARAMS"));
    if !Empty(params) || Empty(Index(Arr(config), StrKey("DB_PCONN"))) then config
    else if params.Arr? || params.Null? || params.Bool? then
      Assign(config, StrKey("DB_PARAMS"), Arr([(IntKey(PersistentAttribute), Bool(true))]))
    else config
  }

  /** `_checkConfig` on the static configuration: the argument is merged in first
      and the merge stays even when a check then throws; the three checks run in
      the order user, password, database name; on success DB_DSN and the
      connection attributes are set. */
  function CheckConfigResult(config: PhpArray, dbConfig: Value): (r: (PhpArray, Status))
    ensures !dbConfig.Arr? ==> r == (config, Fail(TypeError(MergeTypeError(dbConfig))))
    ensures dbConfig.Arr? && r.1.Fail? ==> r.0 == ArrayMerge(config, dbConfig.entries)
    ensures r.1.Pass? <==>
      && dbConfig.Arr?
      && !Empty(Index(Arr(ArrayMerge(config, dbConfig.entries)), StrKey("DB_USER")))
      && !Empty(Index(Arr(ArrayMerge(config, dbConfig.entries)), StrKey("DB_PWD")))
      && !Empty(Index(Arr(ArrayMerge(config, dbConfig.entries)), StrKey("DB_NAME")))
    ensures dbConfig.Arr? && Empty(Index(Arr(ArrayMerge(config, dbConfig.entries)), StrKey("DB_USER"))) ==>
      r.1 == Fail(Exception(UserMissing))
    ensures (&& dbConfig.Arr?
             && !Empty(Index(Arr(ArrayMerge(config, dbConfig.entries)), StrKey("DB_USER")))
             && Empty(Index(Arr(ArrayMerge(config, dbConfig.entries)), StrKey("DB_PWD")))) ==>
      r.1 == Fail(Exception(PasswordMissing))
    ensures (&& dbConfig.Arr?
             && !Empty(Index(Arr(ArrayMerge(config, dbConfig.entries)), StrKey("DB_USER")))
             && !Empty(Index(Arr(ArrayMerge(config, dbConfig.entries)), StrKey("DB_PWD")))
             && Empty(Index(Arr(ArrayMerge(config, dbConfig.entries)), StrKey("DB_NAME")))) ==>
      r.1 == Fail(Exception(NameMissing))
    ensures r.1.Pass? ==>
      r.0 == WithPersistence(Assign(ArrayMerge(config, dbConfig.entries), StrKey("DB_DSN"),
                                    Str(Factory.Dsn(Arr(ArrayMerge(config, dbConfig.entries))))))
  {
    if !dbConfig.Arr? then (config, Fail(TypeError(MergeTypeError(dbConfig))))
    else
      var merged := ArrayMerge(config, dbConfig.entries);
      var m := Arr(merged);
      if Empty(Index(m, StrKey("DB_USER"))) then (merged, Fail(Exception(UserMissing)))
      else if Empty(Index(m, StrKey("DB_PWD"))) then (merged, Fail(Exception(PasswordMissing)))
      else if Empty(Index(m, StrKey("DB_NAME"))) then (merged, Fail(Exception(NameMissing)))
      else (WithPersistence(Assign(merged, StrKey("DB_DSN"), Str(Factory.Dsn(m)))), Pass)
  }

  /** On success DB_DSN holds the data source name of the merged settings. */
  lemma CheckConfigDsn(config: PhpArray, dbConfig: Value)
    requires CheckConfigResult(config, dbConfig).1.Pass?
    ensures Index(Arr(CheckConfigResult(config, dbConfig).0), StrKey("DB_DSN"))
      == Str(Factory.Dsn(Arr(ArrayMerge(config, dbConfig.entries))))
  {
    var merged := ArrayMerge(config, dbConfig.entries);
    var withDsn := Assign(merged, StrKey("DB_DSN"), Str(Factory.Dsn(Arr(merged))));
    AssignLookup(merged, StrKey("DB_DSN"), Str(Factory.Dsn(Arr(merged))), StrKey("DB_DSN"));
    var params := Index(Arr(withDsn), StrKey("DB_PARAMS"));
    if Empty(params) && !Empty(Index(Arr(withDsn), StrKey("DB_PCONN"))) && (params.Arr? || params.Null? || params.Bool?) {
      AssignLookup(withDsn, StrKey("DB_PARAMS"), Arr([(IntKey(PersistentAttribute), Bool(true))]), StrKey("DB_DSN"));
    }
  }

  /** A persistent connection is asked for exactly when DB_PCONN is set and DB_PARAMS
      is an empty array (the default), and then DB_PARAMS is `[12 => true]`. */
  lemma PersistenceRule(config: PhpArray)
    requires Index(Arr(config), StrKey("DB_PARAMS")).Arr?
    ensures Index(Arr(WithPersistence(config)), StrKey("DB_PARAMS")) ==
      if Empty(Index(Arr(config), StrKey("DB_PARAMS"))) && !Empty(Index(Arr(config), StrKey("DB_PCONN")))
      then Arr([(IntKey(PersistentAttribute), Bool(true))])
      else Index(Arr(config), StrKey("DB_PARAMS"))
  {
    AssignLookup(config, StrKey("DB_PARAMS"), Arr([(IntKey(PersistentAttribute), Bool(true))]), StrKey("DB_PARAMS"));
  }

  /** The merge accumulates: after a call that was refused, a later call sees the
      settings of the earlier one wherever it does not give its own. */
  lemma CheckConfigRemembers(config: PhpArray, first: Value, second: Value, name: string)
    requires UniqueKeys(config)
    requires first.Arr? && UniqueKeys(first.entries) && second.Arr? && UniqueKeys(second.entries)
    requires CheckConfigResult(config, first).1.Fail?
    ensures Index(Arr(ArrayMerge(CheckConfigResult(config, first).0, second.entries)), StrKey(name)) ==
      if Lookup(second.entries, StrKey(name)).Some? then Lookup(second.entries, StrKey(name)).value
      else if Lookup(first.entries, StrKey(name)).Some? then Lookup(first.entries, StrKey(name)).value
      else Index(Arr(config), StrKey(name))
  {
    var state := ArrayMerge(config, first.entries);
    ArrayMergeUnique(config, first.entries);
    ArrayMergeLookup(config, first.entries, StrKey(name));
    ArrayMergeLookup(state, second.entries, StrKey(name));
  }

  /** A password given on a second call completes a user given on a refused first
      call (with the initial configuration, whose password is empty). */
  lemma SecondCallCompletes(config: PhpArray, first: Value, second: Value)
    requires UniqueKeys(config) && Empty(Index(Arr(config), StrKey("DB_PWD")))
    requires first.Arr? && UniqueKeys(first.entries) && second.Arr? && UniqueKeys(second.entries)
    requires Lookup(first.entries, StrKey("DB_USER")).Some? && !Empty(Lookup(first.entries, StrKey("DB_USER")).value)
    requires Lookup(first.entries, StrKey("DB_PWD")) == None
    requires Lookup(second.entries, StrKey("DB_USER")) == None
    requires Lookup(second.entries, StrKey("DB_PWD")).Some? && !Empty(Lookup(second.entries, StrKey("DB_PWD")).value)
    requires Lookup(second.entries, StrKey("DB_NAME")).Some? && !Empty(Lookup(second.entries, StrKey("DB_NAME")).value)
    ensures CheckConfigResult(config, first).1 == Fail(Exception(PasswordMissing))
    ensures CheckConfigResult(CheckConfigResult(config, first).0, second).1 == Pass
  {
    ArrayMergeLookup(config, first.entries, StrKey("DB_USER"));
    ArrayMergeLookup(config, first.entries, StrKey("DB_PWD"));
    CheckConfigRemembers(config, first, second, "DB_USER");
    CheckConfigRemembers(config, first, second, "DB_PWD");
    CheckConfigRemembers(config, first, second, "DB_NAME");
  }

  /** The initial configuration holds each setting once. */
  lemma LegacyDefaultsUnique()
    ensures UniqueKeys(LegacyDefaults)
  {
  }

  /** The initial configuration has no password. */
  lemma LegacyDefaultsNoPassword()
    ensures Empty(Index(Arr(LegacyDefaults), StrKey("DB_PWD")))
  {
    LegacyDefaultsUnique();
    LookupAt(LegacyDefaults, 6);
  }

  // ---------------------------------------------------------------------------
  // Clauses of their own

  /** `_parseWhere`: a string is used as written and any array, a list included,
      becomes the conjunction of its `` `k` = "v" `` equalities. */
  function LegacyWhereClause(o: Options): (r: string)
    ensures r != "" <==> !Empty(Get(o, "where")) && (Get(o, "where").Str? || Get(o, "where").Arr?)
    ensures r != "" ==> |r| >= 7 && r[..7] == " WHERE "
    ensures r != "" && Get(o, "where").Str? ==> r[7..] == Get(o, "where").s
  {
    var w := Get(o, "where");
    if Empty(w) then ""
    else if w.Str? then " WHERE " + w.s
    else if w.Arr? then " WHERE " + Implode(" AND ", PairTexts(w.entries))
    else ""
  }

  /** The `foreach` of `_parseWhere`. */
  method ParseLegacyWhere(o: Options) returns (s: string)
    ensures s == LegacyWhereClause(o)
  {
    var w := Get(o, "where");
    if Empty(w) { return ""; }
    if w.Str? { return " WHERE " + w.s; }
    if w.Arr? {
      var pairs := RenderPairs(w.entries, " AND ");
      return " WHERE " + pairs;
    }
    return "";
  }

  /** The two WHERE builders agree except on a non-empty list, which the old one
      renders with the positions as column names and the new one drops. */
  lemma WhereAgreement(o: Options)
    ensures !(Get(o, "where").Arr? && !Empty(Get(o, "where")) && !IsAssoc(Get(o, "where").entries)) ==>
      LegacyWhereClause(o) == WhereClause(o)
    ensures Get(o, "where").Arr? && !Empty(Get(o, "where")) && !IsAssoc(Get(o, "where").entries) ==>
      WhereClause(o) == "" && LegacyWhereClause(o) == " WHERE " + Implode(" AND ", PairTexts(Get(o, "where").entries))
  {
  }

  /** `_parseLimit`: the stored (already trimmed) limit is used as written. */
  function LegacyLimitClause(o: Options): (r: string)
    ensures r == "" <==> Empty(Get(o, "limit"))
    ensures r != "" ==> |r| >= 7 && r[..7] == " LIMIT " && r[7..] == ToStr(Get(o, "limit"))
  {
    if Empty(Get(o, "limit")) then ""
    else
      var r := " LIMIT " + ToStr(Get(o, "limit"));
      assert r[..7] == " LIMIT ";
      r
  }

  /** A limit such as "2,1" is accepted by the old builder but refused by
      `ChainPDO`'s DELETE. */
  lemma LimitPolicies(table: string, o: Options, limit: string)
    requires Get(o, "limit") == Str(limit) && limit != "" && limit != "0"
    ensures LegacyLimitClause(o) == " LIMIT " + limit
    ensures Chain.DeleteStatement(table, o) == Err(Exception(LimitNotInteger))
  {
    Chain.LimitRefusedForUD(table, o);
  }

  const DataNotArray: string := "data must be an array"

  /** `_parseDataForUpdate`. */
  function LegacyUpdateData(o: Options): (r: Result<string>)
    ensures r.Err? <==> Empty(Get(o, "data")) || !Get(o, "data").Arr?
    ensures r.Err? ==> r.error == Exception(DataNotArray)
    ensures r.Ok? ==> r.value == Implode(",", PairTexts(Get(o, "data").entries))
  {
    var d := Get(o, "data");
    if Empty(d) || !d.Arr? then Err(Exception(DataNotArray))
    else Ok(Implode(",", PairTexts(d.entries)))
  }

  /** The `foreach` of `_parseDataForUpdate`. */
  method ParseLegacyUpdateData(o: Options) returns (r: Result<string>)
    ensures r == LegacyUpdateData(o)
  {
    var d := Get(o, "data");
    if Empty(d) || !d.Arr? { return Err(Exception(DataNotArray)); }
    var pairs := RenderPairs(d.entries, ",");
    return Ok(pairs);
  }

  /** `_parseDataForInsert`: the quoted keys, then one double-quoted value group. */
  function LegacyInsertData(o: Options): (r: Result<string>)
    ensures r.Err? <==> Empty(Get(o, "data")) || !Get(o, "data").Arr?
    ensures r.Err? ==> r.error == Exception(DataNotArray)
    ensures r.Ok? ==> r.value == " (" + Implode(",", QuotedKeys(Get(o, "data").entries)) + ") VALUES "
                                 + ValueGroup(Get(o, "data").entries)
  {
    var d := Get(o, "data");
    if Empty(d) || !d.Arr? then Err(Exception(DataNotArray))
    else Ok(" (" + Implode(",", QuotedKeys(d.entries)) + ") VALUES " + ValueGroup(d.entries))
  }

  // ---------------------------------------------------------------------------
  // Statements and replies

  /** `insert`: a refused data fragment is the composer's error. */
  function LegacyInsertStatement(table: string, o: Options): (r: Result<string>)
    ensures r.Ok? <==> LegacyInsertData(o).Ok?
    ensures r.Err? ==> r.error == LegacyInsertData(o).error
    ensures r.Ok? ==> |r.value| >= 12 && r.value[..12] == "INSERT INTO "
  {
    var data :- LegacyInsertData(o);
    var r := "INSERT INTO " + (table + " " + data);
    assert r[..12] == "INSERT INTO ";
    Ok(r)
  }

  /** `delete`: never refused, whatever the store holds. */
  function LegacyDeleteStatement(table: string, o: Options): (r: string)
    ensures |r| >= 12 && r[..12] == "DELETE FROM "
  {
    var r := "DELETE FROM " + (table + " " + LegacyWhereClause(o) + OrderClause(o) + LegacyLimitClause(o));
    assert r[..12] == "DELETE FROM ";
    r
  }

  /** `update`: only a missing or scalar data argument is refused. */
  function LegacyUpdateStatement(table: string, o: Options): (r: Result<string>)
    ensures r.Ok? <==> LegacyUpdateData(o).Ok?
    ensures r.Err? ==> r.error == LegacyUpdateData(o).error
    ensures r.Ok? ==> |r.value| >= 7 && r.value[..7] == "UPDATE "
  {
    var data :- LegacyUpdateData(o);
    var r := "UPDATE " + (table + " SET " + data + LegacyWhereClause(o) + OrderClause(o) + LegacyLimitClause(o));
    assert r[..7] == "UPDATE ";
    Ok(r)
  }

  /** `select`: only the field list can be refused. */
  function LegacySelectStatement(table: string, o: Options): (r: Result<string>)
    ensures r.Ok? <==> FieldClause(o).Ok?
    ensures r.Err? ==> r.error == FieldClause(o).error
    ensures r.Ok? ==> |r.value| >= 7 && r.value[..7] == "SELECT "
  {
    var field :- FieldClause(o);
    var r := "SELECT " + (DistinctClause(o) + field + table + JoinClause(o) + LegacyWhereClause(o)
       + GroupClause(o) + HavingClause(o) + OrderClause(o) + LegacyLimitClause(o));
    assert r[..7] == "SELECT ";
    Ok(r)
  }

  /** `count`: a SELECT of the single column `count(key)`. */
  function LegacyCountStatement(table: string, keyName: string, o: Options): (r: string)
    ensures |r| >= 7 && r[..7] == "SELECT "
  {
    var r := "SELECT " + (DistinctClause(o) + " count(" + keyName + ") FROM " + table + JoinClause(o) + LegacyWhereClause(o));
    assert r[..7] == "SELECT ";
    r
  }

  /** COUNT reads only the distinct, join and where options: the field list is
      replaced by the row count, and group, having, order and limit are left out. */
  lemma LegacyCountIgnoresClauses(table: string, keyName: string, o: Options, o2: Options)
    requires Get(o, "distinct") == Get(o2, "distinct") && Get(o, "join") == Get(o2, "join")
    requires Get(o, "where") == Get(o2, "where")
    ensures LegacyCountStatement(table, keyName, o) == LegacyCountStatement(table, keyName, o2)
  {
    assert DistinctClause(o) == DistinctClause(o2) && JoinClause(o) == JoinClause(o2);
    assert LegacyWhereClause(o) == LegacyWhereClause(o2);
  }

  /** With no distinct, join or where set, COUNT counts every row of the table. */
  lemma LegacyCountDefault(table: string, keyName: string, o: Options)
    requires Empty(Get(o, "distinct")) && Empty(Get(o, "join")) && Empty(Get(o, "where"))
    ensures LegacyCountStatement(table, keyName, o) == "SELECT  count(" + keyName + ") FROM " + table
  {
    assert DistinctClause(o) == "" && JoinClause(o) == "" && LegacyWhereClause(o) == "";
    var t := " count(" + keyName + ") FROM " + table;
    assert "" + " count(" + keyName + ") FROM " + table + "" + "" == t;
    assert "SELECT " + t == "SELECT  count(" + keyName + ") FROM " + table;
  }

  /** A one-row insert of associative data reads the same in both builders. */
  lemma InsertAgreement(table: string, row: PhpArray)
    requires IsAssoc(row)
    ensures LegacyInsertStatement(table, map["data" := Arr(row)]) ==
      Chain.InsertStatement(table, map["data" := DataRecord(Arr(row), Arr([]))])
  {
    var o := map["data" := DataRecord(Arr(row), Arr([]))];
    DataRecordParts(o, Arr(row), Arr([]));
  }

  /** A list as data, refused by `ChainPDO`, is inserted by the old builder with the
      positions as column names. */
  lemma ListDataAccepted(table: string, vs: seq<Value>)
    requires vs != []
    ensures LegacyInsertStatement(table, map["data" := Arr(FromList(vs))]).Ok?
    ensures Chain.InsertStatement(table, map["data" := DataRecord(Arr(FromList(vs)), Arr([]))])
      == Err(Exception(NotAssocMessage("the first")))
  {
    var o := map["data" := DataRecord(Arr(FromList(vs)), Arr([]))];
    DataRecordParts(o, Arr(FromList(vs)), Arr([]));
    ListNotAssoc(vs);
  }

  /** The message of `_checkError`. */
  function LegacyErrorText(db: DbResponse, sql: string): string {
    "SQL_STATE : " + db.sqlState + "<br/>ERROR_INFO : " + db.errorMessage + "<br/>ERROR_SQL : " + sql
  }

  /** `_execute` after the text is trimmed: an error state throws; every INSERT
      answers with the insert id, whatever the row count; anything else with the
      row count. */
  function LegacyExecuteReply(sql: string, db: DbResponse): (r: Result<Reply>)
    ensures r.Ok? <==> Succeeded(db)
    ensures r.Err? ==> r.error == Exception(LegacyErrorText(db, sql))
    ensures r.Ok? ==> (r.value.InsertId? <==> IsInsert(sql))
    ensures r.Ok? && IsInsert(sql) ==> r.value == InsertId(db.lastInsertId)
    ensures r.Ok? && !IsInsert(sql) ==> r.value == RowCount(db.affected)
  {
    if !Succeeded(db) then Err(Exception(LegacyErrorText(db, sql)))
    else if IsInsert(sql) then Ok(InsertId(db.lastInsertId))
    else Ok(RowCount(db.affected))
  }

  const QueryFailed: string := "query failed"

  /** `query` after the text is trimmed: an error state throws the SQLSTATE message,
      a statement that did not execute throws "query failed", otherwise the rows
      come back. */
  function LegacyQueryReply(sql: string, db: DbResponse): (r: Result<Reply>)
    ensures r.Ok? <==> Succeeded(db) && db.executed
    ensures !Succeeded(db) ==> r == Err(Exception(LegacyErrorText(db, sql)))
    ensures Succeeded(db) && !db.executed ==> r == Err(Exception(QueryFailed))
    ensures r.Ok? ==> r.value == Rows(db.rows)
  {
    if !Succeeded(db) then Err(Exception(LegacyErrorText(db, sql)))
    else if !db.executed then Err(Exception(QueryFailed))
    else Ok(Rows(db.rows))
  }

  /** The two builders answer a statement alike, except an INSERT of more than one
      row: `ChainPDO` gives the row count where `PDODB` gives the insert id. */
  lemma ReplyAgreement(sql: string, db: DbResponse)
    requires Succeeded(db)
    ensures LegacyExecuteReply(sql, db) == ExecuteReply(sql, db) <==> !(IsInsert(sql) && db.affected > 1)
  {
  }

  /** A successful INSERT of the old builder always answers with the insert id, even
      for several rows; UPDATE and DELETE answer with the row count. */
  lemma LegacyReplies(table: string, o: Options, db: DbResponse)
    requires Succeeded(db)
    ensures LegacyInsertStatement(table, o).Ok? ==>
      LegacyExecuteReply(Trim(LegacyInsertStatement(table, o).value), db) == Ok(InsertId(db.lastInsertId))
    ensures LegacyUpdateStatement(table, o).Ok? ==>
      LegacyExecuteReply(Trim(LegacyUpdateStatement(table, o).value), db) == Ok(RowCount(db.affected))
    ensures LegacyExecuteReply(Trim(LegacyDeleteStatement(table, o)), db) == Ok(RowCount(db.affected))
  {
    if LegacyInsertStatement(table, o).Ok? {
      LegacyInsertKeyword(table, o);
    }
    if LegacyUpdateStatement(table, o).Ok? {
      LegacyUpdateKeyword(table, o);
    }
    LegacyDeleteKeyword(table, o);
  }

  lemma LegacyInsertKeyword(table: string, o: Options)
    requires LegacyInsertStatement(table, o).Ok?
    ensures IsInsert(Trim(LegacyInsertStatement(table, o).value))
  {
    KeywordPrefix("INSERT", "INSERT INTO ", LegacyInsertStatement(table, o).value);
  }

  lemma LegacyUpdateKeyword(table: string, o: Options)
    requires LegacyUpdateStatement(table, o).Ok?
    ensures !IsInsert(Trim(LegacyUpdateStatement(table, o).value))
  {
    KeywordPrefix("UPDATE", "UPDATE ", LegacyUpdateStatement(table, o).value);
  }

  lemma LegacyDeleteKeyword(table: string, o: Options)
    ensures !IsInsert(Trim(LegacyDeleteStatement(table, o)))
  {
    KeywordPrefix("DELETE", "DELETE FROM ", LegacyDeleteStatement(table, o));
  }

  /** The in-place rewrite of the field list leaves the old builder's own WHERE and
      LIMIT as they were. */
  lemma FieldRewriteKeepsLegacy(o: Options)
    ensures LegacyWhereClause(FieldRewrite(o)) == LegacyWhereClause(o)
    ensures LegacyLimitClause(FieldRewrite(o)) == LegacyLimitClause(o)
  {
    Chain.FieldRewriteKeeps(o);
    Chain.OtherThanField("where");
    Chain.OtherThanField("limit");
    assert Get(FieldRewrite(o), "where") == Get(o, "where");
    assert Get(FieldRewrite(o), "limit") == Get(o, "limit");
  }

  // ---------------------------------------------------------------------------
  // The builder object

  class PdoDb {
    /** The option store. */
    var options: Options
    /** The last statement run, trimmed (`getLastSql`); none before the first. */
    var lastSql: Option<string>
    /** Whether a prepared statement is held. */
    var hasStatement: bool

    constructor ()
      ensures options == map[] && lastSql == None && !hasStatement
    {
      options := map[];
      lastSql := None;
      hasStatement := false;
    }

    method Set(key: string, v: Value)
      modifies this
      ensures options == old(options)[key := v]
      ensures lastSql == old(lastSql) && hasStatement == old(hasStatement)
    {
      options := options[key := v];
    }

    /** A setter that trims its argument (`join`, `order`, `limit`); `trim` refuses
        an array. */
    method SetTrimmed(key: string, v: Value) returns (st: Status)
      modifies this
      ensures st.Fail? <==> v.Arr?
      ensures st.Fail? ==> st.error == TypeError(TrimTypeError) && options == old(options)
      ensures st.Pass? ==> options == old(options)[key := Str(Trim(ToStr(v)))]
      ensures lastSql == old(lastSql) && hasStatement == old(hasStatement)
    {
      if v.Arr? { return Fail(TypeError(TrimTypeError)); }
      Set(key, Str(Trim(ToStr(v))));
      return Pass;
    }

    method Distinct()
      modifies this
      ensures options == old(options)["distinct" := Bool(true)]
      ensures lastSql == old(lastSql) && hasStatement == old(hasStatement)
    {
      Set("distinct", Bool(true));
    }

    method Field(field: Value)
      modifies this
      ensures options == old(options)["field" := field]
      ensures lastSql == old(lastSql) && hasStatement == old(hasStatement)
    {
      Set("field", field);
    }

    method Join(join: Value) returns (st: Status)
      modifies this
      ensures st.Fail? <==> join.Arr?
      ensures st.Fail? ==> options == old(options)
      ensures st.Pass? ==> options == old(options)["join" := Str(Trim(ToStr(join)))]
      ensures lastSql == old(lastSql) && hasStatement == old(hasStatement)
    {
      st := SetTrimmed("join", join);
    }

    method Where(where: Value)
      modifies this
      ensures options == old(options)["where" := where]
      ensures lastSql == old(lastSql) && hasStatement == old(hasStatement)
    {
      Set("where", where);
    }

    method Group(group: Value)
      modifies this
      ensures options == old(options)["group" := group]
      ensures lastSql == old(lastSql) && hasStatement == old(hasStatement)
    {
      Set("group", group);
    }

    method Having(having: Value)
      modifies this
      ensures options == old(options)["having" := having]
      ensures lastSql == old(lastSql) && hasStatement == old(hasStatement)
    {
      Set("having", having);
    }

    method Order(order: Value) returns (st: Status)
      modifies this
      ensures st.Fail? <==> order.Arr?
      ensures st.Fail? ==> options == old(options)
      ensures st.Pass? ==> options == old(options)["order" := Str(Trim(ToStr(order)))]
      ensures lastSql == old(lastSql) && hasStatement == old(hasStatement)
    {
      st := SetTrimmed("order", order);
    }

    /** `limit` trims at the setter, so the stored limit is already a string. */
    method Limit(limit: Value) returns (st: Status)
      modifies this
      ensures st.Fail? <==> limit.Arr?
      ensures st.Fail? ==> options == old(options)
      ensures st.Pass? ==> options == old(options)["limit" := Str(Trim(ToStr(limit)))]
      ensures lastSql == old(lastSql) && hasStatement == old(hasStatement)
    {
      st := SetTrimmed("limit", limit);
    }

    method Data(data: Value)
      modifies this
      ensures options == old(options)["data" := data]
      ensures lastSql == old(lastSql) && hasStatement == old(hasStatement)
    {
      Set("data", data);
    }

    /** `_flush`: the prepared statement and the option store are released. */
    method Flush()
      modifies this
      ensures options == map[] && !hasStatement && lastSql == old(lastSql)
    {
      if hasStatement { hasStatement := false; }
      if options != map[] { options := map[]; }
    }

    /** `_execute`. */
    method Execute(text: string, db: DbResponse) returns (r: Result<Reply>)
      modifies this
      ensures r == LegacyExecuteReply(Trim(text), db)
      ensures options == map[] && lastSql == Some(Trim(text)) && !hasStatement
    {
      Flush();
      var sql := Trim(text);
      lastSql := Some(sql);
      if !Succeeded(db) { return Err(Exception(LegacyErrorText(db, sql))); }
      if IsInsert(sql) { return Ok(InsertId(db.lastInsertId)); }
      return Ok(RowCount(db.affected));
    }

    /** `query` over `_query`. */
    method Query(text: string, db: DbResponse) returns (r: Result<Reply>)
      modifies this
      ensures r == LegacyQueryReply(Trim(text), db)
      ensures options == map[] && lastSql == Some(Trim(text)) && hasStatement
    {
      Flush();
      var sql := Trim(text);
      lastSql := Some(sql);
      hasStatement := true;
      if !Succeeded(db) { return Err(Exception(LegacyErrorText(db, sql))); }
      if !db.executed { return Err(Exception(QueryFailed)); }
      return Ok(Rows(db.rows));
    }

    /** `_parseField`, which rewrites the stored field list in place. */
    method ParseField() returns (r: Result<string>)
      modifies this
      ensures r == FieldClause(old(options))
      ensures options == FieldRewrite(old(options))
      ensures lastSql == old(lastSql) && hasStatement == old(hasStatement)
    {
      r := FieldClause(options);
      options := FieldRewrite(options);
    }

    method Insert(table: string, db: DbResponse) returns (r: Result<Reply>)
      modifies this
      ensures match LegacyInsertStatement(table, old(options))
        case Err(e) => r == Err(e) && options == old(options) && lastSql == old(lastSql) && hasStatement == old(hasStatement)
        case Ok(text) =>
          r == LegacyExecuteReply(Trim(text), db) && options == map[] && lastSql == Some(Trim(text)) && !hasStatement
    {
      var data := LegacyInsertData(options);
      if data.Err? { return Err(data.error); }
      r := Execute("INSERT INTO " + (table + " " + data.value), db);
    }

    method Delete(table: string, db: DbResponse) returns (r: Result<Reply>)
      modifies this
      ensures r == LegacyExecuteReply(Trim(LegacyDeleteStatement(table, old(options))), db)
      ensures options == map[] && lastSql == Some(Trim(LegacyDeleteStatement(table, old(options)))) && !hasStatement
    {
      var where := ParseLegacyWhere(options);
      r := Execute("DELETE FROM " + (table + " " + where + OrderClause(options) + LegacyLimitClause(options)), db);
    }

    method Update(table: string, db: DbResponse) returns (r: Result<Reply>)
      modifies this
      ensures match LegacyUpdateStatement(table, old(options))
        case Err(e) => r == Err(e) && options == old(options) && lastSql == old(lastSql) && hasStatement == old(hasStatement)
        case Ok(text) =>
          r == LegacyExecuteReply(Trim(text), db) && options == map[] && lastSql == Some(Trim(text)) && !hasStatement
    {
      var data := ParseLegacyUpdateData(options);
      if data.Err? { return Err(data.error); }
      var where := ParseLegacyWhere(options);
      r := Execute("UPDATE " + (table + " SET " + data.value + where + OrderClause(options) + LegacyLimitClause(options)), db);
    }

    /** `select`: a failure leaves the store with its field list rewritten. */
    method Select(table: string, db: DbResponse) returns (r: Result<Reply>)
      modifies this
      ensures match LegacySelectStatement(table, old(options))
        case Err(e) =>
          r == Err(e) && options == FieldRewrite(old(options)) && lastSql == old(lastSql) && hasStatement == old(hasStatement)
        case Ok(text) =>
          r == LegacyQueryReply(Trim(text), db) && options == map[] && lastSql == Some(Trim(text)) && hasStatement
    {
      ghost var o := options;
      var distinct := DistinctClause(options);
      var field := ParseField();
      if field.Err? { return Err(field.error); }
      Chain.FieldRewriteOthers(o);
      FieldRewriteKeepsLegacy(o);
      var where := ParseLegacyWhere(options);
      var text := "SELECT " + (distinct + field.value + table + JoinClause(options) + where
                  + GroupClause(options) + HavingClause(options) + OrderClause(options) + LegacyLimitClause(options));
      r := Query(text, db);
    }

    /** `count`: the first row's `count(key)` column. */
    method Count(table: string, keyName: string, db: DbResponse) returns (r: Result<Value>)
      modifies this
      ensures r == (var q := LegacyQueryReply(Trim(LegacyCountStatement(table, keyName, old(options))), db);
                    if q.Err? then Err(q.error) else Ok(CountValue(q.value.rows, keyName)))
      ensures options == map[] && hasStatement
      ensures lastSql == Some(Trim(LegacyCountStatement(table, keyName, old(options))))
    {
      var where := ParseLegacyWhere(options);
      var text := "SELECT " + (DistinctClause(options) + " count(" + keyName + ") FROM " + table
                  + JoinClause(options) + where);
      var q := Query(text, db);
      if q.Err? { return Err(q.error); }
      return Ok(CountValue(q.value.rows, keyName));
    }
  }

  /** The process-wide state of the class: the static configuration and the single
      instance. */
  class PdoDbStatics {
    var config: PhpArray
    var instance: PdoDb?

    constructor ()
      ensures config == LegacyDefaults && instance == null
    {
      config := LegacyDefaults;
      instance := null;
    }

    /** `_checkConfig`. */
    method CheckConfig(dbConfig: Value) returns (s: Status)
      modifies this
      ensures (config, s) == CheckConfigResult(old(config), dbConfig)
      ensures instance == old(instance)
    {
      var r := CheckConfigResult(config, dbConfig);
      config := r.0;
      s := r.1;
    }

    /** `getInstance`: only the first successful call checks its configuration and
        makes the object; later calls return that object and ignore their
        argument. */
    method GetInstance(dbConfig: Value) returns (r: Result<PdoDb>)
      modifies this
      ensures old(instance) != null ==> r == Ok(old(instance)) && config == old(config) && instance == old(instance)
      ensures old(instance) == null ==>
        && config == CheckConfigResult(old(config), dbConfig).0
        && (r.Ok? <==> CheckConfigResult(old(config), dbConfig).1.Pass?)
      ensures old(instance) == null && r.Ok? ==>
        instance == r.value && fresh(r.value) && r.value.options == map[] && r.value.lastSql == None
      ensures old(instance) == null && r.Err? ==>
        instance == null && r.error == CheckConfigResult(old(config), dbConfig).1.error
    {
      if instance == null {
        var s := CheckConfig(dbConfig);
        if s.Fail? { return Err(s.error); }
        instance := new PdoDb();
      }
      r := Ok(instance);
    }
  }
}
