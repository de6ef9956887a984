# chain-pdo in Dafny

This project models the core of **chain-pdo**, a small PHP library for building SQL statements through chained calls. The core has three parts:

* **`ChainPDO`**. A builder holds an option store of clauses: distinct, field, join, where, group, having, order, limit and data. The statement composers `insert`, `delete`, `update`, `select` and `count` render that store into SQL text. They then either return the text or hand it to the database, and always clear the store.
* **`ChainPDOFactory`**. This is a registry of builders, one per configured database.
  * `configure` checks and completes one database description. It merges the description over the defaults and derives the DSN.
  * `adapter` accepts either one description or a list of them.
  * `getDb` / `getDbs` return the builders.
  * `build` keeps one factory per process.
* **`PDODB`**. This is the older builder, with the same setters and composers. It differs in four ways:
  * it has process-wide settings, checked by `_checkConfig`;
  * it has its own clause rules;
  * it classifies statements as INSERT or not in `_execute`;
  * it is a singleton (`getInstance`).

Each module follows one part of the program:

| Module (file) | Contents |
|---|---|
| `Outcomes` (`outcomes.dfy`) | `Option`, `Result`, `Status`. Errors are either a thrown `Exception` or a PHP 8 `TypeError`. |
| `Php` (`php.dfy`) | PHP values and ordered arrays, modelled as a sequence of key/value pairs. Also the language functions the core relies on: `empty()`, string conversion, `trim`, `strtoupper`, `explode`/`implode`, `is_assoc`, array lookup and assignment, and `array_merge`. |
| `Quoting` (`quoting.dfy`) | `addSpecialChar`, `array_walk` with it, and the `` `k` = "v" `` pair-rendering loop. |
| `Clauses` (`clauses.dfy`) | The `parse*` and `ensure*` members of `ChainPDO`. Each is a function, plus a method wherever the source loops. |
| `Gateway` (`gateway.dfy`) | The database as an oracle parameter, `is_insert`/`is_select`, and how `execute`/`query` turn a database answer into a reply or an exception. |
| `Chain` (`chain_pdo.dfy`) | The statement texts, and class `ChainPdo` with its option store, setters and composers. |
| `Factory` (`factory.dfy`) | `configure`, the adapter, class `ChainPdoFactory`, and the `build` singleton (class `Registry`). |
| `Legacy` (`pdo_db.dfy`) | `_checkConfig`, the `PDODB` clause rules and replies, class `PdoDb` (the builder) and class `PdoDbStatics` (settings and singleton). |

The database is never called. Each call that would reach PDO takes a `DbResponse` parameter instead: the SQLSTATE, the error text, the affected row count, the last insert id, whether `PDOStatement::execute` reported success, and the fetched rows. The model states what the library does with each possible answer, in PDO's silent or warning error mode (see "## Left out" for the default exception mode).

Where the code and its own documentation disagree, the model follows the code:

* The table name is not back-quoted.
* `insert` renders two blanks after the table name.
* `having([...])` renders `Array`.
* `ChainPDO::limit` does not trim when the value is set.
* `sql()` tests the untrimmed text for SELECT.
* `build` returns the first factory whatever configuration it is given later.
* A composer called with `onlyReturnSql` returns its text untrimmed.

## Model

| member | source | states |
|---|---|---|
| Php.Trim | ChainPDO.php:63 | the result is a slice of the input with only trim characters (blank, tab, newline, carriage return, NUL, vertical tab) cut off on either side, and it neither starts nor ends with one |
| Php.TrimIdempotent | ChainPDO.php:197 | trimming twice equals trimming once |
| Php.TrimKeepsPrefix | ChainPDO.php:197 | trimming a text that starts with a non-blank word keeps that word at the front |
| Php.Explode | ChainPDO.php:246 | `explode` always yields at least one part |
| Php.ImplodeExplode | ChainPDO.php:246-249 | joining the parts of `explode(',', s)` with a comma gives back `s` |
| Php.ExplodeImplode | ChainPDO.php:246-249 | exploding the comma-join of comma-free parts gives back those parts |
| Php.ExplodeNoSep | ChainPDO.php:246 | no part of an `explode` result holds the separator |
| Php.Empty | ChainPDO.php:217 | PHP's `empty()`: null, false, 0, `""`, `"0"` and the empty array are empty, nothing else is |
| Php.IsAssoc | ChainPDO.php:354 | `is_assoc`: an array is associative exactly when the key of some element, read as a string, differs from that element's position |
| Php.ListNotAssoc | ChainPDO.php:354 | a list built with keys 0..n-1 is not associative |
| Php.NamedKeyIsAssoc | ChainPDO.php:354 | an array with a non-numeric string key is associative |
| Php.NotAssocKeys | ChainPDO.php:354 | in a non-associative array, element i has key i |
| Php.ArrayMerge | ChainPDOFactory.php:88 | `array_merge`: the second array's entries are merged over the first, a string key overwriting in place and an integer key appended with the next number (its lookups are stated by `ArrayMergeLookup`) |
| Php.ArrayMergeLookup | ChainPDOFactory.php:88 | after `array_merge(a, b)`, a string key reads from b when b has it, otherwise from a |
| Php.ArrayMergeUnique | PDODB.class.php:635 | `array_merge` never yields a duplicate key |
| Php.AssignLookup | ChainPDOFactory.php:79 | after `a[k] = v`, key k reads v and every other key reads as before |
| Quoting.IsPreformatted | ChainPDO.php:370 | the token is `*` or contains `.`, a back-quote, `(` or ` as ` |
| Quoting.AddSpecialChar | ChainPDO.php:369-376 | a preformatted token comes back unchanged; any other token comes back as its trimmed text between back-quotes; the result is always preformatted |
| Quoting.AddSpecialCharShape | ChainPDO.php:369-376 | a plain token becomes one back-quoted identifier holding its trimmed text with no back-quote inside; a preformatted token (`*`, qualified, quoted, call, alias) stays unchanged |
| Quoting.PlainNameQuoted | ChainPDO.php:369-376 | a plain column name is quoted as it is |
| Quoting.AddSpecialCharIdempotent | ChainPDO.php:369-376 | quoting an already quoted token changes nothing |
| Quoting.WalkQuoteAll | ChainPDO.php:248 | `array_walk` with `addSpecialChar` keeps every key and quotes every value in order when no value is an array |
| Quoting.WalkQuoteIdempotent | ChainPDO.php:248 | walking twice yields the same values as walking once |
| Quoting.RenderPairs | ChainPDO.php:252-260 | the push loop followed by `implode` yields the glue-joined `` `k` = "v" `` texts of all pairs in order |
| Clauses.DataRecordParts | ChainPDO.php:99-105 | the `data` option keeps both arguments under `dataOrFields` and `data` |
| Clauses.EnsureArray | ChainPDO.php:331-333 | passes exactly for arrays and otherwise throws the location's "must be an array" message |
| Clauses.EnsureNormalArray | ChainPDO.php:338-340 | passes exactly for non-associative arrays; throws for associative arrays; a non-array is a TypeError from `array_keys` |
| Clauses.EnsureAssocArray | ChainPDO.php:345-347 | passes exactly for associative arrays, with the matching error cases |
| Clauses.ShapeChecksComplementary | ChainPDO.php:338-347 | on any array, exactly one of the two shape checks passes |
| Clauses.DistinctClause | ChainPDO.php:239 | `DISTINCT ` exactly when `distinct` is set non-empty, nothing otherwise |
| Clauses.JoinClause | ChainPDO.php:217 | a blank and the join text exactly when `join` is non-empty, nothing otherwise (`PDODB` renders alike) |
| Clauses.OrderClause | ChainPDO.php:235 | ` ORDER BY ` and the order text exactly when `order` is non-empty, nothing otherwise (`PDODB` renders alike) |
| Clauses.HavingClause | ChainPDO.php:237 | ` HAVING ` and the having text exactly when `having` is non-empty, nothing otherwise (`PDODB` renders alike) |
| Clauses.GroupClause | ChainPDO.php:262-266 | ` GROUP BY ` exactly for a non-empty string or array: a string as written, an array's values joined by commas; nothing for anything else (`PDODB` renders alike) |
| Clauses.GroupColumns | ChainPDO.php:265 | splitting the grouped text at commas gives back the array's comma-free column names in order |
| Clauses.WhereClause | ChainPDO.php:252-260 | the WHERE clause is produced exactly for a non-empty string or a non-empty associative array, so a list of conditions is dropped; when produced it starts with ` WHERE `, followed by a string condition as written, or by the `` `k` = "v" `` texts of an associative array joined with ` AND ` |
| Clauses.ParseWhere | ChainPDO.php:252-260 | the loop over the conditions computes the WHERE clause |
| Clauses.WhereSingleCondition | ChainPDO.php:255-258 | one named condition renders as `` WHERE `col` = "v" `` |
| Clauses.LimitClause | ChainPDO.php:222 | refused with `trim`'s TypeError exactly when `limit` is a non-empty array; empty exactly when `limit` is empty; any other limit renders ` LIMIT ` and its trimmed text |
| Clauses.LimitClauseForUD | ChainPDO.php:229-233 | refused with "Limit type error, must be an integer." exactly when a non-empty limit is not an integer |
| Clauses.LimitForUDCases | ChainPDO.php:229-233 | for DELETE/UPDATE, no limit gives no clause, a non-zero integer gives ` LIMIT n`, and anything else throws the "must be an integer" exception |
| Clauses.FieldClause | ChainPDO.php:242-250 | no field gives `* FROM `; a set field is refused exactly when it is neither a string nor an array, or the walk meets an array value; an accepted clause is the comma-joined quoted field list followed by ` FROM ` |
| Clauses.StrListQuoted | ChainPDO.php:246-248 | a list of column names is a plain list, and walking it quotes each name |
| Clauses.FieldStringQuoted | ChainPDO.php:242-250 | a field string is split at commas and each part is quoted, then rejoined before ` FROM ` |
| Clauses.FieldPreformattedVerbatim | ChainPDO.php:242-250 | a field string made only of preformatted parts is rendered verbatim |
| Clauses.FieldRewriteStable | ChainPDO.php:246-248 | rendering the field clause again after `parseField` has rewritten the option gives the same clause |
| Clauses.WalkQuoteKeepsArray | ChainPDO.php:248 | an array element stops the walk and stays an array |
| Clauses.UpdateDataClause | ChainPDO.php:271-278 | the SET list is produced exactly when `dataOrFields` is an associative array, and it then joins the quoted pairs with commas; missing data throws "missing first parameter", a scalar the "must be an array" message, and a non-empty list the "associative array" message |
| Clauses.ParseDataForUpdate | ChainPDO.php:271-278 | the loop computes the SET list or the first refusal |
| Clauses.InsertSingleClause | ChainPDO.php:292-296 | accepted exactly for an associative record, and the accepted text is ` (`, the comma-joined quoted keys, `) VALUES ` and the value group; anything else is refused with the "associative array" message |
| Clauses.InsertMultiClause | ChainPDO.php:302-315 | accepted exactly when the columns are a list without array values and the rows are a list whose every row passes; the text starts with ` (` |
| Clauses.InsertDataClause | ChainPDO.php:283-286 | missing data throws "missing first parameter" and a scalar the "must be an array" message; an accepted first argument is an array, associative exactly when no rows are given |
| Clauses.FirstBadIndexSpec | ChainPDO.php:309-313 | every row before the first bad index passes the row check, and the row at it fails |
| Clauses.FirstBadRowSpec | ChainPDO.php:309-313 | the rows' refusal is the first failing row's error, and there is none exactly when every row passes |
| Clauses.FirstBadRowPrefix | ChainPDO.php:309-313 | extending the checked prefix by one row keeps the earliest refusal |
| Clauses.RenderRows | ChainPDO.php:302-315 | the row loop renders all value groups comma-separated after the column list, or stops at the first refused row with its error |
| Clauses.ParseDataForInsert | ChainPDO.php:283-315 | the single-row or multi-row VALUES clause, or the error the checks throw |
| Clauses.RowListAccepted | ChainPDO.php:302-315 | a list of value lists passes every row check, and each row is rendered as its value group |
| Clauses.InsertMultiRows | ChainPDO.php:302-315 | columns plus rows render as the quoted column list followed by all value groups |
| Gateway.IsInsert | ChainPDO.php:359 | the first six characters, upper-cased, are `INSERT` |
| Gateway.IsSelect | ChainPDO.php:364 | the first six characters, upper-cased, are `SELECT` |
| Gateway.KeywordDetection | ChainPDO.php:359-364 | for every text: upper-casing it does not change either detection; a text whose first character is a trim character is never detected; `select…` and `insert…` in lower case are detected |
| Gateway.KeywordPrefix | ChainPDO.php:359-364 | a text that begins with the keyword is detected as that keyword, before and after trimming |
| Gateway.ErrorText | ChainPDO.php:325 | the exception text `SQL_STATE: s, ERROR_INFO: m, SQL: q.` |
| Gateway.ExecuteReply | ChainPDO.php:195-201 | fails exactly when SQLSTATE is not `00000`, with the state, info and SQL in the message; an INSERT with at most one affected row replies with the insert id; anything else replies with the row count |
| Gateway.QueryReply | ChainPDO.php:206-213 | fails exactly when SQLSTATE is not `00000`, and otherwise replies with every fetched row |
| Gateway.CountValue | ChainPDO.php:177 | `$rows[0]["count(key)"]`, null when there is no row or no such column |
| Gateway.CountValueFirstRow | ChainPDO.php:177 | wherever the `count(key)` column stands in the first row, the count reply is its value |
| Gateway.CountValueMissing | ChainPDO.php:177 | with no row, or a first row without the column, the count reply is null |
| Chain.InsertStatement | ChainPDO.php:116 | refused exactly when the data fragment is, with its error; the text starts with `INSERT INTO ` |
| Chain.DeleteStatement | ChainPDO.php:127-129 | refused exactly when the limit is, with its error; the text starts with `DELETE FROM ` |
| Chain.UpdateStatement | ChainPDO.php:140-143 | refused exactly when the data or the limit is, the data's error first; the text starts with `UPDATE ` |
| Chain.SelectStatement | ChainPDO.php:154-161 | refused exactly when the field list or the limit is, the field list's error first; the text starts with `SELECT ` |
| Chain.CountStatement | ChainPDO.php:173-176 | never refused; the text starts with `SELECT ` |
| Chain.CountIgnoresClauses | ChainPDO.php:173-176 | the COUNT text depends only on the distinct, join and where options: field, group, having, order and limit have no effect on it |
| Chain.CountDefault | ChainPDO.php:173-176 | with no distinct, join or where set, whatever else the store holds, count renders `SELECT  count(k) FROM t` |
| Chain.ExecuteOrText | ChainPDO.php:117 | with `onlyReturnSql` the text itself; otherwise succeeds exactly when the database reports no error, with a row count or an insert id |
| Chain.QueryOrText | ChainPDO.php:162 | with `onlyReturnSql` the text itself; otherwise succeeds exactly when the database reports no error, with the fetched rows |
| Chain.SelectDefault | ChainPDO.php:153-163 | with none of its options set, whatever else the store holds, select renders `SELECT * FROM t` |
| Chain.DeleteDefault | ChainPDO.php:126-131 | with no where, order or limit set, whatever else the store holds, delete renders `DELETE FROM t ` |
| Chain.LimitRefusedForUD | ChainPDO.php:126-145 | DELETE and UPDATE refuse a set limit that is not an integer |
| Chain.StatementKeywords | ChainPDO.php:115-178 | insert is classified as INSERT; delete and update as neither INSERT nor SELECT; select and count as SELECT |
| Chain.InsertReplies | ChainPDO.php:115-118 | a successful insert of at most one row replies with the last insert id |
| Chain.UpdateDeleteReplies | ChainPDO.php:126-145 | a successful update or delete replies with the affected row count |
| Chain.InsertOneColumn | ChainPDO.php:115-118 | inserting one named column renders ``INSERT INTO t  (`c`) VALUES ("v")`` |
| Chain.InsertFirstRefusals | ChainPDO.php:283-315 | inserting with no data, scalar data, a list as a single row, or a record as the column list throws the matching errors |
| Chain.InsertSecondRefusals | ChainPDO.php:302-306 | a scalar or a record as the rows argument is refused |
| Chain.InsertRowRefused | ChainPDO.php:309-313 | a row that is an associative array is refused |
| Chain.FieldRewriteOthers | ChainPDO.php:246-248 | `parseField` rewrites only the field option, so every other clause renders the same |
| Chain.ChainPdo.constructor | ChainPDO.php:15-28 | keeps the configuration and starts with no options, no SQL and no statement |
| Chain.ChainPdo.Set | ChainPDO.php:71-75 | a setter stores its argument under its option key and changes nothing else |
| Chain.ChainPdo.Distinct | ChainPDO.php:49 | sets `distinct` to true |
| Chain.ChainPdo.Field | ChainPDO.php:56 | stores the field option |
| Chain.ChainPdo.Join | ChainPDO.php:63 | stores the trimmed join text; an array value is a TypeError and leaves the options unchanged |
| Chain.ChainPdo.Where | ChainPDO.php:71 | stores the where option |
| Chain.ChainPdo.Group | ChainPDO.php:73 | stores the group option |
| Chain.ChainPdo.Having | ChainPDO.php:75 | stores the having option |
| Chain.ChainPdo.Order | ChainPDO.php:82 | stores the trimmed order text; an array value is a TypeError |
| Chain.ChainPdo.Limit | ChainPDO.php:91 | stores the limit untrimmed |
| Chain.ChainPdo.Data | ChainPDO.php:99-105 | stores both data arguments together |
| Chain.ChainPdo.Clean | ChainPDO.php:386 | clears the options, the SQL and the statement |
| Chain.ChainPdo.CleanAndReturnSql | ChainPDO.php:381 | clears the state and returns the text unchanged |
| Chain.ChainPdo.Execute | ChainPDO.php:195-201 | remembers the trimmed SQL, replies as `ExecuteReply`, and clears the options |
| Chain.ChainPdo.Query | ChainPDO.php:206-213 | remembers the trimmed SQL and the statement, and replies as `QueryReply` |
| Chain.ChainPdo.Sql | ChainPDO.php:182 | runs raw text as a query exactly when the untrimmed text starts with SELECT, and otherwise executes it |
| Chain.ChainPdo.ParseField | ChainPDO.php:242-250 | returns the field clause and leaves the rewritten field list in the options |
| Chain.ChainPdo.Insert | ChainPDO.php:115-118 | on refusal, throws and leaves the state unchanged; with `onlyReturnSql`, returns the INSERT text untrimmed and clears; otherwise executes the trimmed text and replies as `ExecuteReply` |
| Chain.ChainPdo.Delete | ChainPDO.php:126-131 | the same three outcomes for the DELETE text |
| Chain.ChainPdo.Update | ChainPDO.php:139-145 | the same three outcomes for the UPDATE text |
| Chain.ChainPdo.Select | ChainPDO.php:153-163 | the same three outcomes for the SELECT text, run as a query; a refusal leaves the field option rewritten |
| Chain.ChainPdo.Count | ChainPDO.php:172-178 | returns the COUNT text, or the count column of the first row the query returns |
| Factory.DefaultKeysUnique | ChainPDOFactory.php:25-34 | the default configuration has distinct string keys |
| Factory.DefaultTypeAndPort | ChainPDOFactory.php:25-34 | the defaults are type `mysql` and port `3306` |
| Factory.Configure | ChainPDOFactory.php:86-94 | refused, with "DB_NAME not configured.", exactly when the description's DB_NAME is empty |
| Factory.ConfigureMerges | ChainPDOFactory.php:86-94 | the result is the description merged over the defaults, with DB_DSN assigned |
| Factory.ConfigureSettings | ChainPDOFactory.php:88 | every setting other than DB_DSN comes from the description, or else from the defaults |
| Factory.Dsn | ChainPDOFactory.php:89-92 | the text `type:host=h;port=p;dbname=n` from the merged settings |
| Factory.ConfigureDsn | ChainPDOFactory.php:89-92 | DB_DSN is `type:host=h;port=p;dbname=n` from the merged settings |
| Factory.ConfigureTypicalDsn | ChainPDOFactory.php:86-94 | a description with only a host and a name gets `mysql:host=h;port=3306;dbname=n` |
| Factory.ConnectedConfig | ChainPDOFactory.php:99 | corrected `connect`: the builder receives the stored configuration |
| Factory.ConnectedConfigAsWritten | ChainPDOFactory.php:99 | as written, the builder's settings are the index itself: not an array, with the index's text |
| Factory.ConnectAsWrittenLosesConfig | ChainPDOFactory.php:99 | as written, the builder's configuration is the database index, so it carries no DSN and no DB_NAME |
| Factory.ConnectKeepsDbName | ChainPDOFactory.php:99 | with the correction, the builder sees the configured DB_NAME |
| Factory.ConnectConfig | ChainPDOFactory.php:78-81 | the connector succeeds exactly when configure accepts; it then stores the result under the index; otherwise nothing is stored and configure's error is thrown |
| Factory.ConfigureEachPass | ChainPDOFactory.php:72 | the foreach completes exactly when every description is accepted |
| Factory.FirstRefusedSpec | ChainPDOFactory.php:72 | every description before the first refused one is accepted, and the one at it is refused |
| Factory.ConfigureEachFirstRefusal | ChainPDOFactory.php:72 | a failed foreach throws the error of the first refused description |
| Factory.ConfigureEachAppends | ChainPDOFactory.php:72 | when all descriptions are accepted under fresh keys, the configurations are appended in order |
| Factory.AssignPaired | ChainPDOFactory.php:79-80 | storing a configuration and its builder under the same index keeps the two tables paired |
| Factory.PairedLookup | ChainPDOFactory.php:50-53 | in paired tables, an index has a builder exactly when it has a configuration, and the builder holds that configuration |
| Factory.ListAdapter | ChainPDOFactory.php:68-73 | a list of valid descriptions yields their configurations under indexes 0..n-1 |
| Factory.SingleAdapter | ChainPDOFactory.php:70 | one associative description is stored under index 0 |
| Factory.AdapterNonArray | ChainPDOFactory.php:70 | a description that is not an array is a TypeError from `array_keys` |
| Factory.ChainPdoFactory.constructor | ChainPDOFactory.php:37-40 | starts with no configurations and no builders |
| Factory.AdapterIndexes | ChainPDOFactory.php:68-73 | the indexes `adapter` can connect under: 0 for one description, the list's own keys for a list, none for a non-array |
| Factory.ChainPdoFactory.Connector | ChainPDOFactory.php:78-81 | updates the configurations as `ConnectConfig` states and keeps builders paired with them; every other index keeps its builder; on success the index holds a new builder with an empty option store and no statement; on failure the builders are unchanged |
| Factory.ChainPdoFactory.Adapter | ChainPDOFactory.php:68-73 | the loop leaves the state the adapter function computes, stopping at the first refusal; a builder changes only at an index the argument names, and then is a new one with an empty option store and no statement |
| Factory.NotFoundMessage | ChainPDOFactory.php:51 | the text `Database[i] not found.` |
| Factory.ChainPdoFactory.ConnectEach | ChainPDOFactory.php:72 | the foreach leaves the state `ConfigureEach` computes, stopping at the first refusal; a builder changes only under a key of the list, and then is a new one with an empty option store and no statement |
| Factory.ChainPdoFactory.GetDb | ChainPDOFactory.php:50-53 | returns the builder of a configured index, and otherwise the "Database[i] not found." exception |
| Factory.ChainPdoFactory.GetDbAsWritten | ChainPDOFactory.php:50 | as written, a call without an index is an ArgumentCountError |
| Factory.ChainPdoFactory.GetDbOrFirst | ChainPDOFactory.php:50 | corrected: a call without an index returns database 0 |
| Factory.ChainPdoFactory.GetDbs | ChainPDOFactory.php:45 | one builder per configuration, each holding its configuration |
| Factory.GetDbWithoutIndex | test/TestChainPDOFactory.php:35 | the tests' `getDb()` fails as written and returns database 0 once corrected |
| Factory.Registry.constructor | ChainPDOFactory.php:22 | there is no factory yet |
| Factory.Registry.Build | ChainPDOFactory.php:55-58 | the first successful call creates the factory from the descriptions, every builder of it new with an empty option store; later calls return it unchanged; a refused description leaves none |
| Legacy.LegacyDefaultsUnique | PDODB.class.php:23-33 | the default settings have distinct keys |
| Legacy.LegacyDefaultsNoPassword | PDODB.class.php:23-33 | the default password is empty |
| Legacy.WithPersistence | PDODB.class.php:644-650 | the parameters stay unchanged when already set or when persistence is off |
| Legacy.PersistenceRule | PDODB.class.php:644-650 | with persistence on and empty parameters, the parameters become `[12 => true]` (PDO::ATTR_PERSISTENT) |
| Legacy.MergeTypeError | PDODB.class.php:635 | the TypeError text of `array_merge` given a non-array, naming its type |
| Legacy.CheckConfigResult | PDODB.class.php:633-652 | merges the description into the settings even when a check then fails; passes exactly when user, password and name are all non-empty; reports the first missing one of user, password, name; on a pass the settings are the merge with DB_DSN assigned and the persistence rule applied; a non-array is a TypeError |
| Legacy.CheckConfigDsn | PDODB.class.php:639-642 | after a pass, DB_DSN is built from type, host, port and name |
| Legacy.CheckConfigRemembers | PDODB.class.php:635 | settings merged by a failed call are kept for the next call |
| Legacy.SecondCallCompletes | PDODB.class.php:633-652 | a user given first and a password given second add up to a passing configuration |
| Legacy.LegacyWhereClause | PDODB.class.php:351-364 | a WHERE clause exactly for a non-empty string or array, starting with ` WHERE `, a string as written |
| Legacy.ParseLegacyWhere | PDODB.class.php:351-364 | the loop computes the older WHERE clause |
| Legacy.WhereAgreement | PDODB.class.php:351-364 | both builders render the same WHERE clause, except for a non-empty list: `ChainPDO` drops it and the older builder renders its positions as column names |
| Legacy.LegacyLimitClause | PDODB.class.php:303-308 | empty exactly when `limit` is empty; otherwise ` LIMIT ` and the stored limit as written |
| Legacy.LimitPolicies | PDODB.class.php:303-308 | the older builder renders any non-empty text limit, while `ChainPDO` refuses it for DELETE |
| Legacy.LegacyUpdateData | PDODB.class.php:271-281 | refuses, with "data must be an array", data that is empty or not an array; otherwise joins the quoted pairs with commas |
| Legacy.ParseLegacyUpdateData | PDODB.class.php:271-281 | the loop computes the SET list |
| Legacy.LegacyInsertData | PDODB.class.php:288-297 | the same refusal, otherwise the quoted column list before VALUES |
| Legacy.LegacyInsertStatement | PDODB.class.php:99 | refused exactly when the data is, with its error; the text starts with `INSERT INTO ` |
| Legacy.LegacyDeleteStatement | PDODB.class.php:110-112 | never refused; the text starts with `DELETE FROM ` |
| Legacy.LegacyUpdateStatement | PDODB.class.php:123-126 | refused exactly when the data is, with its error; the text starts with `UPDATE ` |
| Legacy.LegacySelectStatement | PDODB.class.php:137-144 | refused exactly when the field list is, with its error; the text starts with `SELECT ` |
| Legacy.LegacyCountStatement | PDODB.class.php:156-159 | never refused; the text starts with `SELECT ` |
| Legacy.LegacyCountIgnoresClauses | PDODB.class.php:156-159 | the older COUNT text depends only on the distinct, join and where options: field, group, having, order and limit have no effect on it |
| Legacy.LegacyCountDefault | PDODB.class.php:156-159 | with no distinct, join or where set, whatever else the store holds, the older count renders `SELECT  count(k) FROM t` |
| Legacy.InsertAgreement | PDODB.class.php:97-101 | for one associative row, the older INSERT text equals `ChainPDO`'s |
| Legacy.ListDataAccepted | PDODB.class.php:288-297 | the older builder inserts a plain list that `ChainPDO` refuses |
| Legacy.LegacyErrorText | PDODB.class.php:658-666 | the exception text `SQL_STATE : s<br/>ERROR_INFO : m<br/>ERROR_SQL : q` |
| Legacy.LegacyExecuteReply | PDODB.class.php:592-604 | fails exactly on a SQLSTATE other than `00000`; an INSERT replies with the insert id whatever the row count; anything else replies with the row count |
| Legacy.LegacyQueryReply | PDODB.class.php:611-619 | fails on an error state, fails with "query failed" when execute reports false, and otherwise returns the rows |
| Legacy.ReplyAgreement | PDODB.class.php:592-604 | the two builders reply alike except for an INSERT affecting more than one row |
| Legacy.LegacyReplies | PDODB.class.php:97-128 | a successful insert replies with its id; update and delete reply with the row count |
| Legacy.LegacyInsertKeyword | PDODB.class.php:592-604 | an older INSERT text is classified as INSERT |
| Legacy.LegacyUpdateKeyword | PDODB.class.php:592-604 | an older UPDATE text is not classified as INSERT |
| Legacy.LegacyDeleteKeyword | PDODB.class.php:592-604 | an older DELETE text is not classified as INSERT |
| Legacy.FieldRewriteKeepsLegacy | PDODB.class.php:381-395 | the field rewrite leaves the older WHERE and LIMIT clauses unchanged |
| Legacy.PdoDb.constructor | PDODB.class.php:53-67 | starts with no options, no SQL and no statement |
| Legacy.PdoDb.Set | PDODB.class.php:203-229 | stores the value under its option key and changes nothing else |
| Legacy.PdoDb.SetTrimmed | PDODB.class.php:192-251 | stores the trimmed text; an array value is a TypeError |
| Legacy.PdoDb.Distinct | PDODB.class.php:170-174 | sets `distinct` |
| Legacy.PdoDb.Field | PDODB.class.php:181-185 | stores the field option |
| Legacy.PdoDb.Join | PDODB.class.php:192-196 | stores the trimmed join text |
| Legacy.PdoDb.Where | PDODB.class.php:203-207 | stores the where option |
| Legacy.PdoDb.Group | PDODB.class.php:214-218 | stores the group option |
| Legacy.PdoDb.Having | PDODB.class.php:225-229 | stores the having option |
| Legacy.PdoDb.Order | PDODB.class.php:236-240 | stores the trimmed order text |
| Legacy.PdoDb.Limit | PDODB.class.php:247-251 | stores the trimmed limit text |
| Legacy.PdoDb.Data | PDODB.class.php:258-262 | stores the data |
| Legacy.PdoDb.Flush | PDODB.class.php:671-691 | drops the statement and the options |
| Legacy.PdoDb.Execute | PDODB.class.php:434-437 | remembers the trimmed SQL, flushes, and replies as `LegacyExecuteReply` |
| Legacy.PdoDb.Query | PDODB.class.php:444-450 | remembers the trimmed SQL and the statement, and replies as `LegacyQueryReply` |
| Legacy.PdoDb.ParseField | PDODB.class.php:381-395 | returns the field clause and keeps the rewritten option |
| Legacy.PdoDb.Insert | PDODB.class.php:97-101 | throws the data refusal and leaves the state unchanged, or executes the INSERT text |
| Legacy.PdoDb.Delete | PDODB.class.php:108-114 | executes the DELETE text |
| Legacy.PdoDb.Update | PDODB.class.php:121-128 | throws the data refusal, or executes the UPDATE text |
| Legacy.PdoDb.Select | PDODB.class.php:135-146 | throws the field refusal, leaving the field option rewritten, or queries the SELECT text |
| Legacy.PdoDb.Count | PDODB.class.php:154-162 | queries the COUNT text and returns the count column of the first row |
| Legacy.PdoDbStatics.constructor | PDODB.class.php:21-33 | starts with the default settings and no instance |
| Legacy.PdoDbStatics.CheckConfig | PDODB.class.php:633-652 | updates the settings as `CheckConfigResult` states |
| Legacy.PdoDbStatics.GetInstance | PDODB.class.php:74-82 | the first call checks the settings and creates the builder only on a pass; later calls return the same builder and change nothing |

## Left out

- Opening the PDO connection, `SET NAMES`, `prepare`/`exec`/`fetchAll`: the database is the `DbResponse` parameter, and the connection attributes are not modelled.
- A `prepare` that returns false: the reply comes from the oracle's state and counts.
- Gateway.ExecuteReply, Gateway.QueryReply, Legacy.LegacyExecuteReply, Legacy.LegacyQueryReply: these assume PDO's silent or warning error mode (`PDO::ERRMODE_SILENT` or `PDO::ERRMODE_WARNING`, set through `DB_OPTIONS` or `DB_PARAMS`), in which a failing call returns normally and `errorInfo()` is read afterwards. Neither class sets `PDO::ATTR_ERRMODE`, so under PHP 8's default `PDO::ERRMODE_EXCEPTION` a failing `exec`, `prepare` or `execute` throws PDO's own `PDOException` instead of the library's `SQL_STATE` or `query failed` message. The state effects (cleared options, remembered SQL) happen before the call and stay as modelled.
- For `ChainPDO::ensure()` and `PDODB::_checkError`, the loose `!=` comparison of SQLSTATE strings is modelled as plain inequality.
- Getters (`getSql`, `getConfig`, `getLastSql` and the like) just read fields and have no member of their own.
- Setters return `$this` / `self::$instance` for chaining. The methods return nothing, and a chain is a sequence of calls.
- The `PDODB` extras `showTables`, `showTableInfo`, `quote`, `getDbVersion`, `isConnected`, transactions, destructors and `__clone` are outside the builder core.
- The factory constructor's `class_exists('PDO')` test belongs to the environment, and the model assumes the extension is present.
- PHP's conversion of numeric string keys to integer keys is not modelled: keys are kept as given.
- Legacy.WithPersistence: an empty DB_PARAMS given as `""`, `"0"` or `0` is left unchanged. PHP's string-offset assignment and integer-to-array conversion for these values are not modelled.
- Floats, objects and resources as option values are not modelled: values are null, booleans, integers, strings and arrays.
- Factory.ChainPdoFactory.GetDbAsWritten: the ArgumentCountError message omits the file and line that PHP appends.
- Php.UniqueKeys: distinct keys are a property of PHP arrays. Lemmas that need it take it as a requirement.
- Factory.ConnectConfig, Factory.ConfigureEachPass, Factory.FirstRefusedSpec, Factory.ConfigureEachFirstRefusal, Factory.ConfigureEachAppends: these are stated for any configure function. The adapter and the factory class use them with `Factory.Configure`.

## Findings

| source | as written | input that shows it | evidently intended | confidence | as-written member | corrected member |
|---|---|---|---|---|---|---|
| ChainPDOFactory.php:99 | `connect` calls `new ChainPDO($dbIndex, $config)`, but the constructor at ChainPDO.php:15 takes the configuration as its only argument, so the builder's configuration is the index | `build(['DB_NAME' => 'test'])`: the builder's config is `0` and has no DB_DSN | the builder receives the stored configuration | not executed | Factory.ConnectedConfigAsWritten (shown by Factory.ConnectAsWrittenLosesConfig) | Factory.ConnectedConfig (with Factory.ConnectKeepsDbName) |
| ChainPDOFactory.php:50 | `getDb($dbIndex)` has no default, yet test/TestChainPDOFactory.php:35 and test/TestChainPDO.php:20 call `getDb()` | `getDb()` on a factory with database 0: ArgumentCountError | a call without an index returns database 0 | not executed | Factory.ChainPdoFactory.GetDbAsWritten | Factory.ChainPdoFactory.GetDbOrFirst (with Factory.GetDbWithoutIndex) |
