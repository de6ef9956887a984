/** The clause parsers of the `ChainPDO` builder.  Each reads the option store that
    the chained setters filled and yields one fragment of SQL text; a parser that
    returns nothing in PHP yields the empty fragment, because `null` concatenates as
    "".  The functions are the specification; the methods are the parsers that loop
    (`foreach ... array_push`, the row-appending loop of a multi-row insert) and are
    proved equal to them. */
module Clauses {
  import opened Outcomes
  import opened Php
  import opened Quoting

  /** The option store `$this->options`: option name to the value last set. */
  type Options = map<string, Value>

  /** `$this->options[$key]` read inside `empty()`. */
  function Get(o: Options, key: string): Value {
    if key in o then o[key] else Null
  }

  /** What `data($dataOrFields, $data = [])` stores under "data". */
  function DataRecord(dataOrFields: Value, data: Value): Value {
    Arr([(StrKey("dataOrFields"), dataOrFields), (StrKey("data"), data)])
  }

  /** `$this->options['data'][$part]`. */
  function DataPart(o: Options, part: string): Value {
    Index(Get(o, "data"), StrKey(part))
  }

  /** The two parts of a stored data record read back as given. */
  lemma DataRecordParts(o: Options, dataOrFields: Value, data: Value)
    requires Get(o, "data") == DataRecord(dataOrFields, data)
    ensures DataPart(o, "dataOrFields") == dataOrFields && DataPart(o, "data") == data
  {
    var e := [(StrKey("dataOrFields"), dataOrFields), (StrKey("data"), data)];
    assert StrKey("dataOrFields") != StrKey("data") by { assert |"dataOrFields"| != |"data"|; }
    assert Lookup(e, StrKey("dataOrFields")) == Some(dataOrFields);
    assert e[1..] == [(StrKey("data"), data)];
    assert Lookup(e, StrKey("data")) == Lookup(e[1..], StrKey("data")) == Some(data);
  }

  // ---------------------------------------------------------------------------
  // Error messages and the validators ensureArray, ensureNormalArray, ensureAssocArray

  const MissingFirst: string := "Data missing first parameter."
  const LimitNotInteger: string := "Limit type error, must be an integer."

  function NotArrayMessage(location: string): string {
    "Data type error, " + location + " parameter must be an array."
  }

  function NotNormalMessage(location: string): string {
    "Data type error, " + location + " parameter must be an normal array."
  }

  function NotAssocMessage(location: string): string {
    "Data type error, " + location + " parameter must be an associative array."
  }

  /** The type name PHP puts in a TypeError message. */
  function TypeName(v: Value): string {
    match v
    case Str(_) => "string"
    case Int(_) => "int"
    case Bool(_) => "bool"
    case Null => "null"
    case Arr(_) => "array"
  }

  const TrimTypeError: string := "trim(): Argument #1 ($string) must be of type string, array given"

  function ImplodeTypeError(v: Value): string {
    "implode(): Argument #2 ($array) must be of type ?array, " + TypeName(v) + " given"
  }

  function ArrayKeysTypeError(v: Value): string {
    "array_keys(): Argument #1 ($array) must be of type array, " + TypeName(v) + " given"
  }

  /** `ensureArray`. */
  function EnsureArray(v: Value, location: string): (s: Status)
    ensures s.Pass? <==> v.Arr?
    ensures s.Fail? ==> s.error == Exception(NotArrayMessage(location))
  {
    if v.Arr? then Pass else Fail(Exception(NotArrayMessage(location)))
  }

  /** `is_assoc` applied to any value: `array_keys` refuses a non-array. */
  function IsAssocValue(v: Value): Result<bool> {
    if v.Arr? then Ok(IsAssoc(v.entries)) else Err(TypeError(ArrayKeysTypeError(v)))
  }

  /** `ensureNormalArray`: passes exactly the arrays whose keys are their positions;
      an associative array is refused with the library's message, and a non-array
      makes `is_assoc` itself fail. */
  function EnsureNormalArray(v: Value, location: string): (s: Status)
    ensures s.Pass? <==> v.Arr? && !IsAssoc(v.entries)
    ensures v.Arr? && IsAssoc(v.entries) ==> s == Fail(Exception(NotNormalMessage(location)))
    ensures !v.Arr? ==> s == Fail(TypeError(ArrayKeysTypeError(v)))
  {
    match IsAssocValue(v)
    case Err(e) => Fail(e)
    case Ok(assoc) => if assoc then Fail(Exception(NotNormalMessage(location))) else Pass
  }

  /** `ensureAssocArray`: the mirror image of `EnsureNormalArray` on arrays. */
  function EnsureAssocArray(v: Value, location: string): (s: Status)
    ensures s.Pass? <==> v.Arr? && IsAssoc(v.entries)
    ensures v.Arr? && !IsAssoc(v.entries) ==> s == Fail(Exception(NotAssocMessage(location)))
    ensures !v.Arr? ==> s == Fail(TypeError(ArrayKeysTypeError(v)))
  {
    match IsAssocValue(v)
    case Err(e) => Fail(e)
    case Ok(assoc) => if assoc then Pass else Fail(Exception(NotAssocMessage(location)))
  }

  /** On an array, exactly one of the two shape checks passes. */
  lemma ShapeChecksComplementary(a: PhpArray, location: string)
    ensures EnsureNormalArray(Arr(a), location).Pass? != EnsureAssocArray(Arr(a), location).Pass?
  {
  }

  // ---------------------------------------------------------------------------
  // Clauses that never fail

  /** `parseDistinct`: present exactly when the option is set. */
  function DistinctClause(o: Options): (r: string)
    ensures r != "" <==> !Empty(Get(o, "distinct"))
    ensures r != "" ==> r == "DISTINCT "
  {
    if Empty(Get(o, "distinct")) then "" else "DISTINCT "
  }

  /** `parseJoin`: present exactly when the option is set, and then a blank
      followed by the option's text. */
  function JoinClause(o: Options): (r: string)
    ensures r != "" <==> !Empty(Get(o, "join"))
    ensures r != "" ==> |r| >= 1 && r[..1] == " " && r[1..] == ToStr(Get(o, "join"))
  {
    if Empty(Get(o, "join")) then "" else " " + ToStr(Get(o, "join"))
  }

  /** `parseOrder`: present exactly when the option is set, and then the keyword
      followed by the option's text. */
  function OrderClause(o: Options): (r: string)
    ensures r != "" <==> !Empty(Get(o, "order"))
    ensures r != "" ==> |r| >= 10 && r[..10] == " ORDER BY " && r[10..] == ToStr(Get(o, "order"))
  {
    if Empty(Get(o, "order")) then "" else " ORDER BY " + ToStr(Get(o, "order"))
  }

  /** `parseHaving`; an array condition converts to the text "Array". */
  function HavingClause(o: Options): (r: string)
    ensures r != "" <==> !Empty(Get(o, "having"))
    ensures r != "" ==> |r| >= 8 && r[..8] == " HAVING " && r[8..] == ToStr(Get(o, "having"))
  {
    if Empty(Get(o, "having")) then "" else " HAVING " + ToStr(Get(o, "having"))
  }

  /** `parseGroup`: a string is used as written, an array is joined with commas, and
      any other non-empty value is ignored. */
  function GroupClause(o: Options): (r: string)
    ensures r != "" <==> !Empty(Get(o, "group")) && (Get(o, "group").Str? || Get(o, "group").Arr?)
    ensures r != "" ==> |r| >= 10 && r[..10] == " GROUP BY "
    ensures r != "" && Get(o, "group").Str? ==> r[10..] == Get(o, "group").s
    ensures r != "" && Get(o, "group").Arr? ==> r[10..] == Implode(",", ValueStrings(Get(o, "group").entries))
  {
    var g := Get(o, "group");
    if Empty(g) then ""
    else if g.Str? then " GROUP BY " + g.s
    else if g.Arr? then " GROUP BY " + Implode(",", ValueStrings(g.entries))
    else ""
  }

  /** The columns of an array GROUP BY can be read back from the clause: splitting
      the text after the keyword at its commas gives the column names, as long as
      none of them holds a comma. */
  lemma GroupColumns(o: Options)
    requires Get(o, "group").Arr? && !Empty(Get(o, "group"))
    requires forall i | 0 <= i < |Get(o, "group").entries| :: ',' !in ToStr(Get(o, "group").entries[i].1)
    ensures GroupClause(o) != ""
    ensures Explode(',', GroupClause(o)[10..]) == ValueStrings(Get(o, "group").entries)
  {
    var vs := ValueStrings(Get(o, "group").entries);
    assert forall i | 0 <= i < |vs| :: ',' !in vs[i];
    ExplodeImplode(',', vs);
  }

  /** `parseWhere`: a string is used as written, an associative array becomes the
      conjunction of its `` `k` = "v" `` equalities, and anything else (a list
      included) yields no WHERE at all. */
  function WhereClause(o: Options): (r: string)
    ensures r != "" <==>
      !Empty(Get(o, "where")) && (Get(o, "where").Str? || (Get(o, "where").Arr? && IsAssoc(Get(o, "where").entries)))
    ensures r != "" ==> |r| >= 7 && r[..7] == " WHERE "
    ensures r != "" && Get(o, "where").Str? ==> r[7..] == Get(o, "where").s
    ensures r != "" && Get(o, "where").Arr? ==> r[7..] == Implode(" AND ", PairTexts(Get(o, "where").entries))
  {
    var w := Get(o, "where");
    if Empty(w) then ""
    else if w.Str? then " WHERE " + w.s
    else if w.Arr? && IsAssoc(w.entries) then " WHERE " + Implode(" AND ", PairTexts(w.entries))
    else ""
  }

  /** `parseWhere`, with its loop. */
  method ParseWhere(o: Options) returns (s: string)
    ensures s == WhereClause(o)
  {
    var w := Get(o, "where");
    if Empty(w) { return ""; }
    if w.Str? { return " WHERE " + w.s; }
    if w.Arr? && IsAssoc(w.entries) {
      var conditions := RenderPairs(w.entries, " AND ");
      return " WHERE " + conditions;
    }
    return "";
  }

  /** A one-condition array gives one back-quoted equality. */
  lemma WhereSingleCondition(o: Options, column: string, v: Value)
    requires Get(o, "where") == Arr([(StrKey(column), v)])
    requires column != "0" && !IsPreformatted(column)
    ensures WhereClause(o) == " WHERE " + (("`" + Trim(column) + "`") + " = \"" + ToStr(v) + "\"")
  {
    var a := [(StrKey(column), v)];
    assert IntToStr(0) == "0" by { IntToStrZero(0); }
    assert KeyToStr(a[0].0) != IntToStr(0);
    assert IsAssoc(a);
    var pair := PairText(StrKey(column), v);
    assert PairTexts(a) == [pair];
    assert WhereClause(o) == " WHERE " + pair;
    assert AddSpecialChar(column) == "`" + Trim(column) + "`";
  }

  // ---------------------------------------------------------------------------
  // LIMIT

  /** `parseLimit`, used by SELECT: the value is trimmed, which refuses an array. */
  function LimitClause(o: Options): (r: Result<string>)
    ensures r.Err? <==> Get(o, "limit").Arr? && Get(o, "limit").entries != []
    ensures r.Err? ==> r.error == TypeError(TrimTypeError)
    ensures r == Ok("") <==> Empty(Get(o, "limit"))
    ensures !Empty(Get(o, "limit")) && !Get(o, "limit").Arr? ==> r == Ok(" LIMIT " + Trim(ToStr(Get(o, "limit"))))
  {
    var l := Get(o, "limit");
    if Empty(l) then Ok("")
    else if l.Arr? then Err(TypeError(TrimTypeError))
    else Ok(" LIMIT " + Trim(ToStr(l)))
  }

  /** `parseLimitForUD`, used by UPDATE and DELETE: a set limit must be an integer. */
  function LimitClauseForUD(o: Options): (r: Result<string>)
    ensures r.Err? <==> !Empty(Get(o, "limit")) && !Get(o, "limit").Int?
    ensures r.Err? ==> r.error == Exception(LimitNotInteger)
  {
    var l := Get(o, "limit");
    if Empty(l) then Ok("")
    else if !l.Int? then Err(Exception(LimitNotInteger))
    else Ok(" LIMIT " + Trim(IntToStr(l.n)))
  }

  /** UPDATE and DELETE accept no limit or a non-zero integer, and render the
      integer's decimal digits exactly; every other limit is refused with the
      library's message (a string such as "2,1" included). */
  lemma LimitForUDCases(o: Options)
    ensures Empty(Get(o, "limit")) ==> LimitClauseForUD(o) == Ok("")
    ensures Get(o, "limit").Int? && Get(o, "limit").n != 0 ==>
      LimitClauseForUD(o) == Ok(" LIMIT " + IntToStr(Get(o, "limit").n))
    ensures !Empty(Get(o, "limit")) && !Get(o, "limit").Int? ==>
      LimitClauseForUD(o) == Err(Exception(LimitNotInteger))
  {
    if Get(o, "limit").Int? {
      TrimIntToStr(Get(o, "limit").n);
    }
  }

  // ---------------------------------------------------------------------------
  // Field list

  /** A list of strings, `[s0, s1, ...]`. */
  function StrList(ss: seq<string>): PhpArray {
    FromList(seq(|ss|, i requires 0 <= i < |ss| => Str(ss[i])))
  }

  /** Each string quoted by `addSpecialChar`. */
  function QuoteAll(ss: seq<string>): seq<string> {
    seq(|ss|, i requires 0 <= i < |ss| => AddSpecialChar(ss[i]))
  }

  /** Walking a list of strings quotes each of them. */
  lemma StrListQuoted(ss: seq<string>)
    ensures !IsAssoc(StrList(ss)) && !HasArrayValue(StrList(ss))
    ensures ValueStrings(WalkQuote(StrList(ss))) == QuoteAll(ss)
  {
    ListNotAssoc(seq(|ss|, i requires 0 <= i < |ss| => Str(ss[i])));
    WalkQuoteAll(StrList(ss));
  }

  /** The field list `parseField` walks: the array as given, or the string split at
      commas into a list. */
  function FieldList(f: Value): PhpArray
    requires f.Arr? || f.Str?
  {
    if f.Arr? then f.entries else StrList(Explode(',', f.s))
  }

  /** What `parseField` leaves in `$this->options['field']`: a string field is
      replaced by its exploded list, and the list is quoted in place element by
      element (up to an element that is itself an array, which stops the walk). */
  function FieldRewrite(o: Options): Options {
    var f := Get(o, "field");
    if Empty(f) || !(f.Arr? || f.Str?) then o
    else o["field" := Arr(WalkQuote(FieldList(f)))]
  }

  /** `parseField`: the whole row when no field is set; otherwise the quoted list
      before " FROM ", unless an element is an array or the option is neither a
      string nor an array. */
  function FieldClause(o: Options): (r: Result<string>)
    ensures Empty(Get(o, "field")) ==> r == Ok("* FROM ")
    ensures r.Err? <==>
      && !Empty(Get(o, "field"))
      && (!(Get(o, "field").Arr? || Get(o, "field").Str?) || HasArrayValue(FieldList(Get(o, "field"))))
    ensures r.Ok? ==> |r.value| >= 6 && r.value[|r.value| - 6..] == " FROM "
    ensures r.Ok? && !Empty(Get(o, "field")) ==>
      r.value[..|r.value| - 6] == Implode(",", ValueStrings(WalkQuote(FieldList(Get(o, "field")))))
  {
    var f := Get(o, "field");
    if Empty(f) then Ok("* FROM ")
    else if f.Arr? || f.Str? then
      if HasArrayValue(FieldList(f)) then Err(TypeError(StrposTypeError))
      else Ok(Implode(",", ValueStrings(WalkQuote(FieldList(f)))) + " FROM ")
    else Err(TypeError(ImplodeTypeError(f)))
  }

  /** A string field is split at its commas and every piece is quoted on its own. */
  lemma FieldStringQuoted(o: Options)
    requires Get(o, "field").Str? && !Empty(Get(o, "field"))
    ensures FieldClause(o) == Ok(Implode(",", QuoteAll(Explode(',', Get(o, "field").s))) + " FROM ")
  {
    StrListQuoted(Explode(',', Get(o, "field").s));
  }

  /** When every comma-separated piece is already formatted (qualified names,
      aliases, function calls, back-quoted names), the field text is used verbatim. */
  lemma FieldPreformattedVerbatim(o: Options)
    requires Get(o, "field").Str? && !Empty(Get(o, "field"))
    requires forall p | p in Explode(',', Get(o, "field").s) :: IsPreformatted(p)
    ensures FieldClause(o) == Ok(Get(o, "field").s + " FROM ")
  {
    var s := Get(o, "field").s;
    var parts := Explode(',', s);
    FieldStringQuoted(o);
    assert QuoteAll(parts) == parts by {
      forall i | 0 <= i < |parts| ensures AddSpecialChar(parts[i]) == parts[i] {
        assert parts[i] in parts;
      }
    }
    ImplodeExplode(',', s);
  }

  /** The walk keeps an array element where it stands, so a field list that makes
      `addSpecialChar` fail still does after the partial rewrite. */
  lemma {:induction false} WalkQuoteKeepsArray(a: PhpArray, i: nat)
    requires i < |a| && a[i].1.Arr?
    ensures WalkQuote(a)[i].1.Arr?
    decreases |a|
  {
    if !a[0].1.Arr? {
      assert a[1..][i - 1] == a[i];
      WalkQuoteKeepsArray(a[1..], i - 1);
    }
  }

  /** `parseField` rewrites the stored field in place, and parsing the rewritten
      store again gives the same outcome: a repeated `select` on options left
      behind by a failed one renders the same field list. */
  lemma FieldRewriteStable(o: Options)
    ensures FieldClause(FieldRewrite(o)) == FieldClause(o)
  {
    var f := Get(o, "field");
    if !Empty(f) && (f.Arr? || f.Str?) {
      var l := FieldList(f);
      var w := WalkQuote(l);
      assert Get(FieldRewrite(o), "field") == Arr(w);
      assert FieldList(Arr(w)) == w;
      if f.Str? {
        assert |l| >= 1;
      }
      assert |w| >= 1;
      WalkQuoteStable(l);
    }
  }

  /** A second walk over a walked list fails exactly when the first did and
      otherwise quotes nothing further. */
  lemma WalkQuoteStable(l: PhpArray)
    ensures HasArrayValue(WalkQuote(l)) == HasArrayValue(l)
    ensures !HasArrayValue(l) ==> ValueStrings(WalkQuote(WalkQuote(l))) == ValueStrings(WalkQuote(l))
  {
    if HasArrayValue(l) {
      var i :| 0 <= i < |l| && l[i].1.Arr?;
      WalkQuoteKeepsArray(l, i);
    } else {
      WalkQuoteIdempotent(l);
      WalkQuoteAll(l);
    }
  }

  // ---------------------------------------------------------------------------
  // Data for UPDATE

  /** `parseDataForUpdate`: accepted exactly when the first `data` argument is an
      associative array (so not empty), and then one assignment per entry. */
  function UpdateDataClause(o: Options): (r: Result<string>)
    ensures r.Ok? <==> DataPart(o, "dataOrFields").Arr? && IsAssoc(DataPart(o, "dataOrFields").entries)
    ensures r.Ok? ==> r.value == Implode(",", PairTexts(DataPart(o, "dataOrFields").entries))
    ensures Empty(DataPart(o, "dataOrFields")) ==> r == Err(Exception(MissingFirst))
    ensures !Empty(DataPart(o, "dataOrFields")) && !DataPart(o, "dataOrFields").Arr? ==>
      r == Err(Exception(NotArrayMessage("the first")))
    ensures (!Empty(DataPart(o, "dataOrFields")) && DataPart(o, "dataOrFields").Arr?
             && !IsAssoc(DataPart(o, "dataOrFields").entries)) ==>
      r == Err(Exception(NotAssocMessage("the first")))
  {
    var first := DataPart(o, "dataOrFields");
    if Empty(first) then Err(Exception(MissingFirst))
    else if !first.Arr? then Err(Exception(NotArrayMessage("the first")))
    else if !IsAssoc(first.entries) then Err(Exception(NotAssocMessage("the first")))
    else Ok(Implode(",", PairTexts(first.entries)))
  }

  /** `parseDataForUpdate`, with its loop. */
  method ParseDataForUpdate(o: Options) returns (r: Result<string>)
    ensures r == UpdateDataClause(o)
  {
    var first := DataPart(o, "dataOrFields");
    if Empty(first) { return Err(Exception(MissingFirst)); }
    var st := EnsureArray(first, "the first");
    if st.Fail? { return Err(st.error); }
    st := EnsureAssocArray(first, "the first");
    if st.Fail? { return Err(st.error); }
    var assignments := RenderPairs(first.entries, ",");
    return Ok(assignments);
  }

  // ---------------------------------------------------------------------------
  // Data for INSERT

  /** The column list of a one-row insert: the keys, quoted. */
  function QuotedKeys(a: PhpArray): seq<string> {
    seq(|a|, i requires 0 <= i < |a| => AddSpecialChar(KeyToStr(a[i].0)))
  }

  /** `parseDataForInsertSingle`. */
  function InsertSingleClause(fields: PhpArray): (r: Result<string>)
    ensures r.Ok? <==> IsAssoc(fields)
    ensures r.Err? ==> r.error == Exception(NotAssocMessage("the first"))
    ensures r.Ok? ==> |r.value| >= 2 && r.value[..2] == " ("
    ensures r.Ok? ==> r.value == " (" + Implode(",", QuotedKeys(fields)) + ") VALUES " + ValueGroup(fields)
  {
    if !IsAssoc(fields) then Err(Exception(NotAssocMessage("the first")))
    else Ok(" (" + Implode(",", QuotedKeys(fields)) + ") VALUES " + ValueGroup(fields))
  }

  /** The check each row of a multi-row insert must pass. */
  function RowCheck(row: Value): Status {
    EnsureNormalArray(row, "the element of the second")
  }

  /** The error of the first row that fails its check, if any. */
  function FirstBadRow(rows: PhpArray): Option<Error>
    decreases |rows|
  {
    if rows == [] then None
    else if RowCheck(rows[0].1).Fail? then Some(RowCheck(rows[0].1).error)
    else FirstBadRow(rows[1..])
  }

  /** The value group of a row (rows that are no arrays have none). */
  function RowText(row: Value): string {
    if row.Arr? then ValueGroup(row.entries) else ""
  }

  function RowTexts(rows: PhpArray): seq<string> {
    seq(|rows|, i requires 0 <= i < |rows| => RowText(rows[i].1))
  }

  /** The row part of `parseDataForInsertMulti`: after the column head, the value
      groups of all rows separated by commas, unless some row is refused. */
  function RowsClause(head: string, rows: PhpArray): Result<string> {
    match FirstBadRow(rows)
    case Some(e) => Err(e)
    case None => Ok(head + Implode(",", RowTexts(rows)))
  }

  /** The position of the first row that fails its check (the count when none
      does). */
  function FirstBadIndex(rows: PhpArray): (r: nat)
    ensures r <= |rows|
    decreases |rows|
  {
    if rows == [] || RowCheck(rows[0].1).Fail? then 0
    else 1 + FirstBadIndex(rows[1..])
  }

  /** The rows before that position pass and the row at it fails. */
  lemma {:induction false} FirstBadIndexSpec(rows: PhpArray)
    ensures forall j | 0 <= j < FirstBadIndex(rows) :: RowCheck(rows[j].1).Pass?
    ensures FirstBadIndex(rows) < |rows| ==> RowCheck(rows[FirstBadIndex(rows)].1).Fail?
    decreases |rows|
  {
    if rows != [] && RowCheck(rows[0].1).Pass? {
      var rest := rows[1..];
      FirstBadIndexSpec(rest);
      forall j | 0 <= j < FirstBadIndex(rows) ensures RowCheck(rows[j].1).Pass? {
        if j > 0 { assert rows[j] == rest[j - 1]; }
      }
      if FirstBadIndex(rows) < |rows| {
        assert rows[FirstBadIndex(rows)] == rest[FirstBadIndex(rest)];
      }
    }
  }

  /** The rows are accepted exactly when every row is a non-associative array, and
      a refusal reports the first row that is not. */
  lemma {:induction false} FirstBadRowSpec(rows: PhpArray)
    ensures FirstBadIndex(rows) < |rows| ==> RowCheck(rows[FirstBadIndex(rows)].1).Fail?
    ensures FirstBadRow(rows) ==
      if FirstBadIndex(rows) < |rows| then Some(RowCheck(rows[FirstBadIndex(rows)].1).error) else None
    ensures FirstBadRow(rows) == None <==> forall i | 0 <= i < |rows| :: RowCheck(rows[i].1).Pass?
    decreases |rows|
  {
    FirstBadIndexSpec(rows);
    if rows != [] && RowCheck(rows[0].1).Pass? {
      FirstBadRowSpec(rows[1..]);
      if FirstBadIndex(rows) < |rows| {
        assert rows[FirstBadIndex(rows)] == rows[1..][FirstBadIndex(rows[1..])];
      }
    }
  }

  /** The row-appending loop of `parseDataForInsertMulti`: the first row gets no
      leading comma (its key is 0, as in every non-associative array), each later
      row gets one, and the first row that is not a normal array stops the loop. */
  method RenderRows(head: string, rows: PhpArray) returns (r: Result<string>)
    requires !IsAssoc(rows)
    ensures r == RowsClause(head, rows)
  {
    var sql := head;
    for i := 0 to |rows|
      invariant FirstBadRow(rows[..i]) == None
      invariant sql == head + Implode(",", RowTexts(rows[..i]))
    {
      var (k, v) := rows[i];
      var st := EnsureNormalArray(v, "the element of the second");
      if st.Fail? {
        FirstBadRowPrefix(rows, i);
        return Err(st.error);
      }
      var group := "(\"" + Implode("\",\"", ValueStrings(v.entries)) + "\")";
      NotAssocFirstKey(rows, i);
      RowTextsSnoc(rows, i);
      ImplodeSnoc(",", RowTexts(rows[..i]), group);
      FirstBadRowPrefix(rows, i);
      if KeyToStr(k) == "0" {
        sql := sql + group;
      } else {
        sql := sql + "," + group;
      }
    }
    assert rows[..|rows|] == rows;
    return Ok(sql);
  }

  lemma RowTextsSnoc(rows: PhpArray, i: nat)
    requires i < |rows|
    ensures RowTexts(rows[..i + 1]) == RowTexts(rows[..i]) + [RowText(rows[i].1)]
  {
  }

  /** Extending a clean prefix by one row: the outcome is decided by that row. */
  lemma {:induction false} FirstBadRowPrefix(rows: PhpArray, i: nat)
    requires i < |rows| && FirstBadRow(rows[..i]) == None
    ensures FirstBadRow(rows[..i + 1]) ==
      if RowCheck(rows[i].1).Fail? then Some(RowCheck(rows[i].1).error) else None
    ensures RowCheck(rows[i].1).Fail? ==> FirstBadRow(rows) == Some(RowCheck(rows[i].1).error)
    decreases i
  {
    if i > 0 {
      assert rows[..i][1..] == rows[1..][..i - 1];
      assert rows[..i + 1][1..] == rows[1..][..i];
      FirstBadRowPrefix(rows[1..], i - 1);
    }
  }

  /** `parseDataForInsertMulti`, checks in source order: accepted exactly when the
      columns and the rows are lists, no column is an array and every row is a
      list. */
  function InsertMultiClause(columns: PhpArray, rows: Value): (r: Result<string>)
    ensures r.Ok? <==>
      && !IsAssoc(columns) && !HasArrayValue(columns)
      && rows.Arr? && !IsAssoc(rows.entries) && FirstBadRow(rows.entries) == None
    ensures r.Ok? ==> |r.value| >= 2 && r.value[..2] == " ("
  {
    if IsAssoc(columns) then Err(Exception(NotNormalMessage("the first")))
    else if !rows.Arr? then Err(Exception(NotArrayMessage("the second")))
    else if IsAssoc(rows.entries) then Err(Exception(NotNormalMessage("the second")))
    else if HasArrayValue(columns) then Err(TypeError(StrposTypeError))
    else RowsClause(" (" + Implode(",", ValueStrings(WalkQuote(columns))) + ") VALUES ", rows.entries)
  }

  /** `parseDataForInsert`: one row from an associative first argument when the
      second is empty, otherwise columns from the first and rows from the second. */
  function InsertDataClause(o: Options): (r: Result<string>)
    ensures Empty(DataPart(o, "dataOrFields")) ==> r == Err(Exception(MissingFirst))
    ensures !Empty(DataPart(o, "dataOrFields")) && !DataPart(o, "dataOrFields").Arr? ==>
      r == Err(Exception(NotArrayMessage("the first")))
    ensures r.Ok? ==>
      && DataPart(o, "dataOrFields").Arr?
      && (IsAssoc(DataPart(o, "dataOrFields").entries) <==> Empty(DataPart(o, "data")))
  {
    var first := DataPart(o, "dataOrFields");
    if Empty(first) then Err(Exception(MissingFirst))
    else if !first.Arr? then Err(Exception(NotArrayMessage("the first")))
    else if Empty(DataPart(o, "data")) then InsertSingleClause(first.entries)
    else InsertMultiClause(first.entries, DataPart(o, "data"))
  }

  /** `parseDataForInsert` with `parseDataForInsertSingle` and
      `parseDataForInsertMulti` inlined. */
  method ParseDataForInsert(o: Options) returns (r: Result<string>)
    ensures r == InsertDataClause(o)
  {
    var first := DataPart(o, "dataOrFields");
    if Empty(first) { return Err(Exception(MissingFirst)); }
    var st := EnsureArray(first, "the first");
    if st.Fail? { return Err(st.error); }
    var second := DataPart(o, "data");
    if Empty(second) {
      st := EnsureAssocArray(first, "the first");
      if st.Fail? { return Err(st.error); }
      var keys := QuotedKeys(first.entries);
      return Ok(" (" + Implode(",", keys) + ") VALUES " + ValueGroup(first.entries));
    }
    st := EnsureNormalArray(first, "the first");
    if st.Fail? { return Err(st.error); }
    st := EnsureArray(second, "the second");
    if st.Fail? { return Err(st.error); }
    st := EnsureNormalArray(second, "the second");
    if st.Fail? { return Err(st.error); }
    if HasArrayValue(first.entries) { return Err(TypeError(StrposTypeError)); }
    var columns := WalkQuote(first.entries);
    var head := " (" + Implode(",", ValueStrings(columns)) + ") VALUES ";
    r := RenderRows(head, second.entries);
  }

  /** A list of rows, each a list of values. */
  function RowList(rows: seq<seq<Value>>): PhpArray {
    FromList(seq(|rows|, i requires 0 <= i < |rows| => Arr(FromList(rows[i]))))
  }

  function ValueGroups(rows: seq<seq<Value>>): seq<string> {
    seq(|rows|, i requires 0 <= i < |rows| => ValueGroup(FromList(rows[i])))
  }

  /** Rows given as lists pass every row check and render as their value groups. */
  lemma RowListAccepted(rows: seq<seq<Value>>)
    ensures !IsAssoc(RowList(rows))
    ensures FirstBadRow(RowList(rows)) == None
    ensures RowTexts(RowList(rows)) == ValueGroups(rows)
  {
    var rs := RowList(rows);
    ListNotAssoc(seq(|rows|, i requires 0 <= i < |rows| => Arr(FromList(rows[i]))));
    forall i | 0 <= i < |rs| ensures RowCheck(rs[i].1).Pass? {
      ListNotAssoc(rows[i]);
    }
    FirstBadRowSpec(rs);
  }

  /** A multi-row insert whose columns and rows are all lists writes the quoted
      columns once and then one value group per row, in order. */
  lemma InsertMultiRows(columns: seq<string>, rows: seq<seq<Value>>)
    ensures InsertMultiClause(StrList(columns), Arr(RowList(rows))) ==
      Ok(" (" + Implode(",", QuoteAll(columns)) + ") VALUES " + Implode(",", ValueGroups(rows)))
  {
    StrListQuoted(columns);
    RowListAccepted(rows);
  }
}
