/** `ChainPDOFactory`: turns one connection description, or a list of them, into
    configured `ChainPdo` handles kept under their index, and hands out one factory
    per process.  Opening the PDO connection itself is not modelled: a handle is the
    `ChainPdo` object with the settings it was given. */
module Factory {
  import opened Outcomes
  import opened Php
  import opened Clauses
  import Chain

  const DbNameMissing: string := "DB_NAME not configured."

  /** The settings every description starts from, in their order. */
  const DefaultConfig: PhpArray := [
    (StrKey("DB_TYPE"), Str("mysql")),
    (StrKey("DB_CHAR"), Str("utf8")),
    (StrKey("DB_PORT"), Str("3306")),
    (StrKey("DB_HOST"), Str("")),
    (StrKey("DB_NAME"), Str("")),
    (StrKey("DB_USERNAME"), Str("")),
    (StrKey("DB_PASSWORD"), Str("")),
    (StrKey("DB_OPTIONS"), Arr([]))
  ]

  lemma DefaultKeysUnique()
    ensures UniqueKeys(DefaultConfig)
    ensures forall i | 0 <= i < |DefaultConfig| :: DefaultConfig[i].0.StrKey?
  {
  }

  /** The data source name built from a merged configuration. */
  function Dsn(c: Value): string {
    ToStr(Index(c, StrKey("DB_TYPE"))) + ":host=" + ToStr(Index(c, StrKey("DB_HOST")))
      + ";port=" + ToStr(Index(c, StrKey("DB_PORT"))) + ";dbname=" + ToStr(Index(c, StrKey("DB_NAME")))
  }

  /** `configure`: a description without a usable DB_NAME is refused; otherwise the
      defaults are merged under it and DB_DSN is added.  The defaults have
      distinct string keys only, so `array_merge` starts from them as they are
      (`ConfigureMerges`). */
  function Configure(v: Value): (r: Result<PhpArray>)
    ensures r.Err? <==> Empty(Index(v, StrKey("DB_NAME")))
    ensures r.Err? ==> r.error == Exception(DbNameMissing)
  {
    if Empty(Index(v, StrKey("DB_NAME"))) then Err(Exception(DbNameMissing))
    else
      var merged := MergeInto(DefaultConfig, v.entries);
      Ok(Assign(merged, StrKey("DB_DSN"), Str(Dsn(Arr(merged)))))
  }

  /** The accepted description is `array_merge(defaults, description)` with DB_DSN
      set. */
  lemma ConfigureMerges(v: Value)
    requires Configure(v).Ok?
    ensures var merged := ArrayMerge(DefaultConfig, v.entries);
      Configure(v).value == Assign(merged, StrKey("DB_DSN"), Str(Dsn(Arr(merged))))
  {
    var m := MergeInto(DefaultConfig, v.entries);
    assert Configure(v).value == Assign(m, StrKey("DB_DSN"), Str(Dsn(Arr(m))));
    DefaultsMerge(v.entries);
  }

  /** `array_merge` keeps the defaults in place, since all their keys are strings. */
  lemma DefaultsMerge(b: PhpArray)
    ensures ArrayMerge(DefaultConfig, b) == MergeInto(DefaultConfig, b)
  {
    DefaultKeysUnique();
    ArrayMergeStrKeys(DefaultConfig, b);
  }

  /** The value a setting has after the merge: the caller's when given, the
      default's otherwise. */
  function Setting(v: Value, name: string): Value {
    if v.Arr? && Lookup(v.entries, StrKey(name)).Some? then Lookup(v.entries, StrKey(name)).value
    else Index(Arr(DefaultConfig), StrKey(name))
  }

  /** Every setting but DB_DSN comes from the caller when given and from the
      defaults otherwise. */
  lemma ConfigureSettings(v: Value, name: string)
    requires v.Arr? && UniqueKeys(v.entries) && Configure(v).Ok?
    requires name != "DB_DSN"
    ensures Index(Arr(Configure(v).value), StrKey(name)) == Setting(v, name)
  {
    var merged := MergeInto(DefaultConfig, v.entries);
    MergeIntoLookup(DefaultConfig, v.entries, StrKey(name));
    AssignLookup(merged, StrKey("DB_DSN"), Str(Dsn(Arr(merged))), StrKey(name));
  }

  /** DB_DSN is always rebuilt from the merged type, host, port and name, even when
      the caller gave one. */
  lemma ConfigureDsn(v: Value)
    requires v.Arr? && UniqueKeys(v.entries) && Configure(v).Ok?
    ensures Index(Arr(Configure(v).value), StrKey("DB_DSN")) ==
      Str(ToStr(Setting(v, "DB_TYPE")) + ":host=" + ToStr(Setting(v, "DB_HOST"))
        + ";port=" + ToStr(Setting(v, "DB_PORT")) + ";dbname=" + ToStr(Setting(v, "DB_NAME")))
  {
    var merged := MergeInto(DefaultConfig, v.entries);
    AssignLookup(merged, StrKey("DB_DSN"), Str(Dsn(Arr(merged))), StrKey("DB_DSN"));
    MergeIntoLookup(DefaultConfig, v.entries, StrKey("DB_TYPE"));
    MergeIntoLookup(DefaultConfig, v.entries, StrKey("DB_HOST"));
    MergeIntoLookup(DefaultConfig, v.entries, StrKey("DB_PORT"));
    MergeIntoLookup(DefaultConfig, v.entries, StrKey("DB_NAME"));
  }

  /** The default type and port. */
  lemma DefaultTypeAndPort()
    ensures Index(Arr(DefaultConfig), StrKey("DB_TYPE")) == Str("mysql")
    ensures Index(Arr(DefaultConfig), StrKey("DB_PORT")) == Str("3306")
  {
    DefaultKeysUnique();
    LookupAt(DefaultConfig, 0);
    LookupAt(DefaultConfig, 2);
  }

  /** A description that names only host, database and credentials connects to
      MySQL on port 3306. */
  lemma ConfigureTypicalDsn(v: Value, host: string, name: string)
    requires v.Arr? && UniqueKeys(v.entries)
    requires Lookup(v.entries, StrKey("DB_HOST")) == Some(Str(host))
    requires Lookup(v.entries, StrKey("DB_NAME")) == Some(Str(name)) && name != "" && name != "0"
    requires Lookup(v.entries, StrKey("DB_TYPE")) == None && Lookup(v.entries, StrKey("DB_PORT")) == None
    ensures Configure(v).Ok?
    ensures Index(Arr(Configure(v).value), StrKey("DB_DSN")) ==
      Str("mysql" + ":host=" + host + ";port=" + "3306" + ";dbname=" + name)
  {
    ConfigureDsn(v);
    DefaultTypeAndPort();
  }

  // ---------------------------------------------------------------------------
  // Handles

  /** What `connect` hands to the `ChainPdo` constructor as its settings: the
      configured description of that index. */
  function ConnectedConfig(dbIndex: Key, config: PhpArray): (c: Value)
    ensures c.Arr? && c.entries == config
  {
    Arr(config)
  }

  /** The settings argument of `new ChainPDO($dbIndex, $this->dbsConfig[$dbIndex])`
      as the one-parameter constructor receives it: the index, with the extra
      argument dropped. */
  function ConnectedConfigAsWritten(dbIndex: Key, config: PhpArray): (c: Value)
    ensures !c.Arr? && ToStr(c) == KeyToStr(dbIndex)
  {
    match dbIndex
    case IntKey(n) => Int(n)
    case StrKey(s) => Str(s)
  }

  /** With the settings passed as written, the handle sees neither a DB_NAME nor a
      DB_DSN, so `getConfig()['DB_NAME']` differs from the configured name and the
      connection is attempted with an empty data source name. */
  lemma ConnectAsWrittenLosesConfig(dbIndex: Key, v: Value)
    requires v.Arr? && UniqueKeys(v.entries) && Configure(v).Ok?
    ensures Index(ConnectedConfigAsWritten(dbIndex, Configure(v).value), StrKey("DB_DSN")) == Null
    ensures Index(ConnectedConfigAsWritten(dbIndex, Configure(v).value), StrKey("DB_NAME"))
      != Index(v, StrKey("DB_NAME"))
  {
  }

  /** With the configured description passed, the handle's DB_NAME is the one the
      caller gave. */
  lemma ConnectKeepsDbName(dbIndex: Key, v: Value)
    requires v.Arr? && UniqueKeys(v.entries) && Configure(v).Ok?
    ensures Index(ConnectedConfig(dbIndex, Configure(v).value), StrKey("DB_NAME")) == Index(v, StrKey("DB_NAME"))
  {
    ConfigureSettings(v, "DB_NAME");
  }

  /** Handles and configurations stand at the same positions under the same keys,
      and each handle holds its configuration. */
  predicate Paired(configs: Table<PhpArray>, handles: Table<Chain.ChainPdo>) {
    && |configs| == |handles|
    && forall i | 0 <= i < |configs| ::
         handles[i].0 == configs[i].0 && handles[i].1.config == Arr(configs[i].1)
  }

  lemma {:induction false} AssignPaired(configs: Table<PhpArray>, handles: Table<Chain.ChainPdo>,
                                        k: Key, c: PhpArray, h: Chain.ChainPdo)
    requires Paired(configs, handles) && h.config == Arr(c)
    ensures Paired(Assign(configs, k, c), Assign(handles, k, h))
    decreases |configs|
  {
    if configs != [] && configs[0].0 != k {
      assert Paired(configs[1..], handles[1..]) by {
        forall i | 0 <= i < |configs[1..]|
          ensures handles[1..][i].0 == configs[1..][i].0 && handles[1..][i].1.config == Arr(configs[1..][i].1)
        {
          assert configs[1..][i] == configs[i + 1] && handles[1..][i] == handles[i + 1];
        }
      }
      AssignPaired(configs[1..], handles[1..], k, c, h);
      var a, b := Assign(configs, k, c), Assign(handles, k, h);
      forall i | 0 <= i < |a| ensures b[i].0 == a[i].0 && b[i].1.config == Arr(a[i].1) {
        if i > 0 {
          assert a[i] == Assign(configs[1..], k, c)[i - 1];
          assert b[i] == Assign(handles[1..], k, h)[i - 1];
        }
      }
    } else if configs != [] {
      var a, b := Assign(configs, k, c), Assign(handles, k, h);
      forall i | 0 <= i < |a| ensures b[i].0 == a[i].0 && b[i].1.config == Arr(a[i].1) {
        if i > 0 {
          assert a[i] == configs[i] && b[i] == handles[i];
        }
      }
    }
  }

  /** Looking up an index finds a handle exactly when it finds a configuration, and
      that handle holds that configuration. */
  lemma {:induction false} PairedLookup(configs: Table<PhpArray>, handles: Table<Chain.ChainPdo>, k: Key)
    requires Paired(configs, handles)
    ensures Lookup(handles, k).Some? <==> Lookup(configs, k).Some?
    ensures Lookup(handles, k).Some? ==> Lookup(handles, k).value.config == Arr(Lookup(configs, k).value)
    decreases |configs|
  {
    if configs != [] && configs[0].0 != k {
      assert Paired(configs[1..], handles[1..]) by {
        forall i | 0 <= i < |configs[1..]|
          ensures handles[1..][i].0 == configs[1..][i].0 && handles[1..][i].1.config == Arr(configs[1..][i].1)
        {
          assert configs[1..][i] == configs[i + 1] && handles[1..][i] == handles[i + 1];
        }
      }
      PairedLookup(configs[1..], handles[1..], k);
    }
  }

  // ---------------------------------------------------------------------------
  // connector and adapter on the configurations

  /** `connector` on the configurations: the configured description is stored
      under its index, or the refusal of `configure` is raised with nothing stored. */
  function ConnectConfig(configure: Value -> Result<PhpArray>, configs: Table<PhpArray>, dbIndex: Key, dbConfig: Value): (r: (Table<PhpArray>, Status))
    ensures r.1.Pass? <==> configure(dbConfig).Ok?
    ensures r.1.Pass? ==> Lookup(r.0, dbIndex) == Some(configure(dbConfig).value)
    ensures r.1.Fail? ==> r.0 == configs && r.1.error == configure(dbConfig).error
  {
    match configure(dbConfig)
    case Err(e) => (configs, Fail(e))
    case Ok(c) =>
      AssignLookup(configs, dbIndex, c, dbIndex);
      (Assign(configs, dbIndex, c), Pass)
  }

  /** The `foreach` of `adapter`: each description in turn, stopping at the first
      refusal with the earlier ones stored. */
  function ConfigureEach(configure: Value -> Result<PhpArray>, configs: Table<PhpArray>, entries: PhpArray): (Table<PhpArray>, Status)
    decreases |entries|
  {
    if entries == [] then (configs, Pass)
    else
      var (c, s) := ConnectConfig(configure, configs, entries[0].0, entries[0].1);
      if s.Fail? then (c, s) else ConfigureEach(configure, c, entries[1..])
  }

  /** `adapter`: a single (associative) description goes to index 0; a list is
      taken entry by entry under its own keys; a non-array makes `array_keys`
      throw. */
  function AdapterResult(configs: Table<PhpArray>, dbsConfig: Value): (Table<PhpArray>, Status) {
    match IsAssocValue(dbsConfig)
    case Err(e) => (configs, Fail(e))
    case Ok(assoc) =>
      if assoc then ConnectConfig(Configure, configs, IntKey(0), dbsConfig)
      else ConfigureEach(Configure, configs, dbsConfig.entries)
  }

  /** The loop succeeds exactly when every description is accepted. */
  lemma {:induction false} ConfigureEachPass(configure: Value -> Result<PhpArray>, configs: Table<PhpArray>, entries: PhpArray)
    ensures ConfigureEach(configure, configs, entries).1.Pass? <==>
      forall i | 0 <= i < |entries| :: configure(entries[i].1).Ok?
    decreases |entries|
  {
    if entries != [] {
      var (c, s) := ConnectConfig(configure, configs, entries[0].0, entries[0].1);
      if s.Pass? {
        ConfigureEachPass(configure, c, entries[1..]);
        assert (forall i | 0 <= i < |entries| :: configure(entries[i].1).Ok?) <==>
          (forall i | 0 <= i < |entries[1..]| :: configure(entries[1..][i].1).Ok?)
        by {
          forall i | 0 <= i < |entries[1..]| ensures entries[1..][i] == entries[i + 1] { }
          if forall i | 0 <= i < |entries[1..]| :: configure(entries[1..][i].1).Ok? {
            forall i | 0 <= i < |entries| ensures configure(entries[i].1).Ok? {
              if i > 0 { assert entries[i] == entries[1..][i - 1]; }
            }
          }
        }
      }
    }
  }

  /** The position of the first refused description (the length when none is). */
  function FirstRefused(configure: Value -> Result<PhpArray>, entries: PhpArray): (r: nat)
    ensures r <= |entries|
    decreases |entries|
  {
    if entries == [] || configure(entries[0].1).Err? then 0
    else 1 + FirstRefused(configure, entries[1..])
  }

  /** Every description before the first refused one is accepted, and the one at
      that position, if any, is refused. */
  lemma {:induction false} FirstRefusedSpec(configure: Value -> Result<PhpArray>, entries: PhpArray)
    ensures forall j | 0 <= j < FirstRefused(configure, entries) :: configure(entries[j].1).Ok?
    ensures FirstRefused(configure, entries) < |entries| ==> configure(entries[FirstRefused(configure, entries)].1).Err?
    decreases |entries|
  {
    if entries != [] && configure(entries[0].1).Ok? {
      var rest := entries[1..];
      FirstRefusedSpec(configure, rest);
      forall j | 0 < j < FirstRefused(configure, entries) ensures configure(entries[j].1).Ok? {
        assert entries[j] == rest[j - 1];
      }
      if FirstRefused(configure, entries) < |entries| {
        assert entries[FirstRefused(configure, entries)] == rest[FirstRefused(configure, rest)];
      }
    }
  }

  /** A refusal reports the first refused description. */
  lemma {:induction false} ConfigureEachFirstRefusal(configure: Value -> Result<PhpArray>, configs: Table<PhpArray>, entries: PhpArray)
    requires ConfigureEach(configure, configs, entries).1.Fail?
    ensures FirstRefused(configure, entries) < |entries|
    ensures configure(entries[FirstRefused(configure, entries)].1).Err?
    ensures ConfigureEach(configure, configs, entries).1.error == configure(entries[FirstRefused(configure, entries)].1).error
    decreases |entries|
  {
    FirstRefusedSpec(configure, entries);
    var (c, s) := ConnectConfig(configure, configs, entries[0].0, entries[0].1);
    if s.Pass? {
      var rest := entries[1..];
      ConfigureEachFirstRefusal(configure, c, rest);
      assert entries[FirstRefused(configure, entries)] == rest[FirstRefused(configure, rest)];
    }
  }

  /** A list of accepted descriptions under fresh, distinct keys is stored in order
      after what was there. */
  lemma {:induction false} ConfigureEachAppends(configure: Value -> Result<PhpArray>, configs: Table<PhpArray>, entries: PhpArray)
    requires UniqueKeys(entries)
    requires forall i | 0 <= i < |entries| :: configure(entries[i].1).Ok? && Lookup(configs, entries[i].0) == None
    ensures ConfigureEach(configure, configs, entries).1.Pass?
    ensures ConfigureEach(configure, configs, entries).0 ==
      configs + seq(|entries|, i requires 0 <= i < |entries| => (entries[i].0, configure(entries[i].1).value))
    decreases |entries|
  {
    if entries != [] {
      var c := configure(entries[0].1).value;
      AssignFresh(configs, entries[0].0, c);
      var next := configs + [(entries[0].0, c)];
      var rest := entries[1..];
      forall i | 0 <= i < |rest|
        ensures configure(rest[i].1).Ok? && Lookup(next, rest[i].0) == None
      {
        assert rest[i] == entries[i + 1];
        LookupAppend(configs, (entries[0].0, c), rest[i].0);
      }
      UniqueKeysTail(entries);
      ConfigureEachAppends(configure, next, rest);
      var tail := seq(|rest|, i requires 0 <= i < |rest| => (rest[i].0, configure(rest[i].1).value));
      var all := seq(|entries|, i requires 0 <= i < |entries| => (entries[i].0, configure(entries[i].1).value));
      forall i | 0 <= i < |all| ensures all[i] == ([(entries[0].0, c)] + tail)[i] {
        if i > 0 { assert rest[i - 1] == entries[i]; }
      }
      assert all == [(entries[0].0, c)] + tail;
    }
  }

  /** A list of N accepted descriptions yields N configurations under the keys 0 to
      N - 1, in order (the list form of the tests: `count(getDbs())` is the number
      of descriptions). */
  lemma ListAdapter(vs: seq<Value>)
    requires forall i | 0 <= i < |vs| :: Configure(vs[i]).Ok?
    ensures AdapterResult([], Arr(FromList(vs))).1 == Pass
    ensures AdapterResult([], Arr(FromList(vs))).0 ==
      seq(|vs|, i requires 0 <= i < |vs| => (IntKey(i), Configure(vs[i]).value))
  {
    var e := FromList(vs);
    var none: Table<PhpArray> := [];
    ListNotAssoc(vs);
    forall i | 0 <= i < |e| ensures Configure(e[i].1).Ok? && Lookup(none, e[i].0) == None { }
    ConfigureEachAppends(Configure, none, e);
    var got := seq(|e|, i requires 0 <= i < |e| => (e[i].0, Configure(e[i].1).value));
    assert [] + got == got;
  }

  /** A single description is stored under index 0. */
  lemma SingleAdapter(v: Value)
    requires v.Arr? && IsAssoc(v.entries) && Configure(v).Ok?
    ensures AdapterResult([], v) == ([(IntKey(0), Configure(v).value)], Pass)
  {
  }

  /** A non-array is refused by `array_keys` before anything is stored. */
  lemma AdapterNonArray(configs: Table<PhpArray>, v: Value)
    requires !v.Arr?
    ensures AdapterResult(configs, v) == (configs, Fail(TypeError(ArrayKeysTypeError(v))))
  {
  }

  // ---------------------------------------------------------------------------
  // The factory object

  function NotFoundMessage(dbIndex: Key): string {
    "Database[" + KeyToStr(dbIndex) + "] not found."
  }

  const TooFewArguments: string :=
    "Too few arguments to function ChainPDOFactory::getDb(), 0 passed and exactly 1 expected"

  /** The indexes `adapter` may connect under: 0 for a single description, the
      list's own keys for a list of them, none for a non-array. */
  function AdapterIndexes(dbsConfig: Value): (r: set<Key>)
    ensures dbsConfig.Arr? && IsAssoc(dbsConfig.entries) ==> r == {IntKey(0)}
    ensures !dbsConfig.Arr? ==> r == {}
    ensures dbsConfig.Arr? && !IsAssoc(dbsConfig.entries) ==>
      forall k :: k in r <==> Lookup(dbsConfig.entries, k).Some?
  {
    if !dbsConfig.Arr? then {}
    else if IsAssoc(dbsConfig.entries) then {IntKey(0)}
    else
      var e := dbsConfig.entries;
      var r := set i | 0 <= i < |e| :: e[i].0;
      forall k ensures k in r <==> Lookup(e, k).Some? {
        LookupNone(e, k);
      }
      r
  }

  class ChainPdoFactory {
    /** The configured descriptions, by index. */
    var dbsConfig: Table<PhpArray>
    /** The handles, by index. */
    var dbs: Table<Chain.ChainPdo>

    predicate Valid()
      reads this
    {
      Paired(dbsConfig, dbs)
    }

    constructor ()
      ensures dbsConfig == [] && dbs == [] && Valid()
    {
      dbsConfig := [];
      dbs := [];
    }

    /** `connector`: configure, store the description, then open a handle on it
        under the same index. */
    method Connector(dbIndex: Key, dbConfig: Value) returns (s: Status)
      requires Valid()
      modifies this
      ensures Valid()
      ensures (dbsConfig, s) == ConnectConfig(Configure, old(dbsConfig), dbIndex, dbConfig)
      ensures s.Fail? ==> dbs == old(dbs)
      ensures forall k | k != dbIndex :: Lookup(dbs, k) == Lookup(old(dbs), k)
      ensures s.Pass? ==> Lookup(dbs, dbIndex).Some? && fresh(Lookup(dbs, dbIndex).value)
      ensures s.Pass? ==> Lookup(dbs, dbIndex).value.options == map[] && !Lookup(dbs, dbIndex).value.hasStatement
    {
      var r := Configure(dbConfig);
      if r.Err? {
        return Fail(r.error);
      }
      var handle := new Chain.ChainPdo(ConnectedConfig(dbIndex, r.value));
      AssignPaired(dbsConfig, dbs, dbIndex, r.value, handle);
      ghost var before := dbs;
      dbsConfig := Assign(dbsConfig, dbIndex, r.value);
      dbs := Assign(dbs, dbIndex, handle);
      forall k ensures Lookup(dbs, k) == if k == dbIndex then Some(handle) else Lookup(before, k) {
        AssignLookup(before, dbIndex, handle, k);
      }
      s := Pass;
    }

    /** `adapter`. */
    method Adapter(dbsConfig': Value) returns (s: Status)
      requires Valid()
      modifies this
      ensures Valid()
      ensures (dbsConfig, s) == AdapterResult(old(dbsConfig), dbsConfig')
      ensures forall k | Lookup(dbs, k) != Lookup(old(dbs), k) ::
        && k in AdapterIndexes(dbsConfig')
        && Lookup(dbs, k).Some? && fresh(Lookup(dbs, k).value)
        && Lookup(dbs, k).value.options == map[] && !Lookup(dbs, k).value.hasStatement
    {
      var assoc := IsAssocValue(dbsConfig');
      if assoc.Err? {
        return Fail(assoc.error);
      }
      if assoc.value {
        s := Connector(IntKey(0), dbsConfig');
        forall k | Lookup(dbs, k) != Lookup(old(dbs), k) ensures k == IntKey(0) {
        }
        return;
      }
      s := ConnectEach(dbsConfig'.entries);
    }

    /** The `foreach` of `adapter`: connect each description under its own key,
        stopping at the first refusal. */
    method ConnectEach(entries: PhpArray) returns (s: Status)
      requires Valid()
      modifies this
      ensures Valid()
      ensures (dbsConfig, s) == ConfigureEach(Configure, old(dbsConfig), entries)
      ensures forall k | Lookup(dbs, k) != Lookup(old(dbs), k) ::
        && Lookup(entries, k).Some?
        && Lookup(dbs, k).Some? && fresh(Lookup(dbs, k).value)
        && Lookup(dbs, k).value.options == map[] && !Lookup(dbs, k).value.hasStatement
    {
      ghost var made: set<Chain.ChainPdo> := {};
      for i := 0 to |entries|
        invariant Valid()
        invariant ConfigureEach(Configure, dbsConfig, entries[i..]) == ConfigureEach(Configure, old(dbsConfig), entries)
        invariant forall h | h in made :: fresh(h) && h.options == map[] && !h.hasStatement
        invariant forall k | Lookup(dbs, k) != Lookup(old(dbs), k) ::
          Lookup(entries, k).Some? && Lookup(dbs, k).Some? && Lookup(dbs, k).value in made
      {
        assert entries[i..][1..] == entries[i + 1..];
        LookupNone(entries, entries[i].0);
        ghost var before := dbs;
        s := Connector(entries[i].0, entries[i].1);
        if s.Fail? {
          return;
        }
        made := made + {Lookup(dbs, entries[i].0).value};
        forall k | Lookup(dbs, k) != Lookup(old(dbs), k) && k != entries[i].0
          ensures Lookup(dbs, k) == Lookup(before, k)
        {
        }
      }
      s := Pass;
    }

    /** `getDb`: the handle stored under the index, or an exception naming it. */
    function GetDb(dbIndex: Key): (r: Result<Chain.ChainPdo>)
      reads this
      requires Valid()
      ensures r.Ok? <==> Lookup(dbsConfig, dbIndex).Some?
      ensures r.Ok? ==> r.value.config == Arr(Lookup(dbsConfig, dbIndex).value)
      ensures r.Err? ==> r.error == Exception(NotFoundMessage(dbIndex))
    {
      PairedLookup(dbsConfig, dbs, dbIndex);
      match Lookup(dbs, dbIndex)
      case Some(h) => Ok(h)
      case None => Err(Exception(NotFoundMessage(dbIndex)))
    }

    /** `getDb()` / `getDb($i)` as the method is declared: a call without an index
        is refused by PHP before the body runs. */
    function GetDbAsWritten(dbIndex: Option<Key>): (r: Result<Chain.ChainPdo>)
      reads this
      requires Valid()
      ensures dbIndex.None? ==> r == Err(TypeError(TooFewArguments))
      ensures dbIndex.Some? ==> r == GetDb(dbIndex.value)
    {
      match dbIndex
      case None => Err(TypeError(TooFewArguments))
      case Some(k) => GetDb(k)
    }

    /** `getDb()` / `getDb($i)` with the index defaulting to 0, as the callers use
        it. */
    function GetDbOrFirst(dbIndex: Option<Key>): (r: Result<Chain.ChainPdo>)
      reads this
      requires Valid()
      ensures r == GetDb(if dbIndex.Some? then dbIndex.value else IntKey(0))
    {
      GetDb(if dbIndex.Some? then dbIndex.value else IntKey(0))
    }

    /** `getDbs`: every handle, one per configured description. */
    function GetDbs(): (r: Table<Chain.ChainPdo>)
      reads this
      requires Valid()
      ensures Paired(dbsConfig, r) && |r| == |dbsConfig|
    {
      dbs
    }
  }

  /** Without an index the declared `getDb` is refused even when index 0 holds a
      handle, while the defaulted form returns that handle. */
  lemma GetDbWithoutIndex(f: ChainPdoFactory)
    requires f.Valid() && Lookup(f.dbsConfig, IntKey(0)).Some?
    ensures f.GetDbAsWritten(None).Err?
    ensures f.GetDbOrFirst(None).Ok?
    ensures f.GetDbOrFirst(None).value.config == Arr(Lookup(f.dbsConfig, IntKey(0)).value)
  {
  }

  /** The single factory of the process (`self::$instance`). */
  class Registry {
    var instance: ChainPdoFactory?

    constructor ()
      ensures instance == null
    {
      instance := null;
    }

    /** `build`: the first call makes the factory from its descriptions; every later
        call returns that factory and ignores its argument.  A refused description
        leaves no factory behind. */
    method Build(dbsConfig: Value) returns (r: Result<ChainPdoFactory>)
      requires instance != null ==> instance.Valid()
      modifies this
      ensures old(instance) != null ==> instance == old(instance) && r == Ok(instance)
      ensures old(instance) == null ==> (r.Ok? <==> AdapterResult([], dbsConfig).1.Pass?)
      ensures old(instance) == null && r.Ok? ==>
        && instance == r.value && fresh(r.value) && r.value.Valid()
        && r.value.dbsConfig == AdapterResult([], dbsConfig).0
      ensures old(instance) == null && r.Ok? ==>
        forall k | Lookup(r.value.dbs, k).Some? ::
          fresh(Lookup(r.value.dbs, k).value) && Lookup(r.value.dbs, k).value.options == map[]
      ensures old(instance) == null && r.Err? ==>
        instance == null && r.error == AdapterResult([], dbsConfig).1.error
    {
      if instance != null {
        return Ok(instance);
      }
      var f := new ChainPdoFactory();
      var s := f.Adapter(dbsConfig);
      if s.Fail? {
        return Err(s.error);
      }
      instance := f;
      r := Ok(f);
    }
  }
}
