/** The small part of PHP's value model that the statement builders rely on:
    scalar and array values, `empty()`, string conversion, `trim`, `strtoupper`,
    `strpos`, `explode`/`implode`, associativity of arrays and `array_merge`.
    PHP arrays are ordered, so an array is a sequence of key/value entries. */
module Php {
  import opened Outcomes

  /** An array key.  PHP stores decimal-integer string keys as integers; the model
      takes keys as they are given. */
  datatype Key = IntKey(n: int) | StrKey(s: string)

  /** Floats and objects are not part of the model. */
  datatype Value =
    | Str(s: string)
    | Int(n: int)
    | Bool(b: bool)
    | Null
    | Arr(entries: seq<(Key, Value)>)

  /** An ordered PHP array with values of type T. */
  type Table<T> = seq<(Key, T)>

  type PhpArray = Table<Value>

  /** PHP's `empty()`; a key that is not set reads as `Null`. */
  predicate Empty(v: Value) {
    match v
    case Str(s) => s == "" || s == "0"
    case Int(n) => n == 0
    case Bool(b) => !b
    case Null => true
    case Arr(e) => e == []
  }

  // ---------------------------------------------------------------------------
  // Integer and value to string conversion

  function Digit(d: nat): char
    requires d < 10
  {
    "0123456789"[d]
  }

  predicate IsDigit(c: char) { '0' <= c <= '9' }

  /** Decimal notation of a natural number, most significant digit first. */
  function NatToStr(n: nat): (s: string)
    ensures |s| >= 1 && IsDigit(s[0])
    ensures n >= 10 ==> |s| >= 2
    ensures forall k | 0 <= k < |s| :: IsDigit(s[k])
    decreases n
  {
    if n < 10 then [Digit(n)] else NatToStr(n / 10) + [Digit(n % 10)]
  }

  /** PHP's conversion of an integer to a string. */
  function IntToStr(i: int): string {
    if i < 0 then "-" + NatToStr(-i) else NatToStr(i)
  }

  /** The only integer that converts to "0" is 0. */
  lemma IntToStrZero(i: int)
    ensures IntToStr(i) == "0" <==> i == 0
  {
    if 0 < i < 10 {
      assert IntToStr(i) == [Digit(i)];
      assert Digit(i) != '0';
    }
  }

  function KeyToStr(k: Key): string {
    match k
    case IntKey(n) => IntToStr(n)
    case StrKey(s) => s
  }

  /** PHP's string conversion as done by `.` and `implode`; an array converts to
      "Array" (with a notice). */
  function ToStr(v: Value): string {
    match v
    case Str(s) => s
    case Int(n) => IntToStr(n)
    case Bool(b) => if b then "1" else ""
    case Null => ""
    case Arr(_) => "Array"
  }

  // ---------------------------------------------------------------------------
  // trim, strtoupper, strpos

  /** The characters `trim` removes by default: space, tab, line feed, carriage
      return, NUL and vertical tab. */
  predicate IsTrimChar(c: char) {
    c == ' ' || c == '\t' || c == '\n' || c == '\r' || c == '\0' || c == '\U{000B}'
  }

  function TrimStart(s: string): (r: string)
    ensures |r| <= |s| && r == s[|s| - |r|..]
    ensures forall k | 0 <= k < |s| - |r| :: IsTrimChar(s[k])
    ensures r == [] || !IsTrimChar(r[0])
    decreases |s|
  {
    if |s| > 0 && IsTrimChar(s[0]) then TrimStart(s[1..]) else s
  }

  function TrimEnd(s: string): (r: string)
    ensures |r| <= |s| && r == s[..|r|]
    ensures forall k | |r| <= k < |s| :: IsTrimChar(s[k])
    ensures r == [] || !IsTrimChar(r[|r| - 1])
    decreases |s|
  {
    if |s| > 0 && IsTrimChar(s[|s| - 1]) then TrimEnd(s[..|s| - 1]) else s
  }

  /** PHP's `trim` with its default character set: the result is a slice of the
      input with only trim characters cut off on either side, and it neither starts
      nor ends with one. */
  function Trim(s: string): (r: string)
    ensures r == [] || (!IsTrimChar(r[0]) && !IsTrimChar(r[|r| - 1]))
    ensures exists i | 0 <= i <= |s| - |r| :: TrimmedAt(s, r, i)
  {
    var t := TrimStart(s);
    TrimSlice(s, t, TrimEnd(t));
    TrimEnd(t)
  }

  /** Cutting trim characters off the front and then off the back leaves a slice.
      (Stated on plain sequences so that no trim function is unfolded.) */
  lemma TrimSlice(s: string, t: string, r: string)
    requires |t| <= |s| && t == s[|s| - |t|..] && forall k | 0 <= k < |s| - |t| :: IsTrimChar(s[k])
    requires |r| <= |t| && r == t[..|r|] && forall k | |r| <= k < |t| :: IsTrimChar(t[k])
    ensures TrimmedAt(s, r, |s| - |t|)
  {
    var i := |s| - |t|;
    assert r == s[i..i + |r|];
    forall k | i + |r| <= k < |s| ensures IsTrimChar(s[k]) {
      assert s[k] == t[k - i];
    }
  }

  /** `r` is `s` with `i` trim characters cut off in front and only trim characters
      cut off behind. */
  predicate TrimmedAt(s: string, r: string, i: int) {
    && 0 <= i <= |s| - |r|
    && r == s[i..i + |r|]
    && (forall k | 0 <= k < i :: IsTrimChar(s[k]))
    && (forall k | i + |r| <= k < |s| :: IsTrimChar(s[k]))
  }

  /** A string that neither starts nor ends with a trim character is its own trim. */
  lemma TrimNoOp(s: string)
    requires s == [] || (!IsTrimChar(s[0]) && !IsTrimChar(s[|s| - 1]))
    ensures Trim(s) == s
  {
  }

  lemma TrimIdempotent(s: string)
    ensures Trim(Trim(s)) == Trim(s)
  {
    TrimNoOp(Trim(s));
  }

  /** Trimming a text that starts with a word (a prefix with no trim character at
      either end) keeps that word at the front. */
  lemma TrimKeepsPrefix(p: string, rest: string)
    requires p != [] && !IsTrimChar(p[0]) && !IsTrimChar(p[|p| - 1])
    ensures p <= Trim(p + rest)
  {
    var s := p + rest;
    var t := TrimStart(s);
    assert !IsTrimChar(s[0]);
    assert t == s;
    var r := TrimEnd(t);
    assert !IsTrimChar(s[|p| - 1]);
    assert |r| >= |p|;
    assert r[..|p|] == p;
  }

  /** Decimal notation never carries surrounding whitespace. */
  lemma TrimIntToStr(i: int)
    ensures Trim(IntToStr(i)) == IntToStr(i)
  {
    var s := IntToStr(i);
    assert IsDigit(s[|s| - 1]);
    assert s[0] == '-' || IsDigit(s[0]);
    TrimNoOp(s);
  }

  /** ASCII upper-casing, as PHP's `strtoupper`. */
  function UpperChar(c: char): char {
    if 'a' <= c <= 'z' then (c as int - 32) as char else c
  }

  function Upper(s: string): string {
    seq(|s|, i requires 0 <= i < |s| => UpperChar(s[i]))
  }

  /** `strtoupper(substr(s, 0, 6)) === kw` for a six-letter keyword. */
  predicate StartsWithKeyword(s: string, kw: string) {
    Upper(s[..if |s| < 6 then |s| else 6]) == kw
  }

  /** `strpos(s, t) !== false`. */
  predicate Contains(s: string, t: string)
    decreases |s|
  {
    t <= s || (|s| > 0 && Contains(s[1..], t))
  }

  // ---------------------------------------------------------------------------
  // explode and implode

  /** PHP's `explode` on a one-character separator: always at least one part. */
  function Explode(sep: char, s: string): (parts: seq<string>)
    ensures |parts| >= 1
    decreases |s|
  {
    if s == [] then [""]
    else
      var rest := Explode(sep, s[1..]);
      if s[0] == sep then [""] + rest else [[s[0]] + rest[0]] + rest[1..]
  }

  /** PHP's `implode`: the parts with the glue between neighbours. */
  function Implode(glue: string, parts: seq<string>): string
    decreases |parts|
  {
    if |parts| == 0 then ""
    else if |parts| == 1 then parts[0]
    else parts[0] + glue + Implode(glue, parts[1..])
  }

  /** A prefix one element longer is the shorter prefix and that element. */
  lemma TakeSnoc<T>(p: seq<T>, i: nat)
    requires i < |p|
    ensures p[..i + 1] == p[..i] + [p[i]]
  {
  }

  /** Appending one more part puts the glue before it. */
  lemma {:induction false} ImplodeSnoc(glue: string, parts: seq<string>, last: string)
    ensures Implode(glue, parts + [last]) ==
            if parts == [] then last else Implode(glue, parts) + glue + last
    decreases |parts|
  {
    if |parts| >= 2 {
      assert (parts + [last])[1..] == parts[1..] + [last];
      ImplodeSnoc(glue, parts[1..], last);
    } else if |parts| == 1 {
      assert (parts + [last])[1..] == [last];
    }
  }

  /** The joined text ends with the last character of the last part. */
  lemma {:induction false} ImplodeLastChar(glue: string, parts: seq<string>)
    requires |parts| >= 1 && |parts[|parts| - 1]| >= 1
    ensures |Implode(glue, parts)| >= 1
    ensures Implode(glue, parts)[|Implode(glue, parts)| - 1] == parts[|parts| - 1][|parts[|parts| - 1]| - 1]
    decreases |parts|
  {
    if |parts| >= 2 {
      ImplodeLastChar(glue, parts[1..]);
    }
  }

  /** Joining the parts of `explode` with the same separator gives back the text. */
  lemma {:induction false} ImplodeExplode(sep: char, s: string)
    ensures Implode([sep], Explode(sep, s)) == s
    decreases |s|
  {
    if s != [] {
      var rest := Explode(sep, s[1..]);
      ImplodeExplode(sep, s[1..]);
      if s[0] == sep {
        assert ([""] + rest)[1..] == rest;
      } else {
        var parts := [[s[0]] + rest[0]] + rest[1..];
        if |rest| >= 2 {
          assert parts[1..] == rest[1..];
          assert Implode([sep], rest) == rest[0] + [sep] + Implode([sep], rest[1..]);
        }
        assert Implode([sep], parts) == [s[0]] + Implode([sep], rest);
      }
    }
  }

  /** The parts of `explode` never contain the separator. */
  lemma {:induction false} ExplodeNoSep(sep: char, s: string)
    ensures forall p | p in Explode(sep, s) :: sep !in p
    decreases |s|
  {
    if s != [] {
      ExplodeNoSep(sep, s[1..]);
    }
  }

  lemma {:induction false} ExplodePrefix(sep: char, p: string, t: string)
    requires sep !in p
    ensures Explode(sep, p + t) == [p + Explode(sep, t)[0]] + Explode(sep, t)[1..]
    decreases |p|
  {
    if p != [] {
      assert (p + t)[1..] == p[1..] + t;
      ExplodePrefix(sep, p[1..], t);
      var rest := Explode(sep, p[1..] + t);
      var e := Explode(sep, t);
      assert p[0] != sep by { assert p[0] in p; }
      assert (p + t)[0] == p[0];
      assert Explode(sep, p + t) == [[p[0]] + rest[0]] + rest[1..];
      assert rest == [p[1..] + e[0]] + e[1..];
      assert rest[0] == p[1..] + e[0] && rest[1..] == e[1..];
      assert [p[0]] + (p[1..] + e[0]) == p + e[0] by { assert [p[0]] + p[1..] == p; }
    } else {
      var e := Explode(sep, t);
      assert p + t == t && p + e[0] == e[0];
      assert e == [e[0]] + e[1..];
    }
  }

  /** Splitting a joined list of separator-free parts gives back the parts. */
  lemma {:induction false} ExplodeImplode(sep: char, parts: seq<string>)
    requires |parts| >= 1
    requires forall i | 0 <= i < |parts| :: sep !in parts[i]
    ensures Explode(sep, Implode([sep], parts)) == parts
    decreases |parts|
  {
    if |parts| == 1 {
      ExplodePrefix(sep, parts[0], "");
      assert parts[0] + "" == parts[0];
    } else {
      var t := Implode([sep], parts[1..]);
      ExplodeImplode(sep, parts[1..]);
      assert Explode(sep, [sep] + t) == [""] + parts[1..] by {
        assert ([sep] + t)[1..] == t;
      }
      ExplodePrefix(sep, parts[0], [sep] + t);
      assert Implode([sep], parts) == parts[0] + ([sep] + t);
      assert parts[0] + "" == parts[0];
      assert parts == [parts[0]] + parts[1..];
    }
  }

  // ---------------------------------------------------------------------------
  // Arrays

  function Keys<T>(a: Table<T>): seq<Key> {
    seq(|a|, i requires 0 <= i < |a| => a[i].0)
  }

  /** The values of an array converted to strings, as `implode` sees them. */
  function ValueStrings(a: PhpArray): seq<string> {
    seq(|a|, i requires 0 <= i < |a| => ToStr(a[i].1))
  }

  /** `[v0, v1, ...]`: a list with keys 0, 1, ... */
  function FromList(vs: seq<Value>): PhpArray {
    seq(|vs|, i requires 0 <= i < |vs| => (IntKey(i), vs[i]))
  }

  /** The `is_assoc` helper of both classes:
      `array_diff_assoc(array_keys(a), range(0, count(a) - 1))` is non-empty, that is
      some key differs, as a string, from its position. */
  predicate IsAssoc(a: PhpArray) {
    exists i | 0 <= i < |a| :: KeyToStr(a[i].0) != IntToStr(i)
  }

  /** A list is never associative. */
  lemma ListNotAssoc(vs: seq<Value>)
    ensures !IsAssoc(FromList(vs))
  {
  }

  /** A record with a name-like key (one that starts like no decimal number) is
      associative, wherever that key stands. */
  lemma NamedKeyIsAssoc(a: PhpArray, i: nat, name: string)
    requires i < |a| && a[i].0 == StrKey(name)
    requires |name| > 0 && !IsDigit(name[0]) && name[0] != '-'
    ensures IsAssoc(a)
  {
    assert IsDigit(IntToStr(i)[0]);
  }

  /** Positions of a non-associative array carry their own index as key. */
  lemma NotAssocKeys(a: PhpArray, i: nat)
    requires !IsAssoc(a) && i < |a|
    ensures KeyToStr(a[i].0) == IntToStr(i)
  {
  }

  /** The key test `$k == 0` on a non-associative array holds exactly at position 0. */
  lemma NotAssocFirstKey(a: PhpArray, i: nat)
    requires !IsAssoc(a) && i < |a|
    ensures KeyToStr(a[i].0) == "0" <==> i == 0
  {
    IntToStrZero(i);
  }

  predicate UniqueKeys<T>(a: Table<T>) {
    forall i, j | 0 <= i < j < |a| :: a[i].0 != a[j].0
  }

  /** `a[k]`, when set. */
  function Lookup<T>(a: Table<T>, k: Key): Option<T>
    decreases |a|
  {
    if a == [] then None else if a[0].0 == k then Some(a[0].1) else Lookup(a[1..], k)
  }

  /** `$a[$k]` read inside `empty()`: `Null` when `a` is no array or `k` is not set. */
  function Index(v: Value, k: Key): Value {
    if v.Arr? then (match Lookup(v.entries, k) case Some(x) => x case None => Null) else Null
  }

  /** `$a[$k] = $v`: an existing key keeps its place, a new key goes last. */
  function Assign<T>(a: Table<T>, k: Key, v: T): Table<T>
    decreases |a|
  {
    if a == [] then [(k, v)]
    else if a[0].0 == k then [(k, v)] + a[1..]
    else [a[0]] + Assign(a[1..], k, v)
  }

  lemma {:induction false} LookupNone<T>(a: Table<T>, k: Key)
    ensures Lookup(a, k) == None <==> forall i | 0 <= i < |a| :: a[i].0 != k
    decreases |a|
  {
    if a != [] {
      LookupNone(a[1..], k);
      if a[0].0 != k {
        assert forall i | 1 <= i < |a| :: a[i] == a[1..][i - 1];
      }
    }
  }

  lemma {:induction false} LookupAt<T>(a: Table<T>, i: nat)
    requires i < |a| && UniqueKeys(a)
    ensures Lookup(a, a[i].0) == Some(a[i].1)
    decreases |a|
  {
    if i > 0 {
      assert a[1..][i - 1] == a[i];
      LookupAt(a[1..], i - 1);
    }
  }

  lemma {:induction false} AssignLookup<T>(a: Table<T>, k: Key, v: T, k': Key)
    ensures Lookup(Assign(a, k, v), k') == if k' == k then Some(v) else Lookup(a, k')
    decreases |a|
  {
    if a != [] && a[0].0 != k {
      AssignLookup(a[1..], k, v, k');
      assert Assign(a, k, v)[1..] == Assign(a[1..], k, v);
    } else if a != [] {
      assert (([(k, v)] + a[1..])[1..]) == a[1..];
    }
  }

  /** Assigning a key that is not set appends it. */
  lemma {:induction false} AssignFresh<T>(a: Table<T>, k: Key, v: T)
    requires Lookup(a, k) == None
    ensures Assign(a, k, v) == a + [(k, v)]
    decreases |a|
  {
    if a != [] {
      AssignFresh(a[1..], k, v);
      assert a == [a[0]] + a[1..];
    }
  }

  lemma {:induction false} LookupAppend<T>(a: Table<T>, e: (Key, T), k: Key)
    ensures Lookup(a + [e], k) ==
            if Lookup(a, k).Some? then Lookup(a, k) else if e.0 == k then Some(e.1) else None
    decreases |a|
  {
    if a != [] {
      assert (a + [e])[1..] == a[1..] + [e];
      LookupAppend(a[1..], e, k);
    }
  }

  // ---------------------------------------------------------------------------
  // array_merge

  function CountIntKeys(a: PhpArray): nat
    decreases |a|
  {
    if a == [] then 0 else (if a[0].0.IntKey? then 1 else 0) + CountIntKeys(a[1..])
  }

  /** One entry of `array_merge`: a string key overwrites in place or is appended,
      an integer key is renumbered and appended. */
  function MergeStep(acc: PhpArray, e: (Key, Value)): PhpArray {
    match e.0
    case StrKey(_) => Assign(acc, e.0, e.1)
    case IntKey(_) => acc + [(IntKey(CountIntKeys(acc)), e.1)]
  }

  function MergeInto(acc: PhpArray, b: PhpArray): PhpArray
    decreases |b|
  {
    if b == [] then acc else MergeInto(MergeStep(acc, b[0]), b[1..])
  }

  /** PHP's `array_merge(a, b)`. */
  function ArrayMerge(a: PhpArray, b: PhpArray): PhpArray {
    MergeInto(MergeInto([], a), b)
  }

  lemma {:induction false} MergeIntoLookup(acc: PhpArray, b: PhpArray, k: Key)
    requires k.StrKey? && UniqueKeys(b)
    ensures Lookup(MergeInto(acc, b), k) == if Lookup(b, k).Some? then Lookup(b, k) else Lookup(acc, k)
    decreases |b|
  {
    if b != [] {
      var step := MergeStep(acc, b[0]);
      MergeIntoLookup(step, b[1..], k);
      if b[0].0.StrKey? {
        AssignLookup(acc, b[0].0, b[0].1, k);
      } else {
        LookupAppend(acc, (IntKey(CountIntKeys(acc)), b[0].1), k);
      }
      if b[0].0 == k {
        LookupNone(b[1..], k);
        forall i | 0 <= i < |b[1..]| ensures b[1..][i].0 != k {
          assert b[1..][i] == b[i + 1];
        }
      }
    }
  }

  /** Every string key of `b` overrides `a`; every other string key keeps its value
      from `a`. */
  lemma ArrayMergeLookup(a: PhpArray, b: PhpArray, k: Key)
    requires k.StrKey? && UniqueKeys(a) && UniqueKeys(b)
    ensures Lookup(ArrayMerge(a, b), k) == if Lookup(b, k).Some? then Lookup(b, k) else Lookup(a, k)
  {
    MergeIntoLookup([], a, k);
    MergeIntoLookup(MergeInto([], a), b, k);
  }

  lemma UniqueKeysTail<T>(a: Table<T>)
    requires a != [] && UniqueKeys(a)
    ensures UniqueKeys(a[1..])
  {
    forall i, j | 0 <= i < j < |a[1..]| ensures a[1..][i].0 != a[1..][j].0 {
      assert a[1..][i] == a[i + 1] && a[1..][j] == a[j + 1];
    }
  }

  /** Merging entries whose keys are new strings appends them in order. */
  lemma {:induction false} MergeIntoFresh(acc: PhpArray, b: PhpArray)
    requires UniqueKeys(b)
    requires forall i | 0 <= i < |b| :: b[i].0.StrKey? && Lookup(acc, b[i].0) == None
    ensures MergeInto(acc, b) == acc + b
    decreases |b|
  {
    if b != [] {
      AssignFresh(acc, b[0].0, b[0].1);
      var next, rest := acc + [b[0]], b[1..];
      forall i | 0 <= i < |rest| ensures rest[i].0.StrKey? && Lookup(next, rest[i].0) == None {
        assert rest[i] == b[i + 1];
        LookupAppend(acc, b[0], rest[i].0);
      }
      UniqueKeysTail(b);
      MergeIntoFresh(next, rest);
      assert next + rest == acc + b;
    }
  }

  /** An array with distinct string keys only is copied by `array_merge` as it is,
      so merging into it is merging entry by entry. */
  lemma ArrayMergeStrKeys(a: PhpArray, b: PhpArray)
    requires UniqueKeys(a) && forall i | 0 <= i < |a| :: a[i].0.StrKey?
    ensures ArrayMerge(a, b) == MergeInto(a, b)
  {
    var none: PhpArray := [];
    MergeIntoFresh(none, a);
    assert none + a == a;
  }

  /** A table whose keys are distinct and whose integer keys all lie below its count
      of integer keys, as every `array_merge` result is. */
  predicate WellKeyed(a: PhpArray) {
    && UniqueKeys(a)
    && forall i | 0 <= i < |a| :: a[i].0.IntKey? ==> 0 <= a[i].0.n < CountIntKeys(a)
  }

  lemma {:induction false} CountIntKeysAppend(a: PhpArray, e: (Key, Value))
    ensures CountIntKeys(a + [e]) == CountIntKeys(a) + (if e.0.IntKey? then 1 else 0)
    decreases |a|
  {
    if a != [] {
      assert (a + [e])[1..] == a[1..] + [e];
      CountIntKeysAppend(a[1..], e);
    } else {
      assert ([e])[1..] == [];
    }
  }

  lemma {:induction false} AssignStrKeyCount(a: PhpArray, k: Key, v: Value)
    requires k.StrKey?
    ensures CountIntKeys(Assign(a, k, v)) == CountIntKeys(a)
    decreases |a|
  {
    var r := Assign(a, k, v);
    if a == [] {
      assert r[1..] == [];
    } else if a[0].0 == k {
      assert r[1..] == a[1..];
    } else {
      assert r[1..] == Assign(a[1..], k, v);
      AssignStrKeyCount(a[1..], k, v);
    }
  }

  lemma KeyPresent<T>(a: Table<T>, i: nat)
    requires i < |a|
    ensures Lookup(a, a[i].0).Some?
  {
    LookupNone(a, a[i].0);
  }

  lemma {:induction false} AssignUnique<T>(a: Table<T>, k: Key, v: T)
    requires UniqueKeys(a)
    ensures UniqueKeys(Assign(a, k, v))
    decreases |a|
  {
    var r := Assign(a, k, v);
    if a == [] {
    } else if a[0].0 == k {
      forall i, j | 0 <= i < j < |r| ensures r[i].0 != r[j].0 {
        assert r[j] == a[j];
        if i > 0 { assert r[i] == a[i]; }
      }
    } else {
      var t := a[1..];
      assert UniqueKeys(t) by {
        forall i, j | 0 <= i < j < |t| ensures t[i].0 != t[j].0 {
          assert t[i] == a[i + 1] && t[j] == a[j + 1];
        }
      }
      AssignUnique(t, k, v);
      var rt := Assign(t, k, v);
      assert r == [a[0]] + rt;
      AssignLookup(t, k, v, a[0].0);
      LookupNone(t, a[0].0);
      assert Lookup(t, a[0].0) == None by {
        forall i | 0 <= i < |t| ensures t[i].0 != a[0].0 {
          assert t[i] == a[i + 1];
        }
      }
      LookupNone(rt, a[0].0);
      forall i, j | 0 <= i < j < |r| ensures r[i].0 != r[j].0 {
        assert r[j] == rt[j - 1];
        if i > 0 { assert r[i] == rt[i - 1]; }
      }
    }
  }

  lemma AssignWellKeyed(a: PhpArray, k: Key, v: Value)
    requires WellKeyed(a) && k.StrKey?
    ensures WellKeyed(Assign(a, k, v))
  {
    var r := Assign(a, k, v);
    AssignUnique(a, k, v);
    AssignStrKeyCount(a, k, v);
    forall i | 0 <= i < |r| && r[i].0.IntKey? ensures 0 <= r[i].0.n < CountIntKeys(r) {
      KeyPresent(r, i);
      AssignLookup(a, k, v, r[i].0);
      LookupNone(a, r[i].0);
      var j :| 0 <= j < |a| && a[j].0 == r[i].0;
    }
  }

  lemma MergeStepWellKeyed(acc: PhpArray, e: (Key, Value))
    requires WellKeyed(acc)
    ensures WellKeyed(MergeStep(acc, e))
  {
    if e.0.StrKey? {
      AssignWellKeyed(acc, e.0, e.1);
    } else {
      var c := CountIntKeys(acc);
      var n := (IntKey(c), e.1);
      var r := acc + [n];
      CountIntKeysAppend(acc, n);
      forall i, j | 0 <= i < j < |r| ensures r[i].0 != r[j].0 {
        assert r[i] == acc[i];
        if j < |acc| { assert r[j] == acc[j]; }
      }
      forall i | 0 <= i < |r| && r[i].0.IntKey? ensures 0 <= r[i].0.n < CountIntKeys(r) {
        if i < |acc| { assert r[i] == acc[i]; }
      }
    }
  }

  lemma {:induction false} MergeIntoWellKeyed(acc: PhpArray, b: PhpArray)
    requires WellKeyed(acc)
    ensures WellKeyed(MergeInto(acc, b))
    decreases |b|
  {
    if b != [] {
      MergeStepWellKeyed(acc, b[0]);
      MergeIntoWellKeyed(MergeStep(acc, b[0]), b[1..]);
    }
  }

  /** An `array_merge` result never holds a key twice, whatever its inputs. */
  lemma ArrayMergeUnique(a: PhpArray, b: PhpArray)
    ensures UniqueKeys(ArrayMerge(a, b))
  {
    MergeIntoWellKeyed([], a);
    MergeIntoWellKeyed(MergeInto([], a), b);
  }
}
