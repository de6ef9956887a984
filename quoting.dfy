/** The identifier quoter `addSpecialChar` and the renderings built on it that both
    statement builders (the `ChainPDO` class and the older `PDODB` class) share:
    `` `col` = "value" `` pairs and `("v1","v2")` value groups. */
module Quoting {
  import opened Php

  /** Tokens that `addSpecialChar` leaves alone because the caller has already
      formatted them: the wildcard, qualified names, tokens holding a back-quote,
      function calls or expressions, and aliases. */
  predicate IsPreformatted(s: string) {
    s == "*" || '.' in s || '`' in s || '(' in s || Contains(s, " as ")
  }

  /** `addSpecialChar`: wrap a plain token, trimmed, in back-quotes.  A
      preformatted token is left as it is, and the result is always a token that
      the function leaves alone. */
  function AddSpecialChar(s: string): (r: string)
    ensures IsPreformatted(s) ==> r == s
    ensures IsPreformatted(r)
    ensures !IsPreformatted(s) ==> |r| == |Trim(s)| + 2 && r[0] == '`' && r[|r| - 1] == '`'
  {
    if IsPreformatted(s) then s
    else
      var r := "`" + Trim(s) + "`";
      assert r[0] == '`';
      r
  }

  lemma TrimKeepsOut(s: string, c: char)
    requires c !in s
    ensures c !in Trim(s)
  {
    var t := TrimStart(s);
    forall k | 0 <= k < |t| ensures t[k] != c {
      assert t[k] == s[|s| - |t| + k];
    }
    var r := TrimEnd(t);
    forall k | 0 <= k < |r| ensures r[k] != c {
      assert r[k] == t[k];
    }
  }

  /** A plain token comes out as exactly one back-quoted identifier: a back-quote at
      each end, the trimmed token between them and no back-quote inside.  A
      preformatted token comes out unchanged. */
  lemma AddSpecialCharShape(s: string)
    ensures IsPreformatted(s) ==> AddSpecialChar(s) == s
    ensures !IsPreformatted(s) ==>
      var r := AddSpecialChar(s);
      && |r| >= 2 && r[0] == '`' && r[|r| - 1] == '`'
      && r[1..|r| - 1] == Trim(s)
      && '`' !in r[1..|r| - 1]
      && (r[1..|r| - 1] == [] || (!IsTrimChar(r[1]) && !IsTrimChar(r[|r| - 2])))
  {
    if !IsPreformatted(s) {
      TrimKeepsOut(s, '`');
      var r := AddSpecialChar(s);
      assert r[1..|r| - 1] == Trim(s);
    }
  }

  /** A plain column name: it holds no character that marks a preformatted token
      and no blank, and starts like no number, so it also reads as a named key. */
  predicate PlainName(s: string) {
    && s != []
    && !IsDigit(s[0]) && s[0] != '-' && s[0] != '*'
    && ' ' !in s && '.' !in s && '`' !in s && '(' !in s
    && !IsTrimChar(s[0]) && !IsTrimChar(s[|s| - 1])
  }

  /** A text without blanks contains no " as ". */
  lemma {:induction false} NoBlankNoAlias(s: string)
    requires ' ' !in s
    ensures !Contains(s, " as ")
    decreases |s|
  {
    if s != [] {
      assert ' ' !in s[1..] by {
        forall i | 0 <= i < |s[1..]| ensures s[1..][i] != ' ' { assert s[1..][i] == s[i + 1]; }
      }
      NoBlankNoAlias(s[1..]);
      assert s[0] != ' ';
    }
  }

  /** A plain name is back-quoted as it is. */
  lemma PlainNameQuoted(s: string)
    requires PlainName(s)
    ensures AddSpecialChar(s) == "`" + s + "`"
  {
    NoBlankNoAlias(s);
    assert s != "*" by { assert s[0] != '*'; }
    TrimNoOp(s);
  }

  /** Every result of `addSpecialChar` is preformatted, so quoting twice changes
      nothing. */
  lemma AddSpecialCharIdempotent(s: string)
    ensures IsPreformatted(AddSpecialChar(s))
    ensures AddSpecialChar(AddSpecialChar(s)) == AddSpecialChar(s)
  {
    if !IsPreformatted(s) {
      var r := AddSpecialChar(s);
      assert r[0] == '`';
      assert '`' in r;
    }
  }

  // ---------------------------------------------------------------------------
  // array_walk($arr, addSpecialChar)

  /** What `addSpecialChar(&$value)` leaves in an array element that is no array. */
  function QuoteValue(v: Value): Value {
    Str(AddSpecialChar(ToStr(v)))
  }

  predicate HasArrayValue(a: PhpArray) {
    exists i | 0 <= i < |a| :: a[i].1.Arr?
  }

  /** `array_walk(a, addSpecialChar)`: each element is quoted in place, keys kept.
      An element that is itself an array makes `strpos` throw a TypeError; the
      elements before it are already rewritten and the rest are not. */
  function WalkQuote(a: PhpArray): (r: PhpArray)
    ensures |r| == |a|
    decreases |a|
  {
    if a == [] then []
    else if a[0].1.Arr? then a
    else [(a[0].0, QuoteValue(a[0].1))] + WalkQuote(a[1..])
  }

  const StrposTypeError: string :=
    "strpos(): Argument #1 ($haystack) must be of type string, array given"

  /** The quoted form of each element, in order. */
  function QuotedStrings(a: PhpArray): seq<string> {
    seq(|a|, i requires 0 <= i < |a| => AddSpecialChar(ToStr(a[i].1)))
  }

  /** When no element is an array, the walk leaves each key and quotes each value. */
  lemma {:induction false} WalkQuoteAt(a: PhpArray, i: nat)
    requires !HasArrayValue(a) && i < |a|
    ensures WalkQuote(a)[i] == (a[i].0, QuoteValue(a[i].1))
    decreases i
  {
    assert !a[0].1.Arr?;
    var rest := a[1..];
    var head := (a[0].0, QuoteValue(a[0].1));
    assert WalkQuote(a) == [head] + WalkQuote(rest);
    if i > 0 {
      assert !HasArrayValue(rest) by {
        forall j | 0 <= j < |rest| ensures !rest[j].1.Arr? { assert rest[j] == a[j + 1]; }
      }
      assert rest[i - 1] == a[i];
      WalkQuoteAt(rest, i - 1);
      ConsAt(WalkQuote(a), head, WalkQuote(rest), i);
    }
  }

  /** Indexing past the head of a sequence built as head and tail. */
  lemma ConsAt<T>(s: seq<T>, x: T, w: seq<T>, i: nat)
    requires s == [x] + w && 0 < i <= |w|
    ensures s[i] == w[i - 1]
  {
  }

  /** When no element is an array, the walk quotes every element in order and keeps
      every key. */
  lemma WalkQuoteAll(a: PhpArray)
    requires !HasArrayValue(a)
    ensures Keys(WalkQuote(a)) == Keys(a)
    ensures ValueStrings(WalkQuote(a)) == QuotedStrings(a)
    ensures !HasArrayValue(WalkQuote(a))
  {
    var r := WalkQuote(a);
    forall i | 0 <= i < |a| ensures Keys(r)[i] == Keys(a)[i] && !r[i].1.Arr? {
      WalkQuoteAt(a, i);
    }
    forall i | 0 <= i < |a| ensures ValueStrings(r)[i] == QuotedStrings(a)[i] {
      WalkQuoteAt(a, i);
    }
    assert Keys(r) == Keys(a);
    assert ValueStrings(r) == QuotedStrings(a);
  }

  /** Walking an already walked array changes nothing. */
  lemma WalkQuoteIdempotent(a: PhpArray)
    requires !HasArrayValue(a)
    ensures ValueStrings(WalkQuote(WalkQuote(a))) == ValueStrings(WalkQuote(a))
  {
    var w := WalkQuote(a);
    WalkQuoteAll(a);
    WalkQuoteAll(w);
    forall i | 0 <= i < |w| ensures QuotedStrings(w)[i] == ValueStrings(w)[i] {
      assert ValueStrings(w)[i] == QuotedStrings(a)[i];
      AddSpecialCharIdempotent(ToStr(a[i].1));
    }
  }

  // ---------------------------------------------------------------------------
  // Pairs and value groups

  /** One equality of a WHERE condition or an UPDATE assignment:
      `` `k` = "v" `` with the key quoted and the value double-quoted verbatim. */
  function PairText(k: Key, v: Value): string {
    AddSpecialChar(KeyToStr(k)) + " = \"" + ToStr(v) + "\""
  }

  function PairTexts(a: PhpArray): seq<string> {
    seq(|a|, i requires 0 <= i < |a| => PairText(a[i].0, a[i].1))
  }

  /** The `foreach ... array_push` loop of `parseWhere`/`parseDataForUpdate` (and of
      `_parseWhere`/`_parseDataForUpdate`) followed by `implode`. */
  method RenderPairs(a: PhpArray, glue: string) returns (s: string)
    ensures s == Implode(glue, PairTexts(a))
  {
    ghost var all := PairTexts(a);
    var parts: seq<string> := [];
    for i := 0 to |a|
      invariant parts == all[..i]
    {
      assert all[i] == PairText(a[i].0, a[i].1);
      TakeSnoc(all, i);
      parts := parts + [PairText(a[i].0, a[i].1)];
    }
    assert all[..|a|] == all;
    s := Implode(glue, parts);
  }

  /** One parenthesised row of values: `("v1","v2",...)`. */
  function ValueGroup(a: PhpArray): string {
    "(\"" + Implode("\",\"", ValueStrings(a)) + "\")"
  }
}
