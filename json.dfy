/**
 * The read-only JSON tree the rules walk (a Jackson `JsonNode`), with the
 * accessors and coercions the rules call: `has`, `get`, `fieldNames`,
 * iteration, `asText`, `asBoolean`, `isIntegralNumber` and `isNumber`.
 */
module Json {
  import opened Wrappers

  /**
   * An object keeps its members in insertion order (Jackson's ObjectNode is
   * backed by a LinkedHashMap). Integral numbers of any width are `JInt`;
   * any other number is `JDecimal`, carried as the text Jackson prints for it.
   */
  datatype Json =
    | JObject(fields: seq<(string, Json)>)
    | JArray(items: seq<Json>)
    | JString(text: string)
    | JInt(n: int)
    | JDecimal(repr: string)
    | JBool(b: bool)
    | JNull

  /** The names of the members, in order. */
  function Names(fields: seq<(string, Json)>): (names: seq<string>)
    ensures |names| == |fields|
    decreases |fields|
  {
    if fields == [] then [] else [fields[0].0] + Names(fields[1..])
  }

  /** The value of the first member named `key`. */
  function Lookup(fields: seq<(string, Json)>, key: string): (r: Option<Json>)
    ensures r.Some? <==> key in Names(fields)
    decreases |fields|
  {
    if fields == [] then None
    else if fields[0].0 == key then Some(fields[0].1)
    else Lookup(fields[1..], key)
  }

  /** The member names of an object, in iteration order (`fieldNames()`); none for other nodes. */
  function FieldNames(j: Json): (names: seq<string>)
    ensures !j.JObject? ==> names == []
  {
    if j.JObject? then Names(j.fields) else []
  }

  /** `JsonNode.get(key)`: the member of an object, `null` for a missing key or a non-object. */
  function Get(j: Json, key: string): (r: Option<Json>)
    ensures r.Some? <==> key in FieldNames(j)
  {
    if j.JObject? then Lookup(j.fields, key) else None
  }

  /** The names are the members' names, position by position. */
  lemma {:induction false} NamesInOrder(fields: seq<(string, Json)>)
    ensures forall i :: 0 <= i < |fields| ==> Names(fields)[i] == fields[i].0
    decreases |fields|
  {
    if fields != [] {
      NamesInOrder(fields[1..]);
      assert forall i :: 1 <= i < |fields| ==> Names(fields)[i] == Names(fields[1..])[i - 1];
    }
  }

  /** A found value is that of the first member with the name: every member before it has another name. */
  lemma {:induction false} LookupFindsFirst(fields: seq<(string, Json)>, key: string)
    requires Lookup(fields, key).Some?
    ensures exists i :: && 0 <= i < |fields| && fields[i] == (key, Lookup(fields, key).value)
                        && forall k :: 0 <= k < i ==> fields[k].0 != key
    decreases |fields|
  {
    if fields[0].0 != key {
      LookupFindsFirst(fields[1..], key);
      var i :| 0 <= i < |fields[1..]| && fields[1..][i] == (key, Lookup(fields, key).value)
        && forall k :: 0 <= k < i ==> fields[1..][k].0 != key;
      assert fields[i + 1] == (key, Lookup(fields, key).value);
      assert forall k :: 1 <= k < i + 1 ==> fields[k].0 == fields[1..][k - 1].0;
    } else {
      assert fields[0] == (key, Lookup(fields, key).value);
    }
  }

  /** `JsonNode.has(key)`: true also when the member's value is JSON `null`. */
  predicate Has(j: Json, key: string) {
    Get(j, key).Some?
  }

  /** What iterating a node yields: an array's items, an object's values, nothing for a scalar. */
  function Elements(j: Json): (es: seq<Json>)
    ensures j.JArray? ==> es == j.items
    ensures j.JObject? ==> |es| == |j.fields| && forall i :: 0 <= i < |es| ==> es[i] == j.fields[i].1
    ensures !j.JArray? && !j.JObject? ==> es == []
  {
    match j
    case JArray(items) => items
    case JObject(fields) => seq(|fields|, i requires 0 <= i < |fields| => fields[i].1)
    case _ => []
  }

  /** The first position at or after `from` whose character is above space; `|s|` when there is none. */
  function SkipBlanks(s: string, from: nat): (n: nat)
    requires from <= |s|
    ensures from <= n <= |s|
    ensures forall k :: from <= k < n ==> s[k] <= ' '
    ensures n < |s| ==> s[n] > ' '
    decreases |s| - from
  {
    if from == |s| || s[from] > ' ' then from else SkipBlanks(s, from + 1)
  }

  /** The end of `s[lo..hi]` once its trailing characters up to and including space are dropped. */
  function BackBlanks(s: string, lo: nat, hi: nat): (e: nat)
    requires lo <= hi <= |s|
    ensures lo <= e <= hi
    ensures forall k :: e <= k < hi ==> s[k] <= ' '
    ensures e > lo ==> s[e - 1] > ' '
    decreases hi
  {
    if hi == lo || s[hi - 1] > ' ' then hi else BackBlanks(s, lo, hi - 1)
  }

  /**
   * Java's `String.trim`: `s` without its leading and trailing characters
   * up to and including space.
   */
  function Trim(s: string): (t: string)
    ensures |t| <= |s|
    ensures t != [] ==> t[0] > ' ' && t[|t| - 1] > ' '
    ensures var i := SkipBlanks(s, 0);
      && i + |t| <= |s| && t == s[i..i + |t|]
      && (forall k :: 0 <= k < i ==> s[k] <= ' ')
      && (forall k :: i + |t| <= k < |s| ==> s[k] <= ' ')
  {
    var i := SkipBlanks(s, 0);
    var e := BackBlanks(s, i, |s|);
    s[i..e]
  }

  /** The decimal digit for `d`. */
  function DigitChar(d: nat): (c: char)
    requires d < 10
    ensures '0' <= c <= '9' && c as int - '0' as int == d
  {
    ('0' as int + d) as char
  }

  /** The number a numeral of decimal digits denotes. */
  function NumeralValue(s: string): nat
    requires forall i :: 0 <= i < |s| ==> '0' <= s[i] <= '9'
    decreases |s|
  {
    if s == [] then 0 else NumeralValue(s[..|s| - 1]) * 10 + (s[|s| - 1] as int - '0' as int)
  }

  /** The decimal numeral of `n`, as `Long.toString` writes it. */
  function NatText(n: nat): (s: string)
    ensures s != [] && forall i :: 0 <= i < |s| ==> '0' <= s[i] <= '9'
    ensures NumeralValue(s) == n
    ensures s[0] == '0' ==> s == "0"
    decreases n
  {
    if n < 10 then
      var s := [DigitChar(n)];
      assert s[..0] == [];
      s
    else
      var front := NatText(n / 10);
      var s := front + [DigitChar(n % 10)];
      assert s[..|s| - 1] == front;
      s
  }

  /** A numeral whose first digit is not `0` denotes a positive number. */
  lemma {:induction false} LeadingDigitPositive(s: string)
    requires s != [] && s[0] != '0' && forall i :: 0 <= i < |s| ==> '0' <= s[i] <= '9'
    ensures NumeralValue(s) >= 1
    decreases |s|
  {
    if |s| > 1 {
      LeadingDigitPositive(s[..|s| - 1]);
    }
  }

  /**
   * The numeral `NatText` writes is the only one for its number without a
   * leading zero: any other text that reads as `n` starts with `0`.
   */
  lemma {:induction false} NatTextCanonical(s: string, n: nat)
    requires s != [] && forall i :: 0 <= i < |s| ==> '0' <= s[i] <= '9'
    requires s[0] == '0' ==> s == "0"
    requires NumeralValue(s) == n
    ensures s == NatText(n)
    decreases |s|
  {
    if |s| > 1 {
      var front := s[..|s| - 1];
      assert front[0] == s[0] != '0';
      LeadingDigitPositive(front);
      var d := s[|s| - 1] as int - '0' as int;
      assert n / 10 == NumeralValue(front) && n % 10 == d;
      NatTextCanonical(front, n / 10);
      assert s == front + [DigitChar(n % 10)];
    }
  }

  /**
   * `JsonNode.asText()`: a string's text, a number's numeral (a decimal as
   * Jackson prints it), `true`/`false`, `null`, and nothing for a container.
   */
  function AsText(j: Json): (r: string)
    ensures j.JString? ==> r == j.text
    ensures j.JBool? ==> r == (if j.b then "true" else "false")
    ensures j.JNull? ==> r == "null"
    ensures j.JDecimal? ==> r == j.repr
    ensures j.JArray? || j.JObject? ==> r == []
  {
    match j
    case JString(s) => s
    case JInt(n) => if n < 0 then "-" + NatText(-n) else NatText(n)
    case JDecimal(repr) => repr
    case JBool(b) => if b then "true" else "false"
    case JNull => "null"
    case _ => ""
  }

  /** The text of an integer is its numeral, after a `-` when it is negative: it reads back as the integer. */
  lemma IntTextDenotes(n: int)
    ensures var r := AsText(JInt(n));
      && (n >= 0 ==> (forall i :: 0 <= i < |r| ==> '0' <= r[i] <= '9') && NumeralValue(r) == n && (r[0] == '0' ==> r == "0"))
      && (n < 0 ==> |r| > 1 && r[0] == '-' && (forall i :: 1 <= i < |r| ==> '0' <= r[i] <= '9') && NumeralValue(r[1..]) == -n
                      && r[1] != '0')
  {
    if n < 0 {
      assert AsText(JInt(n))[1..] == NatText(-n);
    }
  }

  /**
   * `JsonNode.asBoolean()`: a boolean's value, true for a non-zero integer
   * and for a text that trims to `true`; false for anything else.
   */
  function AsBoolean(j: Json): (r: bool)
    ensures j.JBool? ==> r == j.b
    ensures j.JInt? ==> (r <==> j.n != 0)
    ensures j.JString? ==> (r <==> Trim(j.text) == "true")
    ensures j.JDecimal? || j.JNull? || j.JArray? || j.JObject? ==> !r
  {
    match j
    case JBool(b) => b
    case JInt(n) => n != 0
    case JString(s) => Trim(s) == "true"
    case _ => false
  }

  /** A boolean written as text reads back as that boolean, with blanks around it or not. */
  lemma BooleanTextReadsBack(b: bool, before: string, after: string)
    requires forall i :: 0 <= i < |before| ==> before[i] <= ' '
    requires forall i :: 0 <= i < |after| ==> after[i] <= ' '
    ensures AsBoolean(JString(before + AsText(JBool(b)) + after)) == b
  {
    var word := AsText(JBool(b));
    var s := before + word + after;
    assert s[|before|] == word[0];
    assert SkipBlanks(s, 0) == |before| by {
      SkipBlanksPast(s, 0, |before|);
    }
    assert BackBlanks(s, |before|, |s|) == |before| + |word| by {
      BackBlanksPast(s, |before|, |before| + |word|, |s|);
    }
    assert s[|before|..|before| + |word|] == word;
  }

  /** Skipping from `from` passes every blank up to a character above space at `n`. */
  lemma {:induction false} SkipBlanksPast(s: string, from: nat, n: nat)
    requires from <= n < |s| && s[n] > ' '
    requires forall k :: from <= k < n ==> s[k] <= ' '
    ensures SkipBlanks(s, from) == n
    decreases n - from
  {
    if from < n {
      SkipBlanksPast(s, from + 1, n);
    }
  }

  /** Dropping back from `hi` passes every blank down to a character above space before `e`. */
  lemma {:induction false} BackBlanksPast(s: string, lo: nat, e: nat, hi: nat)
    requires lo < e <= hi <= |s| && s[e - 1] > ' '
    requires forall k :: e <= k < hi ==> s[k] <= ' '
    ensures BackBlanks(s, lo, hi) == e
    decreases hi - e
  {
    if e < hi {
      BackBlanksPast(s, lo, e, hi - 1);
    }
  }

  /** `JsonNode.isIntegralNumber()`. */
  predicate IsIntegralNumber(j: Json) {
    j.JInt?
  }

  /** `JsonNode.isNumber()`. */
  predicate IsNumber(j: Json) {
    j.JInt? || j.JDecimal?
  }
}
