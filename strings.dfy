/**
 * The `String` and commons-lang `StringUtils` operations the object rule
 * uses, on strings of characters.
 */
module Strings {
  import opened Wrappers

  /** The first position at or after `from` that holds `c`, if any. */
  function IndexFrom(s: string, c: char, from: nat): (r: Option<nat>)
    requires from <= |s|
    ensures r.Some? ==> from <= r.value < |s| && s[r.value] == c
    ensures forall k :: from <= k < (if r.Some? then r.value else |s|) ==> s[k] != c
    decreases |s| - from
  {
    if from == |s| then None
    else if s[from] == c then Some(from)
    else IndexFrom(s, c, from + 1)
  }

  /** `s.indexOf(c)`: the first position of `c`, `None` where Java gives -1. */
  function IndexOf(s: string, c: char): (r: Option<nat>)
    ensures r.None? <==> c !in s
    ensures r.Some? ==> r.value < |s| && s[r.value] == c && c !in s[..r.value]
  {
    var r := IndexFrom(s, c, 0);
    assert r.Some? ==> forall k :: 0 <= k < r.value ==> s[..r.value][k] == s[k];
    r
  }

  /** The last position before `upTo` that holds `c`; -1 when there is none. */
  function LastIndexBefore(s: string, c: char, upTo: nat): (r: int)
    requires upTo <= |s|
    ensures -1 <= r < upTo
    ensures r >= 0 ==> s[r] == c
    ensures forall k :: r < k < upTo ==> s[k] != c
    decreases upTo
  {
    if upTo == 0 then -1
    else if s[upTo - 1] == c then upTo - 1
    else LastIndexBefore(s, c, upTo - 1)
  }

  /** `s.lastIndexOf(c)`: the last position of `c`, -1 when `c` does not occur. */
  function LastIndexOf(s: string, c: char): (r: int)
    ensures -1 <= r < |s|
    ensures r == -1 <==> c !in s
    ensures r >= 0 ==> s[r] == c
    ensures forall k :: r < k < |s| ==> s[k] != c
  {
    LastIndexBefore(s, c, |s|)
  }

  /** `StringUtils.substringBefore(s, c)`: the text before the first `c`; all of `s` when there is none. */
  function SubstringBefore(s: string, c: char): (r: string)
    ensures c !in r
    ensures c !in s ==> r == s
  {
    match IndexOf(s, c)
    case None => s
    case Some(i) => s[..i]
  }

  /** `StringUtils.substringAfter(s, c)`: the text after the first `c`; empty when there is none. */
  function SubstringAfter(s: string, c: char): (r: string)
    ensures c !in s ==> r == []
  {
    match IndexOf(s, c)
    case None => []
    case Some(i) => s[i + 1..]
  }

  /** Text wrapped around the first `c` of `s` splits it: the parts before and after, put back with `c`. */
  lemma SplitAtFirst(s: string, c: char)
    requires c in s
    ensures SubstringBefore(s, c) + [c] + SubstringAfter(s, c) == s
  {
    var i := IndexOf(s, c).value;
    assert s == s[..i] + [s[i]] + s[i + 1..];
  }

  /** The upper-case letter of a lower-case ASCII letter; any other character is itself. */
  function UpperAscii(c: char): (u: char)
    ensures 'a' <= c <= 'z' ==> 'A' <= u <= 'Z' && u as int == c as int - 32
    ensures !('a' <= c <= 'z') ==> u == c
  {
    if 'a' <= c <= 'z' then (c as int - 32) as char else c
  }

  /** `StringUtils.capitalize`: the first character in upper case, the rest unchanged. */
  function Capitalize(s: string): (r: string)
    ensures |r| == |s|
    ensures s != [] ==> r[0] == UpperAscii(s[0]) && r[1..] == s[1..]
    ensures s == [] ==> r == []
  {
    if s == [] then s else [UpperAscii(s[0])] + s[1..]
  }
}
