/**
 * The few PHP string built-ins the crawler relies on, stated over
 * `seq<char>`: `strpos`, `substr` from offset 0, and PHP's truthiness of
 * strings.
 */
module Php {

  datatype Option<T> = None | Some(value: T)

  /** The value of an optional string, or `d` when it is not set (PHP's `??`). */
  function OrElse(o: Option<string>, d: string): string {
    match o
    case Some(v) => v
    case None => d
  }

  /** A missing string concatenates as the empty string in PHP. */
  function OrEmpty(o: Option<string>): string {
    OrElse(o, "")
  }

  /** `needle` occurs in `haystack` starting at index `j`. */
  predicate OccursAt(haystack: string, needle: string, j: nat) {
    j + |needle| <= |haystack| && haystack[j..j + |needle|] == needle
  }

  /**
   * PHP's `strpos(haystack, needle)`: the index of the first occurrence of
   * `needle`, or `None` where PHP returns `false`.
   */
  function StrPos(haystack: string, needle: string): (r: Option<nat>)
    ensures r.Some? ==> OccursAt(haystack, needle, r.value)
    ensures r.Some? ==> forall j: nat :: j < r.value ==> !OccursAt(haystack, needle, j)
    ensures r.None? ==> forall j: nat :: !OccursAt(haystack, needle, j)
    decreases |haystack|
  {
    if |haystack| < |needle| then None
    else if haystack[..|needle|] == needle then Some(0)
    else
      assert !OccursAt(haystack, needle, 0);
      assert forall j: nat :: 0 < j && OccursAt(haystack, needle, j) ==> OccursAt(haystack[1..], needle, j - 1);
      match StrPos(haystack[1..], needle)
      case None => None
      case Some(i) =>
        assert haystack[1..][i..i + |needle|] == haystack[i + 1..i + 1 + |needle|];
        Some(i + 1)
  }

  /** `strpos(haystack, needle) !== false`. */
  predicate Contains(haystack: string, needle: string) {
    StrPos(haystack, needle).Some?
  }

  /** PHP's `substr(s, 0, n)`: the first `n` characters, or all of a shorter string. */
  function Substr(s: string, n: nat): (r: string)
    ensures |r| == if n <= |s| then n else |s|
    ensures r <= s
  {
    if n <= |s| then s[..n] else s
  }

  /** A string is falsy in PHP exactly when it is "" or "0". */
  predicate Falsy(s: string) {
    s == "" || s == "0"
  }
}
