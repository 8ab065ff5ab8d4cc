/**
 * The few JavaScript string semantics the pipeline relies on: values that may
 * be `undefined`, truthiness of strings, `a || b`, template-literal rendering,
 * ASCII `toLowerCase` and `String.prototype.includes`.
 */
module JsText {

  /** A field that may be missing from a record: `undefined` is `None`. */
  datatype Option<T> = None | Some(value: T)

  /** JavaScript truthiness of a possibly-missing string: `undefined` and `""` are falsy. */
  predicate Truthy(s: Option<string>) {
    s.Some? && s.value != ""
  }

  /** `a || b` on possibly-missing strings. */
  function Or(a: Option<string>, b: Option<string>): (r: Option<string>)
    ensures Truthy(r) <==> Truthy(a) || Truthy(b)
    ensures Truthy(a) ==> r == a
    ensures !Truthy(a) ==> r == b
  {
    if Truthy(a) then a else b
  }

  /** `a || fallback` where the fallback is a string literal. */
  function OrElse(a: Option<string>, fallback: string): (r: string)
    ensures fallback != "" ==> r != ""
    ensures Truthy(a) ==> r == a.value
    ensures !Truthy(a) ==> r == fallback
  {
    if Truthy(a) then a.value else fallback
  }

  /** `${s}` inside a template literal: a missing value prints as "undefined". */
  function Interpolate(s: Option<string>): string {
    match s
    case None => "undefined"
    case Some(v) => v
  }

  /** ASCII lower-casing of one character; every other character is unchanged. */
  function LowerChar(c: char): char {
    if 'A' <= c <= 'Z' then (c as int - 'A' as int + 'a' as int) as char else c
  }

  /** `s.toLowerCase()`, restricted to ASCII letters. */
  function Lower(s: string): (r: string)
    ensures |r| == |s|
    ensures forall i :: 0 <= i < |s| ==> r[i] == LowerChar(s[i])
  {
    seq(|s|, i requires 0 <= i < |s| => LowerChar(s[i]))
  }

  /** `needle` occurs in `haystack` starting at index `i`. */
  predicate OccursAt(haystack: string, needle: string, i: int) {
    0 <= i && i + |needle| <= |haystack| && haystack[i..i + |needle|] == needle
  }

  /** `haystack.includes(needle)`. */
  predicate Contains(haystack: string, needle: string) {
    exists i :: 0 <= i <= |haystack| - |needle| && OccursAt(haystack, needle, i)
  }

  /** An occurrence of a longer needle is an occurrence of each of its prefixes. */
  lemma ContainsPrefixOfNeedle(haystack: string, needle: string, prefix: string)
    requires Contains(haystack, needle)
    requires |prefix| <= |needle| && needle[..|prefix|] == prefix
    ensures Contains(haystack, prefix)
  {
    var i :| 0 <= i <= |haystack| - |needle| && OccursAt(haystack, needle, i);
    assert haystack[i..i + |prefix|] == haystack[i..i + |needle|][..|prefix|];
    assert OccursAt(haystack, prefix, i);
  }

  /** Since "laboratory" starts with "lab", any name containing "laboratory" contains "lab". */
  lemma LaboratoryContainsLab(s: string)
    ensures Contains(s, "laboratory") ==> Contains(s, "lab")
  {
    if Contains(s, "laboratory") {
      ContainsPrefixOfNeedle(s, "laboratory", "lab");
    }
  }

  /** Lower-casing both sides preserves an occurrence, so the lab test catches "Lab" and "LAB". */
  lemma ContainsLower(haystack: string, needle: string)
    requires Contains(haystack, needle)
    ensures Contains(Lower(haystack), Lower(needle))
  {
    var i :| 0 <= i <= |haystack| - |needle| && OccursAt(haystack, needle, i);
    var lh, ln := Lower(haystack), Lower(needle);
    forall k | 0 <= k < |needle|
      ensures lh[i..i + |needle|][k] == ln[k]
    {
      assert haystack[i..i + |needle|][k] == needle[k];
    }
    assert lh[i..i + |needle|] == ln;
    assert OccursAt(lh, ln, i);
  }

  /** A haystack without the needle's first character does not contain the needle. */
  lemma MissingFirstCharNotContains(haystack: string, needle: string)
    requires |needle| > 0 && needle[0] !in haystack
    ensures !Contains(haystack, needle)
  {
  }
}
