/**
 * The parts of .NET's string library that the catalog relies on:
 * `char.IsWhiteSpace`, `string.IsNullOrEmpty`, `string.IsNullOrWhiteSpace`,
 * `ToLower` and ordinal `string.Contains`.
 *
 * A `string` is a sequence of `char`s, each standing for one UTF-16 code unit.
 */
module DotNetText {
  import opened Wrappers

  /** `char.IsWhiteSpace`: the Unicode White_Space characters. */
  predicate IsWhiteSpace(c: char)
  {
    || ('\t' <= c <= '\r')
    || c == ' '
    || c == '\U{85}'
    || c == '\U{A0}'
    || c == '\U{1680}'
    || ('\U{2000}' <= c <= '\U{200A}')
    || c == '\U{2028}'
    || c == '\U{2029}'
    || c == '\U{202F}'
    || c == '\U{205F}'
    || c == '\U{3000}'
  }

  predicate IsNullOrEmpty(s: Option<string>)
  {
    s.None? || s.value == []
  }

  /** True for `null`, the empty string and strings made only of white space. */
  predicate IsNullOrWhiteSpace(s: Option<string>)
  {
    s.None? || forall i :: 0 <= i < |s.value| ==> IsWhiteSpace(s.value[i])
  }

  /** Lower-casing, restricted to the ASCII letters. */
  function ToLowerChar(c: char): char
  {
    if 'A' <= c <= 'Z' then (c as int + 32) as char else c
  }

  function ToLower(s: string): (r: string)
    ensures |r| == |s|
  {
    seq(|s|, i requires 0 <= i < |s| => ToLowerChar(s[i]))
  }

  /** `needle` sits in `s` at position `i`. */
  predicate OccursAt(s: string, needle: string, i: int)
  {
    0 <= i && i + |needle| <= |s| && s[i..i + |needle|] == needle
  }

  /** The reference meaning of "`needle` is a substring of `s`". */
  ghost predicate IsSubstring(needle: string, s: string)
  {
    exists i :: OccursAt(s, needle, i)
  }

  /** Ordinal `s.Contains(needle)`: a left-to-right scan of the candidate positions. */
  function Contains(s: string, needle: string): bool
    decreases |s|
  {
    if |needle| > |s| then false
    else if s[..|needle|] == needle then true
    else Contains(s[1..], needle)
  }

  /** The scan finds `needle` exactly when it occurs somewhere in `s`. */
  lemma {:induction false} ContainsIsSubstring(s: string, needle: string)
    ensures Contains(s, needle) <==> IsSubstring(needle, s)
    decreases |s|
  {
    if |needle| > |s| {
      forall i ensures !OccursAt(s, needle, i) { }
    } else if s[..|needle|] == needle {
      assert OccursAt(s, needle, 0);
    } else {
      ContainsIsSubstring(s[1..], needle);
      if Contains(s[1..], needle) {
        var i :| OccursAt(s[1..], needle, i);
        assert forall j :: 0 <= j < |needle| ==> needle[j] == s[i + 1 + j];
        assert OccursAt(s, needle, i + 1);
      }
      if IsSubstring(needle, s) {
        var i :| OccursAt(s, needle, i);
        assert i != 0;
        assert forall j :: 0 <= j < |needle| ==> needle[j] == s[1..][i - 1 + j];
        assert OccursAt(s[1..], needle, i - 1);
      }
    }
  }
}
