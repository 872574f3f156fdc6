/** NUL-terminated C strings as the window code reads them.

    A `CString` holds the characters before the terminator. The terminator
    itself is not stored: `CharAt(s, |s|)` is the `'\0'` that C finds just
    past the last character, so every read the C code may legally make of
    the string is an index `0 <= i <= |s|`. */
module CStrings {
  import opened Wrappers

  /** The contents of a C string: no NUL before the terminator. */
  type CString = s: string | '\0' !in s

  /** The character at offset `i` of a C string, terminator included. */
  function CharAt(s: CString, i: nat): (c: char)
    requires i <= |s|
    ensures c == '\0' <==> i == |s|
    ensures i < |s| ==> c == s[i]
  {
    if i < |s| then s[i] else '\0'
  }

  /** `needle` occurs in `hay` starting at index `i`. */
  predicate OccursAt(hay: string, needle: string, i: nat)
  {
    i + |needle| <= |hay| && hay[i..i + |needle|] == needle
  }

  /** `strstr(hay + from, needle)`: the first index at or after `from` where
      `needle` occurs, or `None` (a NULL result) when there is none. The
      empty needle occurs everywhere, so it is found at `from` itself. */
  function Find(hay: CString, needle: CString, from: nat): (r: Option<nat>)
    requires from <= |hay|
    ensures r.Some? ==> from <= r.value && OccursAt(hay, needle, r.value)
    ensures r.Some? ==> forall j :: from <= j < r.value ==> !OccursAt(hay, needle, j)
    ensures r.None? ==> forall j :: from <= j ==> !OccursAt(hay, needle, j)
    ensures needle == [] ==> r == Some(from)
    decreases |hay| - from
  {
    if OccursAt(hay, needle, from) then Some(from)
    else if from == |hay| then None
    else Find(hay, needle, from + 1)
  }
}
