/** Values shared by the scan and the listing: an optional value standing for a
    JavaScript `undefined`/`null`, the truthiness rules of `||`, and the ASCII
    character classes used by the extension check and the cover-name sanitiser. */
module Common {

  /** An absent value (`undefined` or `null`) or a present one. */
  datatype Option<+T> = None | Some(value: T)

  /** `s` is truthy in JavaScript: present and not the empty string. */
  predicate TruthyString(s: Option<string>) {
    s.Some? && s.value != ""
  }

  /** `n` is truthy in JavaScript: present and not 0. */
  predicate TruthyNumber(n: Option<int>) {
    n.Some? && n.value != 0
  }

  /** `s || fallback` for a string. */
  function StringOr(s: Option<string>, fallback: string): (r: string)
    ensures TruthyString(s) ==> r == s.value
    ensures !TruthyString(s) ==> r == fallback
    ensures fallback != "" ==> r != ""
  {
    if TruthyString(s) then s.value else fallback
  }

  /** `s || null` for a string: the empty string becomes null. */
  function StringOrNull(s: Option<string>): (r: Option<string>)
    ensures r != Some("")
    ensures r.Some? <==> TruthyString(s)
    ensures r.Some? ==> r == s
  {
    if TruthyString(s) then s else None
  }

  /** `n || null` for a number: 0 becomes null. */
  function NumberOrNull(n: Option<int>): (r: Option<int>)
    ensures r != Some(0)
    ensures r.Some? <==> TruthyNumber(n)
    ensures r.Some? ==> r == n
  {
    if TruthyNumber(n) then n else None
  }

  predicate IsUpper(c: char) { 'A' <= c <= 'Z' }
  predicate IsLower(c: char) { 'a' <= c <= 'z' }
  predicate IsDigit(c: char) { '0' <= c <= '9' }

  /** Membership in the character class `[a-zA-Z0-9]`. */
  predicate IsAlnum(c: char) { IsUpper(c) || IsLower(c) || IsDigit(c) }

  /** `toLowerCase` on one character, for the ASCII letters. */
  function LowerChar(c: char): (r: char)
    ensures IsUpper(c) ==> IsLower(r)
    ensures !IsUpper(c) ==> r == c
  {
    if IsUpper(c) then (c as int - 'A' as int + 'a' as int) as char else c
  }

  /** `toLowerCase` on a string, character by character. */
  function Lower(s: string): (r: string)
    ensures |r| == |s|
    ensures forall i :: 0 <= i < |s| ==> r[i] == LowerChar(s[i])
  {
    seq(|s|, i requires 0 <= i < |s| => LowerChar(s[i]))
  }
}
