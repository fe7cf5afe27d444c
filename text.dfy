/**
 * String helpers shared by the link matchers: substring occurrence
 * (`String.prototype.includes`), suffixes, and the JavaScript line
 * terminators that the regular-expression `.` does not match.
 */
module Text {

  /** The characters that `.` in a (non-dotAll) JavaScript regular expression refuses. */
  predicate IsLineTerminator(c: char) {
    c == '\n' || c == '\r' || c == '\U{2028}' || c == '\U{2029}'
  }

  /** `s[a..b]` is a run of characters that `.*` can consume. */
  predicate NoLineTerminatorIn(s: string, a: nat, b: nat)
    requires a <= b <= |s|
  {
    forall k :: a <= k < b ==> !IsLineTerminator(s[k])
  }

  /** `t` occurs in `s` starting at index `i`. */
  predicate OccursAt(s: string, i: nat, t: string) {
    i + |t| <= |s| && s[i..i + |t|] == t
  }

  predicate EndsWith(s: string, t: string) {
    |t| <= |s| && s[|s| - |t|..] == t
  }

  /** `s.includes(t)`: some occurrence of `t` at or after `i`. */
  function IncludesFrom(s: string, t: string, i: nat): (r: bool)
    decreases |s| - i
    ensures r <==> exists k: nat :: i <= k && OccursAt(s, k, t)
  {
    if i + |t| > |s| then false
    else OccursAt(s, i, t) || IncludesFrom(s, t, i + 1)
  }

  /** `s.includes(t)` */
  function Includes(s: string, t: string): (r: bool)
    ensures r <==> exists k: nat :: OccursAt(s, k, t)
  {
    IncludesFrom(s, t, 0)
  }

}
