/** Text helpers for the cipher's setup: hexadecimal digits, and Python's
    slice `s[lo:hi]`, which clips its bounds to the length of the string
    instead of failing.
 */
module Hex {

  predicate IsHexDigit(c: char) {
    '0' <= c <= '9' || 'a' <= c <= 'f' || 'A' <= c <= 'F'
  }

  predicate AllHex(s: seq<char>) {
    forall i :: 0 <= i < |s| ==> IsHexDigit(s[i])
  }

  /** Python's slice `s[lo:hi]` for `0 <= lo <= hi`: bounds past the end are
      clipped, so a short string gives a short (possibly empty) slice. */
  function Slice<T>(s: seq<T>, lo: nat, hi: nat): (r: seq<T>)
    requires lo <= hi
    ensures |r| == (if hi <= |s| then hi - lo else if lo <= |s| then |s| - lo else 0)
    ensures forall i :: 0 <= i < |r| ==> r[i] == s[lo + i]
  {
    if hi <= |s| then s[lo..hi] else if lo <= |s| then s[lo..] else []
  }

  /** A slice of a hexadecimal string is hexadecimal. */
  lemma SliceOfHex(s: seq<char>, lo: nat, hi: nat)
    requires lo <= hi && AllHex(s)
    ensures AllHex(Slice(s, lo, hi))
  {
  }
}
