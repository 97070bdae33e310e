/** Python's `s[lo:hi]` for non-negative bounds: both ends are clamped to the length. */
module Slicing {

  function Min(a: int, b: int): int
  {
    if a <= b then a else b
  }

  /** The items of `s` at positions lo, lo+1, ..., up to but excluding hi, as far as they exist. */
  function Slice<T>(s: seq<T>, lo: nat, hi: nat): (r: seq<T>)
    ensures |r| == if lo < hi && lo < |s| then Min(hi, |s|) - lo else 0
    ensures forall j :: 0 <= j < |r| ==> r[j] == s[lo + j]
  {
    if lo < hi && lo < |s| then s[lo..Min(hi, |s|)] else []
  }

  /** Slicing a suffix is slicing the whole sequence further along. */
  lemma SliceOfSuffix<T>(s: seq<T>, d: nat, lo: nat, hi: nat)
    requires d <= |s|
    ensures Slice(s[d..], lo, hi) == Slice(s, lo + d, hi + d)
  {
  }
}
