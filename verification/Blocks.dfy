/** Blocks of memory: writing one range of an array, from elsewhere or from the array itself. */
module Blocks {
  /** `b` with `w` written over the elements from `at` on. */
  function Splice<T>(b: seq<T>, at: nat, w: seq<T>): (r: seq<T>)
    requires at + |w| <= |b|
    ensures |r| == |b|
  {
    b[..at] + w + b[at + |w|..]
  }

  lemma SpliceSlices<T>(b: seq<T>, at: nat, w: seq<T>)
    requires at + |w| <= |b|
    ensures var r := Splice(b, at, w);
            r[..at] == b[..at] && r[at..at + |w|] == w && r[at + |w|..] == b[at + |w|..]
  {
  }

  /** `memmove`: the ranges may overlap, the destination gets what the source held before. */
  method MemMove<T>(a: array<T>, dst: nat, src: nat, n: nat)
    requires dst + n <= a.Length && src + n <= a.Length
    modifies a
    ensures a[..] == Splice(old(a[..]), dst, old(a[..])[src..src + n])
  {
    forall i | 0 <= i < n {
      a[dst + i] := a[src + i];
    }
  }

  /** `memcpy` from a block that is not part of the array. */
  method MemCopy<T>(a: array<T>, at: nat, w: seq<T>)
    requires at + |w| <= a.Length
    modifies a
    ensures a[..] == Splice(old(a[..]), at, w)
  {
    forall i | 0 <= i < |w| {
      a[at + i] := w[i];
    }
  }
}
