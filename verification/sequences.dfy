/** Facts about sequences that the walks' proofs share. */
module Sequences {
  lemma ConcatAssoc<T>(x: seq<T>, y: seq<T>, z: seq<T>)
    ensures (x + y) + z == x + (y + z)
  {
  }

  /** A prefix of `r` has the same prefixes as `r` up to its own length. */
  lemma PrefixesOfPrefix<T>(r: seq<T>, v: seq<T>)
    requires |v| <= |r| && v == r[..|v|]
    ensures forall j :: 0 <= j <= |v| ==> r[..j] == v[..j]
  {
  }
}
