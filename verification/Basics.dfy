/** What several parts of the model share. */
module Basics {

  datatype Option<T> = None | Some(value: T)

  /** The largest int the source allows itself. */
  const MAX_INT := 0x7fff_ffff - 2

  function Pow2(n: nat): (p: nat)
    ensures p > 0
  {
    if n == 0 then 1 else 2 * Pow2(n - 1)
  }

  predicate IsDigit(c: char) { '0' <= c <= '9' }

  ghost predicate NoDup(l: seq<int>) {
    forall i, j :: 0 <= i < j < |l| ==> l[i] != l[j]
  }
}
