/** Small things that several parts of the kernel share. */
module Basics {
  const PAGE_SIZE: nat := 4096

  datatype Option<T> = None | Some(value: T)

  function DivCeil(a: nat, b: nat): nat
    requires b > 0
  {
    (a + b - 1) / b
  }

  /** How many more are needed. */
  function Extra(needed: nat, have: nat): nat
  {
    if needed > have then needed - have else 0
  }

  /** A sequence cut before and after one element. */
  lemma SplitAt<T>(s: seq<T>, k: nat)
    requires k < |s|
    ensures s[..k + 1] == s[..k] + [s[k]] && s == s[..k + 1] + s[k + 1..]
  {
  }
}
