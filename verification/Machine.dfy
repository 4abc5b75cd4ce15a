/** The 32-bit machine underneath, and small things shared by all modules. */
module Machine {

  const MODULUS := 0x1_0000_0000
  const HALF := 0x8000_0000

  /** An unsigned 32-bit value. */
  type Word = n: nat | n < MODULUS

  /** A signed one. */
  type Long = n: int | -HALF <= n < HALF

  /** Unsigned 32-bit arithmetic. */
  function Wrap(n: int): (r: nat)
    ensures r < MODULUS
    ensures 0 <= n < MODULUS ==> r == n
  {
    n % MODULUS
  }

  datatype Option<T> = None | Some(value: T)

  /** No element twice. */
  predicate Distinct(s: seq<nat>) { forall i, j :: 0 <= i < j < |s| ==> s[i] != s[j] }
}
