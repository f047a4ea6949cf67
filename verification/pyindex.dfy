/**
 Python lists and numpy arrays accept an index i of a length-n axis when
 -n <= i < n, reading position i + n for a negative i; any other index raises
 IndexError. The model keeps that wrap-around explicit.
 */
module PyIndex {

  /** The index is accepted by Python (no IndexError). */
  predicate InRange(i: int, n: int) {
    -n <= i < n
  }

  /** The position actually read for an accepted index. */
  function Norm(i: int, n: int): (k: nat)
    requires InRange(i, n)
    ensures k < n
    ensures 0 <= i ==> k == i
    ensures i < 0 ==> k + (-i) == n
  {
    if i < 0 then i + n else i
  }
}
