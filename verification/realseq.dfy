/**
 Maximum, first-maximum index and minimum of a non-empty sequence of reals:
 the behaviour of `np.max`, `np.argmax`, Python's `max` and `min` on Q-values
 and distances (read as exact reals).
 */
module RealSeq {

  /** k holds a maximum of s and no earlier index holds that value. */
  predicate IsFirstMax(s: seq<real>, k: int) {
    && 0 <= k < |s|
    && (forall j :: 0 <= j < |s| ==> s[j] <= s[k])
    && (forall j :: 0 <= j < k ==> s[j] < s[k])
  }

  /** `np.argmax`: the lowest index holding the maximum. */
  function ArgMax(s: seq<real>): (k: nat)
    requires |s| > 0
    ensures IsFirstMax(s, k)
  {
    if |s| == 1 then 0
    else
      var k := ArgMax(s[..|s| - 1]);
      if s[|s| - 1] > s[k] then |s| - 1 else k
  }

  /** At most one index is a first maximum, so `ArgMax` is the only answer. */
  lemma FirstMaxUnique(s: seq<real>, k: int)
    requires IsFirstMax(s, k)
    ensures |s| > 0 && k == ArgMax(s)
  {
    var a := ArgMax(s);
    assert s[a] <= s[k] && s[k] <= s[a];
  }

  /** `np.max` / `max`: the largest element. */
  function Max(s: seq<real>): (m: real)
    requires |s| > 0
    ensures m in s
    ensures forall j :: 0 <= j < |s| ==> s[j] <= m
  {
    s[ArgMax(s)]
  }

  /** Multiplying by a non-negative factor keeps the order. */
  lemma MulMonotone(g: real, x: real, y: real)
    requires 0.0 <= g && x <= y
    ensures g * x <= g * y
  {
    assert g * y - g * x == g * (y - x);
  }

  /** `min`: the smallest element. */
  function Min(s: seq<real>): (m: real)
    requires |s| > 0
    ensures m in s
    ensures forall j :: 0 <= j < |s| ==> m <= s[j]
  {
    if |s| == 1 then s[0]
    else
      var m := Min(s[1..]);
      assert forall j :: 1 <= j < |s| ==> s[1..][j - 1] == s[j];
      if s[0] <= m then s[0] else m
  }
}
