/** Shared by several modules: C strings and intervals of integers. */
module Common {

  const NUL := '\0'

  /** No NUL inside: the text of a C string without its terminator. */
  ghost predicate CString(t: string) { forall k :: 0 <= k < |t| ==> t[k] != NUL }

  predicate Within(x: int, lo: int, hi: int) { lo <= x < hi }

  function Interval(lo: int, hi: int): set<int> { set x | lo <= x < hi && Within(x, lo, hi) }

  lemma {:induction false} IntervalSize(lo: int, hi: int)
    requires lo <= hi
    ensures |Interval(lo, hi)| == hi - lo
    decreases hi - lo
  {
    if lo < hi {
      IntervalSize(lo, hi - 1);
      assert Interval(lo, hi) == Interval(lo, hi - 1) + {hi - 1};
    }
  }
}
