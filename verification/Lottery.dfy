/** The lottery branch of scheduler() in proc.c and random_at_most in rand.c. */
module Lottery {
  import opened Common

  const RAND_MAX := 0x7fff_ffff
  const NUM_RAND := 0x8000_0000

  /** What the lottery looks at in a process. */
  datatype Proc = Proc(runnable: bool, tickets: nat)

  // ---- drawing a number ----

  function BinSize(max: nat): nat { NUM_RAND / (max + 1) }

  /** The outputs that are not thrown away. */
  predicate Accepted(max: nat, x: int) { 0 <= x < NUM_RAND - NUM_RAND % (max + 1) }

  /** Where bin w begins, for bins of size n. */
  function Bin(w: nat, n: nat): nat {
    if w == 0 then 0 else Bin(w - 1, n) + n
  }

  lemma {:induction false} BinIsProduct(w: nat, n: nat)
    ensures Bin(w, n) == w * n
  {
    if w > 0 { BinIsProduct(w - 1, n); }
  }

  lemma {:induction false} BinMono(v: nat, w: nat, n: nat)
    requires v <= w
    ensures Bin(v, n) <= Bin(w, n)
  {
    if v < w { BinMono(v, w - 1, n); }
  }

  /** Dividing by the bin size finds the bin: quotient w is reached where bin w begins. */
  lemma DivBin(x: nat, n: nat, w: nat, q: nat)
    requires n > 0 && q == x / n
    ensures w <= q <==> Bin(w, n) <= x
  {
    BinIsProduct(q, n);
    assert Bin(q, n) <= x < Bin(q + 1, n);
    if w <= q { BinMono(w, q, n); } else { BinMono(q + 1, w, n); }
  }

  /** The accepted outputs fill max + 1 bins of equal size. */
  lemma BinsFill(max: nat)
    requires max <= RAND_MAX
    ensures BinSize(max) > 0 && Bin(max + 1, BinSize(max)) == NUM_RAND - NUM_RAND % (max + 1) <= NUM_RAND
  {
    BinIsProduct(max + 1, BinSize(max));
  }

  /** random_at_most: the first accepted output decides, and falls into its bin. The generator's outputs are
      given; none accepted among them means that the loop has not ended yet. */
  method RandomAtMost(max: nat, outs: seq<nat>) returns (r: int, used: nat)
    requires max <= RAND_MAX
    requires forall k :: 0 <= k < |outs| ==> outs[k] < NUM_RAND
    ensures used <= |outs|
    ensures r == -1 ==> forall k :: 0 <= k < |outs| ==> !Accepted(max, outs[k])
    ensures r != -1 ==> 0 < used && Accepted(max, outs[used - 1]) && 0 <= r <= max
    ensures r != -1 ==> Bin(r, BinSize(max)) <= outs[used - 1] < Bin(r + 1, BinSize(max))
    ensures r != -1 ==> forall k :: 0 <= k < used - 1 ==> !Accepted(max, outs[k])
  {
    var numBins, numRand := max + 1, RAND_MAX + 1;
    var binSize, defect := numRand / numBins, numRand % numBins;
    BinsFill(max);
    used := 0;
    while used < |outs|
      invariant 0 <= used <= |outs|
      invariant forall k :: 0 <= k < used ==> !Accepted(max, outs[k])
    {
      var x := outs[used];
      used := used + 1;
      if !(numRand - defect <= x) {
        r := x / binSize;
        InItsBin(x, binSize, max);
        return;
      }
    }
    r := -1;
  }

  lemma InItsBin(x: nat, n: nat, max: nat)
    requires n > 0 && x < Bin(max + 1, n)
    ensures 0 <= x / n <= max && Bin(x / n, n) <= x < Bin(x / n + 1, n)
  {
    var q := x / n;
    DivBin(x, n, q, q);
    DivBin(x, n, q + 1, q);
    DivBin(x, n, max + 1, q);
  }

  // ---- choosing a process ----

  /** Tickets of the RUNNABLE processes among the first n. */
  function Prefix(t: seq<Proc>, n: nat): nat
    requires n <= |t|
  {
    if n == 0 then 0 else Prefix(t, n - 1) + (if t[n - 1].runnable then t[n - 1].tickets else 0)
  }

  lemma {:induction false} PrefixMono(t: seq<Proc>, m: nat, n: nat)
    requires m <= n <= |t|
    ensures Prefix(t, m) <= Prefix(t, n)
  {
    if m < n { PrefixMono(t, m, n - 1); }
  }

  /** No RUNNABLE process comes before k. */
  ghost predicate FirstUpTo(t: seq<Proc>, k: nat)
    requires k <= |t|
  {
    forall j :: 0 <= j < k ==> !t[j].runnable
  }

  lemma {:induction false} NothingBefore(t: seq<Proc>, k: nat)
    requires k <= |t| && FirstUpTo(t, k)
    ensures Prefix(t, k) == 0
  {
    if k > 0 { NothingBefore(t, k - 1); }
  }

  /** The scan stops at k for the winning number w: k is RUNNABLE and the first whose tickets reach w. */
  ghost predicate Picks(t: seq<Proc>, w: int, k: nat) {
    && k < |t| && t[k].runnable && w <= Prefix(t, k + 1)
    && (forall j :: 0 <= j < k && t[j].runnable ==> Prefix(t, j + 1) < w)
  }

  /** The first loop of the scheduler. */
  method TotalTickets(t: seq<Proc>) returns (total: nat)
    ensures total == Prefix(t, |t|)
  {
    total := 0;
    for p := 0 to |t|
      invariant total == Prefix(t, p)
    {
      if t[p].runnable { total := total + t[p].tickets; }
    }
  }

  /** The second loop: it finds a process if and only if one is RUNNABLE and the winner is within the tickets there
      are by now (they were summed before, without the lock). */
  method Pick(t: seq<Proc>, winner: nat) returns (k: int)
    ensures k == -1 <==> FirstUpTo(t, |t|) || winner > Prefix(t, |t|)
    ensures k != -1 ==> 0 <= k && Picks(t, winner, k)
  {
    var passed := 0;
    for p := 0 to |t|
      invariant passed == Prefix(t, p)
      invariant forall j :: 0 <= j < p && t[j].runnable ==> Prefix(t, j + 1) < winner
    {
      if t[p].runnable {
        passed := passed + t[p].tickets;
        if !(passed < winner) {
          PrefixMono(t, p + 1, |t|);
          return p;
        }
      }
    }
    if !FirstUpTo(t, |t|) {
      ghost var j := LastRunnable(t, |t|);
    }
    k := -1;
  }

  /** After the last RUNNABLE process the count does not change. */
  lemma {:induction false} LastRunnable(t: seq<Proc>, n: nat) returns (j: nat)
    requires n <= |t| && !FirstUpTo(t, n)
    ensures j < n && t[j].runnable && Prefix(t, j + 1) == Prefix(t, n)
  {
    if t[n - 1].runnable { j := n - 1; } else { j := LastRunnable(t, n - 1); }
  }

  /** Which numbers win for process k: those above the tickets before it and up to its own; 0 goes to the first. */
  lemma PicksIff(t: seq<Proc>, w: nat, k: nat)
    requires k < |t| && t[k].runnable
    ensures Picks(t, w, k) <==> (FirstUpTo(t, k) || Prefix(t, k) < w) && w <= Prefix(t, k + 1)
  {
    if !FirstUpTo(t, k) {
      var j := LastRunnable(t, k);
      forall i | 0 <= i < k && t[i].runnable ensures Prefix(t, i + 1) <= Prefix(t, k) { PrefixMono(t, i + 1, k); }
    }
  }

  // ---- shares ----

  /** The accepted outputs that make the scheduler choose k. */
  ghost function Outputs(t: seq<Proc>, k: nat): set<int> {
    set x | 0 <= x < NUM_RAND && Chooses(t, x, k)
  }

  /** Output x is accepted for this table and its bin picks k. */
  ghost predicate Chooses(t: seq<Proc>, x: int, k: nat) {
    var max := Prefix(t, |t|);
    Accepted(max, x) && BinSize(max) > 0 && Picks(t, x / BinSize(max), k)
  }

  function ShareLow(t: seq<Proc>, k: nat): int
    requires k < |t|
  {
    if forall j :: 0 <= j < k ==> !t[j].runnable then 0 else Bin(Prefix(t, k) + 1, BinSize(Prefix(t, |t|)))
  }

  function ShareHigh(t: seq<Proc>, k: nat): int
    requires k < |t|
  {
    Bin(Prefix(t, k + 1) + 1, BinSize(Prefix(t, |t|)))
  }

  lemma ChoosesIff(t: seq<Proc>, x: nat, k: nat, max: nat, n: nat, w: nat)
    requires max == Prefix(t, |t|) <= RAND_MAX && n == BinSize(max) && n > 0 && w == x / n
    requires k < |t| && t[k].runnable
    ensures Chooses(t, x, k) <==> ShareLow(t, k) <= x < ShareHigh(t, k)
  {
    BinsFill(max);
    PrefixMono(t, k + 1, |t|);
    BinMono(Prefix(t, k + 1) + 1, max + 1, n);
    DivBin(x, n, Prefix(t, k) + 1, w);
    DivBin(x, n, Prefix(t, k + 1) + 1, w);
    PicksIff(t, w, k);
  }

  /** The outputs that choose k are an interval. */
  lemma OutputsInterval(t: seq<Proc>, k: nat)
    requires Prefix(t, |t|) <= RAND_MAX && k < |t| && t[k].runnable
    ensures Outputs(t, k) == Interval(ShareLow(t, k), ShareHigh(t, k))
  {
    var lo, hi, max := ShareLow(t, k), ShareHigh(t, k), Prefix(t, |t|);
    var n := BinSize(max);
    BinsFill(max);
    PrefixMono(t, k + 1, |t|);
    BinMono(Prefix(t, k + 1) + 1, max + 1, n);
    forall x: int ensures x in Outputs(t, k) <==> x in Interval(lo, hi) {
      if x >= 0 { ChoosesIff(t, x, k, max, n, x / n); }
      assert x in Interval(lo, hi) <==> Within(x, lo, hi);
    }
  }

  /** Fair shares: exactly tickets * bin size accepted outputs choose process k; the first RUNNABLE process has one
      bin more, the one of the winning number 0. */
  lemma Share(t: seq<Proc>, k: nat)
    requires Prefix(t, |t|) <= RAND_MAX && k < |t| && t[k].runnable
    ensures |Outputs(t, k)| == (t[k].tickets + (if FirstUpTo(t, k) then 1 else 0)) * BinSize(Prefix(t, |t|))
  {
    var lo, hi, n := ShareLow(t, k), ShareHigh(t, k), BinSize(Prefix(t, |t|));
    OutputsInterval(t, k);
    if FirstUpTo(t, k) { NothingBefore(t, k); }
    BinMono(Prefix(t, k) + 1, Prefix(t, k + 1) + 1, n);
    ShareWidth(Prefix(t, k), t[k].tickets, n);
    IntervalSize(lo, hi);
  }

  lemma ShareWidth(p: nat, tickets: nat, n: nat)
    ensures Bin(p + tickets + 1, n) - Bin(p + 1, n) == tickets * n
    ensures p == 0 ==> Bin(tickets + 1, n) == (tickets + 1) * n
  {
    BinIsProduct(p + tickets + 1, n);
    BinIsProduct(p + 1, n);
    assert (p + tickets + 1) * n == (p + 1) * n + tickets * n;
  }
}
