/** How large the on-disk log must be: when `log_write` panics, when it writes past the log area, and when what is
    committed is durable. Every operation may log ten new blocks; that is what the interface allows (param.h:10,
    log.c:132), and no one system call is claimed to use it up. */
module LogLimits {
  import opened LogSpec
  import opened LogRuns

  // ---- the reservation ----

  /** In every reachable running state, used entries plus unused allowances fit LOGSIZE and no block is
      logged twice. */
  lemma ReservationFits(l: Layout, init: Disk, procs: nat, steps: seq<Step>, states: seq<State>, i: nat)
    requires IsRun(l, init, procs, steps, states) && i < |states| && NoOverrun(l, states, i)
    requires states[i].log.phase.Running?
    ensures |states[i].log.lh| + Allowance(states[i].log.slots) <= LOGSIZE
    ensures Distinct(states[i].log.lh) && |states[i].log.lh| < l.size
    ensures forall p :: InOp(states[i], p) ==> 0 <= Owed(states[i].log.slots[p]) <= Allowance(states[i].log.slots)
  {
    RunInv(l, init, procs, steps, states, i);
    AllowanceBound(states[i].log.slots);
  }

  /** State s is about to panic in `log_write` although the caller has allowance left. */
  ghost predicate PanicsEarly(l: Layout, s: State, p: nat, b: int) {
    && Enabled(l, s, LogTest(p, b))
    && s.log.slots[p].used < MAXOPBLOCKS
    && TooBig(l, s)
  }

  ghost predicate PanicReachable(l: Layout, init: Disk, procs: nat) {
    exists steps, states, p, b :: IsRun(l, init, procs, steps, states) && PanicsEarly(l, states[|steps|], p, b)
  }

  /** With more than LOGSIZE blocks of log, a call of `log_write` panics if and only if the transaction has LOGSIZE
      blocks. Then the block is in it already, and no running operation has anything left of its allowance. */
  lemma PanicsIffFull(l: Layout, init: Disk, procs: nat, steps: seq<Step>, states: seq<State>, p: nat, b: int)
    requires l.size > LOGSIZE && IsRun(l, init, procs, steps, states) && Enabled(l, states[|steps|], LogTest(p, b))
    ensures var s := states[|steps|];
            && (Do(l, s, LogTest(p, b)).log.panicked <==> |s.log.lh| == LOGSIZE)
            && (|s.log.lh| == LOGSIZE ==>
                  b in s.log.lh && forall q :: InOp(s, q) ==> s.log.slots[q].used == MAXOPBLOCKS)
  {
    var s := states[|steps|];
    ReservationFits(l, init, procs, steps, states, |steps|);
    if |s.log.lh| == LOGSIZE {
      forall q | InOp(s, q) ensures s.log.slots[q].used == MAXOPBLOCKS {
        assert Owed(s.log.slots[q]) == 0;
      }
      assert InOp(s, p);
    }
  }

  lemma NoEarlyPanic(l: Layout, init: Disk, procs: nat, steps: seq<Step>, states: seq<State>, p: nat, b: int)
    requires l.size > LOGSIZE && IsRun(l, init, procs, steps, states)
    ensures !PanicsEarly(l, states[|steps|], p, b)
  {
    if Enabled(l, states[|steps|], LogTest(p, b)) { PanicsIffFull(l, init, procs, steps, states, p, b); }
  }

  // ---- three operations that fill the log ----

  lemma ExtendRun(l: Layout, init: Disk, procs: nat, steps: seq<Step>, states: seq<State>, a: Step)
      returns (steps': seq<Step>, states': seq<State>)
    requires IsRun(l, init, procs, steps, states) && Enabled(l, states[|steps|], a)
    ensures IsRun(l, init, procs, steps', states')
    ensures |steps'| == |steps| + 1 && states'[|steps'|] == Do(l, states[|steps|], a)
  {
    steps', states' := steps + [a], states + [Do(l, states[|steps|], a)];
  }

  /** Distinct blocks to log. */
  ghost predicate Homes(l: Layout, homes: seq<int>) {
    |homes| == LOGSIZE && Distinct(homes) && forall i :: 0 <= i < LOGSIZE ==> Home(l, homes[i])
  }

  /** The entries operation p has added once k blocks have been logged, by the three operations in turn. */
  function UsedAfter(k: nat, p: nat): nat
    requires p < 3
  {
    (k + 2 - p) / 3
  }

  /** Three operations are running and have logged the first k of `homes`. */
  ghost predicate Filling(l: Layout, s: State, homes: seq<int>, k: nat) {
    && LogEmpty(l, s.disk) && k <= |homes| && s.hist.groups == []
    && s.log.phase.Running? && !s.log.panicked && s.log.outstanding == 3 && s.log.lh == homes[..k]
    && s.buf.held == map[] && s.log.passed == map[]
    && |s.log.slots| >= 3
    && forall p: nat :: p < 3 ==> s.log.slots[p].Busy? && s.log.slots[p].used == UsedAfter(k, p)
  }

  /** Up to the end of the recovery at boot. */
  lemma BootRun(l: Layout, init: Disk, procs: nat) returns (steps: seq<Step>, states: seq<State>)
    requires LogEmpty(l, init) && procs >= 3
    ensures IsRun(l, init, procs, steps, states)
    ensures var s := states[|steps|];
            && LogEmpty(l, s.disk) && s.log.phase.Running? && !s.log.panicked && !s.log.committing
            && s.log.outstanding == 0 && s.log.lh == [] && s.buf.held == map[] && s.log.passed == map[]
            && s.hist.groups == [] && |s.log.slots| == procs && (forall p: nat :: p < procs ==> s.log.slots[p].Idle?)
  {
    steps, states := [], [Boots(init, procs, 0, [])];
    steps, states := ExtendRun(l, init, procs, steps, states, Boot);
    assert TransOk(l, []);
    steps, states := ExtendRun(l, init, procs, steps, states, RecoverWrite);
  }

  lemma StartFilling(l: Layout, init: Disk, procs: nat, homes: seq<int>)
      returns (steps: seq<Step>, states: seq<State>)
    requires LogEmpty(l, init) && procs >= 3
    ensures IsRun(l, init, procs, steps, states) && Filling(l, states[|steps|], homes, 0)
  {
    steps, states := BootRun(l, init, procs);
    steps, states := ExtendRun(l, init, procs, steps, states, BeginOp(0));
    steps, states := ExtendRun(l, init, procs, steps, states, BeginOp(1));
    steps, states := ExtendRun(l, init, procs, steps, states, BeginOp(2));
    assert homes[..0] == [];
  }

  lemma NextUnlogged(homes: seq<int>, k: nat)
    requires k < |homes| && Distinct(homes)
    ensures homes[k] !in homes[..k] && homes[..k] + [homes[k]] == homes[..k + 1]
  {
    if homes[k] in homes[..k] {
      var i :| 0 <= i < k && homes[i] == homes[k];
      assert At(homes, i, homes[k]) && At(homes, k, homes[k]);
    }
  }

  /** What one more entry does to the counts. */
  lemma UsedNext(k: nat, p: nat, q: nat)
    requires p == k % 3 && q < 3 && k < LOGSIZE
    ensures UsedAfter(k + 1, q) == UsedAfter(k, q) + (if q == p then 1 else 0)
    ensures UsedAfter(k, p) < MAXOPBLOCKS
  {
  }

  /** The next block is changed, tested and logged. */
  lemma FillOne(l: Layout, init: Disk, procs: nat, steps: seq<Step>, states: seq<State>, homes: seq<int>, k: nat)
      returns (steps': seq<Step>, states': seq<State>)
    requires IsRun(l, init, procs, steps, states) && Filling(l, states[|steps|], homes, k) && Homes(l, homes)
    requires k < LOGSIZE && k + 1 < l.size
    ensures IsRun(l, init, procs, steps', states') && Filling(l, states'[|steps'|], homes, k + 1)
  {
    var p, b := k % 3, homes[k];
    NextUnlogged(homes, k);
    forall q: nat | q < 3 ensures UsedAfter(k + 1, q) == UsedAfter(k, q) + (if q == p then 1 else 0) {
      UsedNext(k, p, q);
    }
    UsedNext(k, p, p);
    steps', states' := ExtendRun(l, init, procs, steps, states, Modify(p, b, Block([])));
    steps', states' := ExtendRun(l, init, procs, steps', states', LogTest(p, b));
    steps', states' := ExtendRun(l, init, procs, steps', states', LogAppend(p));
    assert states'[|steps'|].buf.held == map[] && states'[|steps'|].log.passed == map[];
  }

  lemma {:induction false} FillTo(l: Layout, init: Disk, procs: nat, homes: seq<int>, k: nat)
      returns (steps: seq<Step>, states: seq<State>)
    requires LogEmpty(l, init) && procs >= 3 && Homes(l, homes) && k <= LOGSIZE && k < l.size
    ensures IsRun(l, init, procs, steps, states) && Filling(l, states[|steps|], homes, k)
  {
    if k == 0 {
      steps, states := StartFilling(l, init, procs, homes);
    } else {
      steps, states := FillTo(l, init, procs, homes, k - 1);
      steps, states := FillOne(l, init, procs, steps, states, homes, k - 1);
    }
  }

  // ---- panics ----

  /** With no more than LOGSIZE blocks of log, the three run into the panic before they are done. */
  lemma PanicReached(l: Layout, init: Disk, procs: nat, homes: seq<int>)
    requires LogEmpty(l, init) && procs >= 3 && l.size <= LOGSIZE && Homes(l, homes)
    ensures PanicReachable(l, init, procs)
  {
    var k := l.size - 1;
    var steps, states := FillTo(l, init, procs, homes, k);
    var p, b := k % 3, homes[k];
    NextUnlogged(homes, k);
    UsedNext(k, p, p);
    steps, states := ExtendRun(l, init, procs, steps, states, Modify(p, b, Block([])));
    assert PanicsEarly(l, states[|steps|], p, b);
  }

  /** The reservation made by `begin_op` protects an operation with allowance left from the panic exactly
      when the on-disk log has a slot for each of LOGSIZE blocks besides its header. An image built with
      nlog == LOGSIZE is one block short. */
  lemma ReservationSoundIff(l: Layout, init: Disk, procs: nat, homes: seq<int>)
    requires LogEmpty(l, init) && procs >= 3 && Homes(l, homes)
    ensures PanicReachable(l, init, procs) <==> l.size <= LOGSIZE
  {
    if l.size <= LOGSIZE {
      PanicReached(l, init, procs, homes);
    } else if PanicReachable(l, init, procs) {
      var steps, states, p, b :| IsRun(l, init, procs, steps, states) && PanicsEarly(l, states[|steps|], p, b);
      NoEarlyPanic(l, init, procs, steps, states, p, b);
    }
  }

  /** However large the log is, there is a run in which `log_write` panics on a block that needs no new entry: when
      LOGSIZE blocks are logged, changing one of them once more. */
  lemma AbsorbedPanic(l: Layout, init: Disk, procs: nat, homes: seq<int>)
      returns (steps: seq<Step>, states: seq<State>, p: nat, b: int)
    requires LogEmpty(l, init) && procs >= 3 && l.size > LOGSIZE && Homes(l, homes)
    ensures IsRun(l, init, procs, steps, states) && Enabled(l, states[|steps|], LogTest(p, b))
    ensures b in states[|steps|].log.lh && Do(l, states[|steps|], LogTest(p, b)).log.panicked
  {
    steps, states := FillTo(l, init, procs, homes, LOGSIZE);
    p, b := 0, homes[0];
    assert homes[..LOGSIZE] == homes;
    steps, states := ExtendRun(l, init, procs, steps, states, Modify(p, b, Block([])));
  }

  // ---- past the end of the log ----

  /** More blocks are logged than the log area has slots for. */
  predicate Overrun(l: Layout, s: State) { s.log.phase.Running? && |s.log.lh| >= l.size }

  ghost predicate OverrunReachable(l: Layout, init: Disk, procs: nat) {
    exists steps, states :: IsRun(l, init, procs, steps, states) && Overrun(l, states[|steps|])
  }

  /** Two operations change a block each, both pass the test while there is one slot left, and both log their block. */
  lemma RaceOver(l: Layout, init: Disk, procs: nat, steps: seq<Step>, states: seq<State>, homes: seq<int>, d: Block)
      returns (steps': seq<Step>, states': seq<State>)
    requires 2 <= l.size <= LOGSIZE && Homes(l, homes)
    requires IsRun(l, init, procs, steps, states) && Filling(l, states[|steps|], homes, l.size - 2)
    ensures IsRun(l, init, procs, steps', states') && Filling(l, states'[|steps'|], homes, l.size)
    ensures homes[l.size - 1] in states'[|steps'|].buf.cache && states'[|steps'|].buf.cache[homes[l.size - 1]] == d
  {
    var k := l.size - 2;
    var p, q, b, c := k % 3, (k + 1) % 3, homes[k], homes[k + 1];
    NextUnlogged(homes, k);
    NextUnlogged(homes, k + 1);
    UsedTwice(k, p, q);
    steps', states' := BothPass(l, init, procs, steps, states, p, q, b, c, d);
    steps', states' := BothAppend(l, init, procs, steps', states', p, q, b, c);
    assert homes[..k] + [b] + [c] == homes[..l.size];
  }

  lemma UsedTwice(k: nat, p: nat, q: nat)
    requires p == k % 3 && q == (k + 1) % 3 && k + 1 < LOGSIZE
    ensures forall r: nat :: r < 3 ==> UsedAfter(k + 2, r) == UsedAfter(k, r) + (if r == p || r == q then 1 else 0)
    ensures p != q && UsedAfter(k, p) < MAXOPBLOCKS && UsedAfter(k, q) < MAXOPBLOCKS
  {
  }

  lemma BothPass(l: Layout, init: Disk, procs: nat, steps: seq<Step>, states: seq<State>, p: nat, q: nat, b: int,
                 c: int, d: Block)
      returns (steps': seq<Step>, states': seq<State>)
    requires IsRun(l, init, procs, steps, states) && p < 3 && q < 3 && p != q && b != c && Home(l, b) && Home(l, c)
    requires var s := states[|steps|];
             && LogEmpty(l, s.disk) && s.log.phase.Running? && !s.log.panicked && !TooBig(l, s)
             && s.buf.held == map[] && s.log.passed == map[] && |s.log.slots| >= 3
             && s.log.slots[p].Busy? && s.log.slots[p].used < MAXOPBLOCKS
             && s.log.slots[q].Busy? && s.log.slots[q].used < MAXOPBLOCKS
    ensures IsRun(l, init, procs, steps', states')
    ensures var s := states[|steps|];
            states'[|steps'|] ==
              s.(buf := s.buf.(cache := s.buf.cache[b := Block([])][c := d], held := map[b := p, c := q]),
                 log := s.log.(passed := map[p := b, q := c]))
  {
    steps', states' := ExtendRun(l, init, procs, steps, states, Modify(p, b, Block([])));
    steps', states' := ExtendRun(l, init, procs, steps', states', Modify(q, c, d));
    steps', states' := ExtendRun(l, init, procs, steps', states', LogTest(p, b));
    steps', states' := ExtendRun(l, init, procs, steps', states', LogTest(q, c));
  }

  lemma BothAppend(l: Layout, init: Disk, procs: nat, steps: seq<Step>, states: seq<State>, p: nat, q: nat, b: int,
                   c: int)
      returns (steps': seq<Step>, states': seq<State>)
    requires IsRun(l, init, procs, steps, states) && p < 3 && q < 3 && p != q && b != c && Home(l, b) && Home(l, c)
    requires var s := states[|steps|];
             && LogEmpty(l, s.disk) && s.log.phase.Running? && !s.log.panicked && b in s.buf.cache && c in s.buf.cache
             && s.buf.held == map[b := p, c := q] && s.log.passed == map[p := b, q := c] && |s.log.slots| >= 3
             && s.log.slots[p].Busy? && s.log.slots[p].used < MAXOPBLOCKS
             && s.log.slots[q].Busy? && s.log.slots[q].used < MAXOPBLOCKS && b !in s.log.lh && c !in s.log.lh
    ensures IsRun(l, init, procs, steps', states')
    ensures var s, t := states[|steps|], states'[|steps'|];
            && t.disk == s.disk && t.buf.cache == s.buf.cache && t.buf.held == map[] && t.hist.groups == s.hist.groups
            && t.log == s.log.(passed := map[], lh := s.log.lh + [b] + [c],
                               slots := s.log.slots[p := s.log.slots[p].(used := s.log.slots[p].used + 1)]
                                                   [q := s.log.slots[q].(used := s.log.slots[q].used + 1)])
  {
    var s := states[|steps|];
    var t := AppendIs(l, s, p, Write(s.log.slots[p].op, b, s.buf.cache[b]));
    steps', states' := ExtendRun(l, init, procs, steps, states, LogAppend(p));
    assert t.buf.held == map[c := q] && t.log.passed == map[q := c];
    var u := AppendIs(l, t, q, Write(t.log.slots[q].op, c, t.buf.cache[c]));
    steps', states' := ExtendRun(l, init, procs, steps', states', LogAppend(q));
    assert u.buf.held == map[] && u.log.passed == map[];
  }

  /** A log of one block takes no entry at all. */
  lemma {:induction false} TinyLog(l: Layout, init: Disk, procs: nat, steps: seq<Step>, states: seq<State>, i: nat)
    requires IsRun(l, init, procs, steps, states) && i < |states| && l.size == 1
    ensures states[i].log.lh == [] && states[i].log.passed == map[]
  {
    if i > 0 {
      TinyLog(l, init, procs, steps, states, i - 1);
      TinyStep(l, states[i - 1], steps[i - 1]);
    }
  }

  lemma TinyStep(l: Layout, s: State, a: Step)
    requires Enabled(l, s, a) && l.size == 1 && s.log.lh == [] && s.log.passed == map[]
    ensures Do(l, s, a).log.lh == [] && Do(l, s, a).log.passed == map[]
  {
  }

  lemma {:induction false} NeverOverrun(l: Layout, init: Disk, procs: nat, steps: seq<Step>, states: seq<State>)
    requires IsRun(l, init, procs, steps, states) && (l.size == 1 || l.size > LOGSIZE)
    ensures NoOverrun(l, states, |steps|)
  {
    if l.size == 1 {
      forall k | 0 <= k <= |steps| ensures |states[k].log.lh| < l.size { TinyLog(l, init, procs, steps, states, k); }
    }
  }

  /** The test in `log_write` does not keep the transaction within the log area, since it is made without the lock;
      the reservation does, exactly in a log of more than LOGSIZE blocks (or in one that takes no entry). */
  lemma OverrunIff(l: Layout, init: Disk, procs: nat, homes: seq<int>)
    requires LogEmpty(l, init) && procs >= 3 && Homes(l, homes)
    ensures OverrunReachable(l, init, procs) <==> 2 <= l.size <= LOGSIZE
  {
    if 2 <= l.size <= LOGSIZE {
      var steps, states := FillTo(l, init, procs, homes, l.size - 2);
      steps, states := RaceOver(l, init, procs, steps, states, homes, Block([]));
      assert Overrun(l, states[|steps|]);
    } else if OverrunReachable(l, init, procs) {
      var steps, states :| IsRun(l, init, procs, steps, states) && Overrun(l, states[|steps|]);
      NeverOverrun(l, init, procs, steps, states);
      ReservationFits(l, init, procs, steps, states, |steps|);
    }
  }

  // ---- durability ----

  /** A crash now would leave a disk that recovers to the committed groups. */
  ghost predicate Survives(l: Layout, init: Disk, s: State) {
    LogOk(l, s.disk) && SameHome(l, Recovered(l, s.disk), Effect(init, s.hist.groups))
  }

  ghost predicate AlwaysDurable(l: Layout, init: Disk, procs: nat) {
    forall steps, states :: IsRun(l, init, procs, steps, states) ==> Survives(l, init, states[|steps|])
  }

  /** The commit of a transaction that has overrun the log, k blocks into `write_log`. */
  ghost predicate Spilling(l: Layout, s: State, homes: seq<int>, k: nat, d: Block) {
    && LogEmpty(l, s.disk) && s.hist.groups == [] && !s.log.panicked
    && s.log.phase == Committing(k) && 0 < l.size <= |homes| && s.log.lh == homes[..l.size]
    && homes[l.size - 1] in s.buf.cache && s.buf.cache[homes[l.size - 1]] == d
  }

  lemma SpillStart(l: Layout, init: Disk, procs: nat, steps: seq<Step>, states: seq<State>, homes: seq<int>, d: Block)
      returns (steps': seq<Step>, states': seq<State>)
    requires IsRun(l, init, procs, steps, states) && Filling(l, states[|steps|], homes, l.size) && 0 < l.size
    requires homes[l.size - 1] in states[|steps|].buf.cache && states[|steps|].buf.cache[homes[l.size - 1]] == d
    ensures IsRun(l, init, procs, steps', states') && Spilling(l, states'[|steps'|], homes, 0, d)
  {
    steps', states' := ExtendRun(l, init, procs, steps, states, EndOp(0));
    steps', states' := ExtendRun(l, init, procs, steps', states', EndOp(1));
    steps', states' := ExtendRun(l, init, procs, steps', states', EndOp(2));
  }

  lemma {:induction false} SpillTo(l: Layout, init: Disk, procs: nat, steps: seq<Step>, states: seq<State>,
                                   homes: seq<int>, d: Block, k: nat)
      returns (steps': seq<Step>, states': seq<State>)
    requires IsRun(l, init, procs, steps, states) && Spilling(l, states[|steps|], homes, 0, d) && Homes(l, homes)
    requires k < l.size <= LOGSIZE && Home(l, l.start + l.size)
    ensures IsRun(l, init, procs, steps', states') && Spilling(l, states'[|steps'|], homes, k, d)
  {
    if k == 0 {
      steps', states' := steps, states;
    } else {
      steps', states' := SpillTo(l, init, procs, steps, states, homes, d, k - 1);
      steps', states' := ExtendRun(l, init, procs, steps', states', CommitWrite);
    }
  }

  /** Then the last block of the transaction goes to the block after the log, before anything is committed. */
  lemma OverwritesHome(l: Layout, init: Disk, procs: nat, homes: seq<int>)
      returns (steps: seq<Step>, states: seq<State>)
    requires LogEmpty(l, init) && procs >= 3 && Homes(l, homes)
    requires 2 <= l.size <= LOGSIZE && Home(l, l.start + l.size)
    ensures IsRun(l, init, procs, steps, states) && states[|steps|].hist.groups == []
    ensures LogEmpty(l, states[|steps|].disk) && states[|steps|].disk[l.start + l.size] != init[l.start + l.size]
  {
    var d := if init[l.start + l.size] == Block([]) then Block([1]) else Block([]);
    steps, states := FillTo(l, init, procs, homes, l.size - 2);
    steps, states := RaceOver(l, init, procs, steps, states, homes, d);
    steps, states := SpillStart(l, init, procs, steps, states, homes, d);
    steps, states := SpillTo(l, init, procs, steps, states, homes, d, l.size - 1);
    var s := states[|steps|];
    assert s.log.lh[l.size - 1] == homes[l.size - 1];
    steps, states := ExtendRun(l, init, procs, steps, states, CommitWrite);
  }

  /** What is committed survives every crash of every run if and only if the log has more than LOGSIZE blocks, or takes
      no entry. (The block after the log is a home block, as mkfs lays the disk out.) */
  lemma DurabilityIff(l: Layout, init: Disk, procs: nat, homes: seq<int>)
    requires LogEmpty(l, init) && procs >= 3 && Homes(l, homes) && Home(l, l.start + l.size)
    ensures AlwaysDurable(l, init, procs) <==> l.size == 1 || l.size > LOGSIZE
  {
    if l.size == 1 || l.size > LOGSIZE {
      forall steps, states | IsRun(l, init, procs, steps, states) ensures Survives(l, init, states[|steps|]) {
        NeverOverrun(l, init, procs, steps, states);
        WholeRunDurability(l, init, procs, steps, states, |steps|, |steps|);
      }
    } else {
      var steps, states := OverwritesHome(l, init, procs, homes);
      EmptyLogRecovers(l, states[|steps|].disk);
      assert !Survives(l, init, states[|steps|]);
    }
  }
}
