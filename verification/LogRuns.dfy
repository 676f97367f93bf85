/** Every interleaving of begin_op / log_write / end_op by any number of processes, with group commit,
    buffer recycling, and a crash possible between any two block writes. `log_write` is two steps, for it looks at
    the size of the transaction before it takes the lock.
    `P == true` in a contract is P kept as one proof obligation; without it Dafny asks for P conjunct by conjunct. */
module LogRuns {
  import opened LogSpec

  /** A logged update: operation `op` gave block `b` the contents `data`. */
  datatype Write = Write(op: nat, b: int, data: Block)

  /** Updates in the order they were logged. */
  datatype Updates = NoUpdates | Then(before: Updates, last: Write)

  /** What one commit makes durable: the operations that had finished, and their updates in order. */
  datatype Group = Group(finished: set<nat>, writes: Updates)

  function Apply(d: Disk, ws: Updates): (r: Disk)
    ensures |r| == |d|
  {
    match ws
    case NoUpdates => d
    case Then(before, w) =>
      var e := Apply(d, before);
      if 0 <= w.b < |d| then e[w.b := w.data] else e
  }

  /** The operations behind some updates, and the blocks they touch. */
  function Writers(ws: Updates): set<nat> {
    match ws
    case NoUpdates => {}
    case Then(before, w) => Writers(before) + {w.op}
  }

  function Targets(ws: Updates): set<int> {
    match ws
    case NoUpdates => {}
    case Then(before, w) => Targets(before) + {w.b}
  }

  /** The file system contents after a sequence of commit groups. */
  function Effect(d: Disk, gs: seq<Group>): (r: Disk)
    ensures |r| == |d|
  {
    if gs == [] then d else Apply(Effect(d, gs[..|gs| - 1]), gs[|gs| - 1].writes)
  }

  /** A process outside (Idle) or inside (Busy) a file system operation; `used` counts the log entries
      the operation has added. */
  datatype Slot = Idle | Busy(op: nat, used: nat)

  datatype Phase = Booting | Recovering(k: nat) | Running | Committing(k: nat) | Closing

  /** Buffer cache: valid contents, B_DIRTY, and buffers modified under their lock but not yet logged. */
  datatype Buffers = Buffers(cache: map<int, Block>, dirty: set<int>, held: map<int, nat>)

  /** log.c's in-memory state, which processes are inside an operation, and which of those are in `log_write`, past
      the test and before the lock, with which block. */
  datatype LogState = LogState(lh: seq<int>, outstanding: nat, committing: bool, slots: seq<Slot>, phase: Phase,
                               panicked: bool, passed: map<nat, int>)

  /** History: operations and updates since the last commit point, and the commits so far. */
  datatype History = History(nextOp: nat, finished: set<nat>, cur: Updates, groups: seq<Group>)

  /** The disk, and the values to be logged, when the running commit or recovery started. */
  datatype Snapshot = Snapshot(base: Disk, vals: seq<Block>)

  datatype State = State(disk: Disk, buf: Buffers, log: LogState, hist: History, snap: Snapshot)

  datatype Step =
    | BeginOp(p: nat)
    | Modify(p: nat, b: int, data: Block)
    | LogTest(p: nat, b: int)
    | LogAppend(p: nat)
    | EndOp(p: nat)
    | Load(b: int)
    | Evict(b: int)
    | CommitWrite
    | FinishCommit
    | Crash
    | Boot
    | RecoverWrite

  /** The condition of the first panic in `log_write`. */
  predicate TooBig(l: Layout, s: State) {
    |s.log.lh| >= LOGSIZE || |s.log.lh| >= l.size - 1
  }

  predicate InOp(s: State, p: int) {
    BusyAt(s.log.slots, p)
  }

  /** All that `commit` needs to go on: the header holds the transaction and its blocks are on the disk. Whether they
      fit the log area it does not ask. */
  ghost predicate CanCommitWrite(l: Layout, s: State) {
    && |s.disk| == l.total && LayoutOk(l)
    && s.log.phase.Committing? && s.log.phase.k <= 2 * |s.log.lh| + 1
    && |s.log.lh| <= LOGSIZE && l.start + |s.log.lh| < l.total
    && forall i :: 0 <= i < |s.log.lh| ==> Home(l, s.log.lh[i])
  }

  ghost predicate CanRecoverWrite(l: Layout, s: State) {
    && |s.disk| == l.total && LayoutOk(l)
    && s.log.phase.Recovering? && TransOk(l, s.log.lh) && s.log.phase.k <= |s.log.lh|
  }

  /** Process p, in an operation, has b locked and changed, and keeps its side of the bargain: at most MAXOPBLOCKS new
      entries per operation. */
  ghost predicate MayLog(l: Layout, s: State, p: nat, b: int) {
    && InOp(s, p) && Home(l, b) && b in s.buf.cache && b in s.buf.held && s.buf.held[b] == p
    && (b in s.log.lh || s.log.slots[p].used < MAXOPBLOCKS)
  }

  ghost predicate Enabled(l: Layout, s: State, a: Step) {
    && |s.disk| == l.total && LayoutOk(l)
    && (a.Crash? || !s.log.panicked)
    && match a
       case BeginOp(p) =>
         && s.log.phase.Running? && p < |s.log.slots| && s.log.slots[p].Idle?
         && !s.log.committing && |s.log.lh| + (s.log.outstanding + 1) * MAXOPBLOCKS <= LOGSIZE
       case Modify(p, b, data) =>
         s.log.phase.Running? && InOp(s, p) && p !in s.log.passed && Home(l, b) && b !in s.buf.held
       case LogTest(p, b) => s.log.phase.Running? && p !in s.log.passed && MayLog(l, s, p, b)
       case LogAppend(p) => s.log.phase.Running? && p in s.log.passed && MayLog(l, s, p, s.log.passed[p])
       case EndOp(p) =>
         && s.log.phase.Running? && InOp(s, p) && p !in s.log.passed && s.log.outstanding > 0
         && forall b :: b in s.buf.held ==> s.buf.held[b] != p
       case Load(b) =>
         && (s.log.phase.Running? || s.log.phase.Committing? || s.log.phase.Closing?)
         && 0 <= b < l.total && b !in s.buf.cache
       case Evict(b) =>
         b in s.buf.cache && b !in s.buf.dirty && b !in s.buf.held
       case CommitWrite => CanCommitWrite(l, s)
       case FinishCommit => s.log.phase.Closing?
       case Crash => true
       case Boot => s.log.phase.Booting? && LogOk(l, s.disk)
       case RecoverWrite => CanRecoverWrite(l, s)
  }

  /** The commit point: the finished operations and their updates become a group. */
  function Committed(h: History): History {
    h.(groups := h.groups + [Group(h.finished, h.cur)], cur := NoUpdates, finished := {})
  }

  /** `bwrite`: one atomic block write; the buffer stays cached and is clean afterwards. */
  function Put(s: State, b: int, v: Block): State
    requires 0 <= b < |s.disk|
  {
    s.(disk := s.disk[b := v], buf := s.buf.(cache := s.buf.cache[b := v], dirty := s.buf.dirty - {b}))
  }

  /** The next block write of `commit`, reading every source block through the cache as the code does. */
  function DoCommitWrite(l: Layout, s: State): State
    requires CanCommitWrite(l, s)
  {
    var k, n := s.log.phase.k, |s.log.lh|;
    if n == 0 then
      s.(log := s.log.(phase := Closing), hist := Committed(s.hist))
    else if k < n then
      assert Home(l, s.log.lh[k]);
      Put(s, l.start + 1 + k, View(s.disk, s.buf.cache, s.log.lh[k])).(log := s.log.(phase := Committing(k + 1)))
    else if k == n then
      Put(s, l.start, WriteHeader(View(s.disk, s.buf.cache, l.start), s.log.lh))
        .(log := s.log.(phase := Committing(k + 1)), hist := Committed(s.hist))
    else if k <= 2 * n then
      var j := k - n - 1;
      assert Home(l, s.log.lh[j]);
      Put(s, s.log.lh[j], View(s.disk, s.buf.cache, l.start + 1 + j)).(log := s.log.(phase := Committing(k + 1)))
    else
      Put(s, l.start, WriteHeader(View(s.disk, s.buf.cache, l.start), [])).(log := s.log.(phase := Closing, lh := []))
  }

  /** The next block write of `recover_from_log`. */
  function DoRecoverWrite(l: Layout, s: State): State
    requires CanRecoverWrite(l, s)
  {
    var k := s.log.phase.k;
    if k < |s.log.lh| then
      assert Home(l, s.log.lh[k]);
      Put(s, s.log.lh[k], View(s.disk, s.buf.cache, l.start + 1 + k)).(log := s.log.(phase := Recovering(k + 1)))
    else
      Put(s, l.start, WriteHeader(View(s.disk, s.buf.cache, l.start), [])).(log := s.log.(phase := Running, lh := []))
  }

  /** The start of `log_write`, without the lock. */
  function DoLogTest(l: Layout, s: State, p: nat, b: int): State {
    if TooBig(l, s) then s.(log := s.log.(panicked := true)) else s.(log := s.log.(passed := s.log.passed[p := b]))
  }

  /** The rest, under the lock; the caller then lets go of the buffer. */
  function DoLogAppend(l: Layout, s: State, p: nat): State
    requires Enabled(l, s, LogAppend(p))
  {
    var slot, b := s.log.slots[p], s.log.passed[p];
    var log := s.log.(passed := s.log.passed - {p});
    s.(log := if b in s.log.lh then log
              else log.(lh := s.log.lh + [b], slots := s.log.slots[p := slot.(used := slot.used + 1)]),
       buf := s.buf.(dirty := s.buf.dirty + {b}, held := s.buf.held - {b}),
       hist := s.hist.(cur := Then(s.hist.cur, Write(slot.op, b, s.buf.cache[b]))))
  }

  function DoEndOp(l: Layout, s: State, p: nat): State
    requires Enabled(l, s, EndOp(p))
  {
    var log := s.log.(slots := s.log.slots[p := Idle], outstanding := s.log.outstanding - 1);
    var hist := s.hist.(finished := s.hist.finished + {s.log.slots[p].op});
    if log.outstanding > 0 then s.(log := log, hist := hist)
    else
      s.(log := log.(committing := true, phase := Committing(0)), hist := hist,
         snap := Snapshot(s.disk, Views(s.disk, s.buf.cache, s.log.lh)))
  }

  function Do(l: Layout, s: State, a: Step): State
    requires Enabled(l, s, a)
  {
    match a
    case BeginOp(p) =>
      s.(log := s.log.(slots := s.log.slots[p := Busy(s.hist.nextOp, 0)], outstanding := s.log.outstanding + 1),
         hist := s.hist.(nextOp := s.hist.nextOp + 1))
    case Modify(p, b, data) => s.(buf := s.buf.(cache := s.buf.cache[b := data], held := s.buf.held[b := p]))
    case LogTest(p, b) => DoLogTest(l, s, p, b)
    case LogAppend(p) => DoLogAppend(l, s, p)
    case EndOp(p) => DoEndOp(l, s, p)
    case Load(b) => s.(buf := s.buf.(cache := s.buf.cache[b := s.disk[b]]))
    case Evict(b) => s.(buf := s.buf.(cache := s.buf.cache - {b}))
    case CommitWrite => DoCommitWrite(l, s)
    case FinishCommit => s.(log := s.log.(committing := false, phase := Running))
    case Crash => Boots(s.disk, |s.log.slots|, s.hist.nextOp, s.hist.groups)
    case Boot => 
      s.(log := s.log.(phase := Recovering(0), lh := ReadHeader(s.disk[l.start])), snap := s.snap.(base := s.disk))
    case RecoverWrite => DoRecoverWrite(l, s)
  }

  /** Power on with `disk`: everything in memory is lost. */
  function Boots(disk: Disk, procs: nat, nextOp: nat, groups: seq<Group>): State {
    State(disk, Buffers(map[], {}, map[]), LogState([], 0, false, seq(procs, i => Idle), Booting, false, map[]),
          History(nextOp, {}, NoUpdates, groups), Snapshot(disk, []))
  }

  // ---- the invariant ----

  function Owed(x: Slot): int {
    if x.Busy? then MAXOPBLOCKS - x.used else 0
  }

  /** Log entries that running operations may still add. */
  function Allowance(slots: seq<Slot>): int {
    if slots == [] then 0 else Allowance(slots[..|slots| - 1]) + Owed(slots[|slots| - 1])
  }

  function CountBusy(slots: seq<Slot>): nat {
    if slots == [] then 0
    else CountBusy(slots[..|slots| - 1]) + (if slots[|slots| - 1].Busy? then 1 else 0)
  }

  /** Contents of the file system as running operations see it. */
  function Current(init: Disk, groups: seq<Group>, cur: Updates): (r: Disk)
    ensures |r| == |init|
  {
    Apply(Effect(init, groups), cur)
  }

  ghost predicate CacheInv(l: Layout, disk: Disk, cache: map<int, Block>, dirty: set<int>, held: map<int, nat>) {
    && |disk| == l.total && LayoutOk(l)
    && (forall b :: b in cache ==> 0 <= b < l.total)
    && (forall b :: b in dirty ==> b in cache && Home(l, b))
    && (forall b :: b in held ==> b in cache && Home(l, b))
    && forall b :: b in cache && b !in dirty && b !in held ==> cache[b] == disk[b]
  }

  predicate BusyAt(slots: seq<Slot>, p: int) {
    0 <= p < |slots| && slots[p].Busy?
  }

  predicate RunsOp(slots: seq<Slot>, p: int, op: nat) {
    BusyAt(slots, p) && slots[p].op == op
  }

  ghost predicate OpsInv(slots: seq<Slot>, outstanding: nat, nextOp: nat, finished: set<nat>, cur: Updates) {
    && outstanding == CountBusy(slots)
    && (forall p :: BusyAt(slots, p) ==>
          slots[p].used <= MAXOPBLOCKS && slots[p].op < nextOp && slots[p].op !in finished)
    && (forall p, q, op :: RunsOp(slots, p, op) && RunsOp(slots, q, op) ==> p == q)
    && (forall x :: x in finished ==> x < nextOp)
    && (forall x :: x in Writers(cur) ==> x in finished || exists p :: RunsOp(slots, p, x))
  }

  ghost predicate HeldInv(slots: seq<Slot>, held: map<int, nat>) {
    forall b :: b in held ==> BusyAt(slots, held[b])
  }

  /** A process past the test may log its block when it gets the lock. */
  ghost predicate PassedInv(log: LogState, held: map<int, nat>) {
    forall p {:trigger log.passed[p]} :: p in log.passed ==>
      && BusyAt(log.slots, p) && log.passed[p] in held && held[log.passed[p]] == p
      && (log.passed[p] in log.lh || log.slots[p].used < MAXOPBLOCKS)
  }

  /** Every committed update comes from an operation that had ended when its group was committed. */
  ghost predicate GroupsFinished(groups: seq<Group>) {
    forall g :: 0 <= g < |groups| ==> Writers(groups[g].writes) <= groups[g].finished
  }

  /** Exactly the logged blocks are pinned, and only they carry uncommitted updates. */
  ghost predicate PinnedInv(l: Layout, lh: seq<int>, dirty: set<int>, cur: Updates) {
    && TransOk(l, lh)
    && dirty == BlockSet(lh, 0)
    && Targets(cur) <= dirty
  }

  /** Reading an unlocked block gives its newest contents. */
  ghost predicate LatestInv(l: Layout, now: Disk, disk: Disk, cache: map<int, Block>, held: map<int, nat>) {
    |now| == l.total && forall b :: Home(l, b) && b !in held ==> View(disk, cache, b) == now[b]
  }

  /** The part of the running invariant that is about the log in memory. */
  ghost predicate LogInv(l: Layout, s: State) {
    && OpsInv(s.log.slots, s.log.outstanding, s.hist.nextOp, s.hist.finished, s.hist.cur)
    && HeldInv(s.log.slots, s.buf.held) && PassedInv(s.log, s.buf.held)
    && PinnedInv(l, s.log.lh, s.buf.dirty, s.hist.cur)
    && |s.log.lh| + Allowance(s.log.slots) <= LOGSIZE
    && !s.log.committing
  }

  ghost predicate RunningInv(l: Layout, init: Disk, s: State) {
    && CacheInv(l, s.disk, s.buf.cache, s.buf.dirty, s.buf.held)
    && LogInv(l, s)
    && LogEmpty(l, s.disk)
    && SameHome(l, s.disk, Effect(init, s.hist.groups))
    && LatestInv(l, Current(init, s.hist.groups, s.hist.cur), s.disk, s.buf.cache, s.buf.held)
  }

  ghost predicate Quiet(s: State) {
    s.log.outstanding == 0 && s.buf.held == map[] && s.log.passed == map[]
  }

  /** During a commit the blocks not yet installed stay pinned with the values being logged. */
  ghost predicate CommitPins(lh: seq<int>, vals: seq<Block>, cache: map<int, Block>, dirty: set<int>, from: nat)
    requires from <= |lh| == |vals|
  {
    && dirty == BlockSet(lh, from)
    && (forall i :: from <= i < |lh| ==> lh[i] in cache && cache[lh[i]] == vals[i])
  }

  /** What the commit is making durable; `groups` grows at the header write. */
  ghost predicate CommitContents(l: Layout, init: Disk, groups: seq<Group>, cur: Updates,
                                 base: Disk, lh: seq<int>, vals: seq<Block>, sealed: bool)
    requires |lh| == |vals|
  {
    && Carries(l, Current(init, groups, cur), base, lh, vals)
    && (if sealed then cur == NoUpdates else SameHome(l, base, Effect(init, groups)))
    && (lh == [] ==> cur == NoUpdates)
  }

  ghost predicate CommittingInv(l: Layout, init: Disk, s: State)
    requires s.log.phase.Committing?
  {
    var k, n := s.log.phase.k, |s.log.lh|;
    && CacheInv(l, s.disk, s.buf.cache, s.buf.dirty, s.buf.held)
    && OpsInv(s.log.slots, s.log.outstanding, s.hist.nextOp, s.hist.finished, s.hist.cur)
    && Quiet(s) && s.log.committing
    && LogEmpty(l, s.snap.base) && TransOk(l, s.log.lh) && |s.snap.vals| == n
    && k <= 2 * n + 1 && (n == 0 ==> k == 0)
    && s.disk == CommitImage(l, s.snap.base, s.log.lh, s.snap.vals, k)
    && CommitPins(s.log.lh, s.snap.vals, s.buf.cache, s.buf.dirty, PinsFrom(k, n))
    && CommitContents(l, init, s.hist.groups, s.hist.cur, s.snap.base, s.log.lh, s.snap.vals, n > 0 && k > n)
  }

  ghost predicate ClosingInv(l: Layout, init: Disk, s: State) {
    && CacheInv(l, s.disk, s.buf.cache, s.buf.dirty, s.buf.held)
    && OpsInv(s.log.slots, s.log.outstanding, s.hist.nextOp, s.hist.finished, s.hist.cur)
    && Quiet(s) && s.log.committing
    && LogEmpty(l, s.disk)
    && s.log.lh == [] && s.buf.dirty == {} && s.hist.cur == NoUpdates
    && SameHome(l, s.disk, Effect(init, s.hist.groups))
  }

  ghost predicate BootInv(l: Layout, init: Disk, s: State)
    requires s.log.phase.Booting? || s.log.phase.Recovering?
  {
    && CacheInv(l, s.disk, s.buf.cache, s.buf.dirty, s.buf.held)
    && OpsInv(s.log.slots, s.log.outstanding, s.hist.nextOp, s.hist.finished, s.hist.cur)
    && Quiet(s) && !s.log.committing
    && s.buf.dirty == {} && s.hist.cur == NoUpdates
    && LogOk(l, s.snap.base)
    && SameHome(l, Recovered(l, s.snap.base), Effect(init, s.hist.groups))
    && if s.log.phase.Booting? then s.disk == s.snap.base
       else
         && s.log.lh == ReadHeader(s.snap.base[l.start]) && s.log.phase.k <= |s.log.lh|
         && s.disk == RecoveryImage(l, s.snap.base, s.log.phase.k)
  }

  ghost predicate Inv(l: Layout, init: Disk, s: State) {
    && |init| == l.total && GroupsFinished(s.hist.groups)
    && match s.log.phase
       case Booting => BootInv(l, init, s)
       case Recovering(_) => BootInv(l, init, s)
       case Running => RunningInv(l, init, s)
       case Committing(_) => CommittingInv(l, init, s)
       case Closing => ClosingInv(l, init, s)
  }

  // ---- sums over the process slots ----

  lemma {:induction false} SlotUpdate(slots: seq<Slot>, i: nat, x: Slot)
    requires i < |slots|
    ensures Allowance(slots[i := x]) == Allowance(slots) - Owed(slots[i]) + Owed(x)
    ensures CountBusy(slots[i := x]) ==
              CountBusy(slots) - (if slots[i].Busy? then 1 else 0) + (if x.Busy? then 1 else 0)
  {
    var n := |slots| - 1;
    if i == n {
      assert slots[i := x][..n] == slots[..n];
    } else {
      assert slots[i := x][..n] == slots[..n][i := x];
      SlotUpdate(slots[..n], i, x);
    }
  }

  lemma {:induction false} AllowanceBound(slots: seq<Slot>)
    requires forall p :: 0 <= p < |slots| && slots[p].Busy? ==> slots[p].used <= MAXOPBLOCKS
    ensures 0 <= Allowance(slots) <= MAXOPBLOCKS * CountBusy(slots)
    ensures forall p :: 0 <= p < |slots| ==> Owed(slots[p]) <= Allowance(slots)
    ensures CountBusy(slots) == 0 ==> forall p :: 0 <= p < |slots| ==> slots[p].Idle?
  {
    if slots != [] {
      var n := |slots| - 1;
      AllowanceBound(slots[..n]);
      assert forall p :: 0 <= p < n ==> slots[p] == slots[..n][p];
    }
  }

  lemma {:induction false} AllIdle(n: nat)
    ensures CountBusy(seq(n, i => Idle)) == 0 && Allowance(seq(n, i => Idle)) == 0
  {
    if n > 0 {
      var all: seq<Slot> := seq(n, i => Idle);
      assert all[..n - 1] == seq(n - 1, i => Idle);
      AllIdle(n - 1);
    }
  }

  lemma EffectSnoc(d: Disk, gs: seq<Group>, g: Group)
    ensures Effect(d, gs + [g]) == Apply(Effect(d, gs), g.writes)
  {
  }

  // ---- durability ----

  /** Whatever the crash point, recovery produces exactly the committed groups. */
  lemma Durable(l: Layout, init: Disk, s: State)
    requires Inv(l, init, s)
    ensures LogOk(l, s.disk)
    ensures SameHome(l, Recovered(l, s.disk), Effect(init, s.hist.groups))
  {
    match s.log.phase
    case Booting =>
    case Recovering(k) => CrashDuringRecovery(l, s.snap.base, k);
    case Running => EmptyLogRecovers(l, s.disk);
    case Committing(k) =>
      CommitCrash(l, s.snap.base, s.log.lh, s.snap.vals, k);
      if k > |s.log.lh| {
        CarriesUnique(l, Recovered(l, s.disk), Effect(init, s.hist.groups), s.snap.base, s.log.lh, s.snap.vals);
      }
    case Closing => EmptyLogRecovers(l, s.disk);
  }

  lemma EmptyLogRecovers(l: Layout, d: Disk)
    requires LogEmpty(l, d)
    ensures SameHome(l, Recovered(l, d), d)
  {
  }

  // ---- every step keeps the invariant ----

  lemma {:induction false} OpsBegin(slots: seq<Slot>, outstanding: nat, nextOp: nat, finished: set<nat>,
                                    cur: Updates, p: nat)
    requires OpsInv(slots, outstanding, nextOp, finished, cur) && p < |slots| && slots[p].Idle?
    ensures OpsInv(slots[p := Busy(nextOp, 0)], outstanding + 1, nextOp + 1, finished, cur)
    ensures Allowance(slots[p := Busy(nextOp, 0)]) <= MAXOPBLOCKS * (outstanding + 1)
  {
    var t := slots[p := Busy(nextOp, 0)];
    SlotUpdate(slots, p, Busy(nextOp, 0));
    AllowanceBound(t);
    assert forall q :: BusyAt(slots, q) ==> BusyAt(t, q) && t[q] == slots[q];
    assert forall q, op :: RunsOp(t, q, op) <==> (q == p && op == nextOp) || RunsOp(slots, q, op);
  }

  lemma {:induction false} OpsLog(slots: seq<Slot>, outstanding: nat, nextOp: nat, finished: set<nat>, cur: Updates,
               p: nat, used: nat, w: Write)
    requires OpsInv(slots, outstanding, nextOp, finished, cur)
    requires BusyAt(slots, p) && used <= MAXOPBLOCKS && w.op == slots[p].op
    ensures OpsInv(slots[p := slots[p].(used := used)], outstanding, nextOp, finished, Then(cur, w))
  {
    var t := slots[p := slots[p].(used := used)];
    SlotUpdate(slots, p, slots[p].(used := used));
    assert forall q, op :: RunsOp(t, q, op) <==> RunsOp(slots, q, op);
    assert RunsOp(t, p, w.op);
    assert forall q :: BusyAt(t, q) ==> RunsOp(slots, q, t[q].op);
  }

  lemma {:induction false} OpsEnd(slots: seq<Slot>, outstanding: nat, nextOp: nat, finished: set<nat>, cur: Updates,
                                  p: nat)
    requires OpsInv(slots, outstanding, nextOp, finished, cur) && BusyAt(slots, p) && outstanding > 0
    ensures OpsInv(slots[p := Idle], outstanding - 1, nextOp, finished + {slots[p].op}, cur)
    ensures Allowance(slots[p := Idle]) <= Allowance(slots)
    ensures outstanding == 1 ==> forall q :: BusyAt(slots, q) ==> q == p
  {
    var t := slots[p := Idle];
    SlotUpdate(slots, p, Idle);
    AllowanceBound(t);
    assert forall q, op :: RunsOp(t, q, op) <==> RunsOp(slots, q, op) && q != p;
    assert forall q :: BusyAt(t, q) ==> RunsOp(slots, q, t[q].op);
    assert RunsOp(slots, p, slots[p].op);
    assert forall q :: BusyAt(slots, q) && q != p ==> BusyAt(t, q);
  }

  lemma KeepsBegin(l: Layout, init: Disk, s: State, p: nat)
    requires RunningInv(l, init, s) && Enabled(l, s, BeginOp(p))
    ensures RunningInv(l, init, Do(l, s, BeginOp(p)))
  {
    OpsBegin(s.log.slots, s.log.outstanding, s.hist.nextOp, s.hist.finished, s.hist.cur, p);
  }

  lemma KeepsModify(l: Layout, init: Disk, s: State, p: nat, b: int, data: Block)
    requires RunningInv(l, init, s) && Enabled(l, s, Modify(p, b, data))
    ensures RunningInv(l, init, Do(l, s, Modify(p, b, data)))
  {
  }

  lemma {:induction false} PinnedAbsorb(l: Layout, lh: seq<int>, dirty: set<int>, cur: Updates, w: Write)
    requires PinnedInv(l, lh, dirty, cur) && w.b in lh
    ensures PinnedInv(l, lh, dirty + {w.b}, Then(cur, w))
  {
    BlockSetHas(lh, 0, w.b);
    assert lh[0..] == lh;
    assert dirty + {w.b} == dirty;
  }

  lemma {:induction false} PinnedAppend(l: Layout, lh: seq<int>, dirty: set<int>, cur: Updates, w: Write)
    requires PinnedInv(l, lh, dirty, cur) && Home(l, w.b) && |lh| < LOGSIZE && |lh| + 1 < l.size && w.b !in lh
    ensures PinnedInv(l, lh + [w.b], dirty + {w.b}, Then(cur, w))
  {
    BlockSetSnoc(lh, 0, w.b);
    DistinctSnoc(lh, w.b);
  }

  /** The invariant after `log_write`, from what it does to each part of the state. */
  lemma LogWriteRunning(l: Layout, init: Disk, s: State, t: State, w: Write)
    requires RunningInv(l, init, s) && s.log.phase.Running? && |init| == l.total
    requires t == State(s.disk, s.buf.(dirty := s.buf.dirty + {w.b}, held := s.buf.held - {w.b}), t.log,
                        s.hist.(cur := Then(s.hist.cur, w)), s.snap)
    requires Home(l, w.b) && w.b in s.buf.cache && w.data == s.buf.cache[w.b]
    requires LogInv(l, t)
    ensures RunningInv(l, init, t)
  {
  }

  lemma KeepsTest(l: Layout, init: Disk, s: State, p: nat, b: int)
    requires RunningInv(l, init, s) && Enabled(l, s, LogTest(p, b))
    ensures RunningInv(l, init, DoLogTest(l, s, p, b))
  {
  }

  /** The other processes past the test are not disturbed. */
  lemma AppendPassed(log: LogState, log': LogState, held: map<int, nat>, p: nat)
    requires PassedInv(log, held) && p in log.passed && log'.passed == log.passed - {p}
    requires |log'.slots| == |log.slots| && forall q :: 0 <= q < |log.slots| && q != p ==> log'.slots[q] == log.slots[q]
    requires log'.lh == log.lh || log'.lh == log.lh + [log.passed[p]]
    ensures PassedInv(log', held - {log.passed[p]})
  {
    forall q | q in log'.passed
      ensures BusyAt(log'.slots, q) && log'.passed[q] in held - {log.passed[p]}
      ensures log'.passed[q] in log'.lh || log'.slots[q].used < MAXOPBLOCKS
    {
      assert q in log.passed && q != p && BusyAt(log.slots, q);
      assert log'.slots[q] == log.slots[q];
    }
  }

  lemma AbsorbLog(l: Layout, s: State, p: nat)
    requires LogInv(l, s) && Enabled(l, s, LogAppend(p)) && s.log.passed[p] in s.log.lh
    ensures LogInv(l, DoLogAppend(l, s, p))
  {
    var slot, b := s.log.slots[p], s.log.passed[p];
    var w := Write(slot.op, b, s.buf.cache[b]);
    assert s.log.slots[p := slot] == s.log.slots;
    OpsLog(s.log.slots, s.log.outstanding, s.hist.nextOp, s.hist.finished, s.hist.cur, p, slot.used, w);
    PinnedAbsorb(l, s.log.lh, s.buf.dirty, s.hist.cur, w);
    AppendPassed(s.log, DoLogAppend(l, s, p).log, s.buf.held, p);
  }

  lemma KeepsAbsorb(l: Layout, init: Disk, s: State, p: nat)
    requires RunningInv(l, init, s) && Enabled(l, s, LogAppend(p)) && |init| == l.total
    requires s.log.passed[p] in s.log.lh
    ensures RunningInv(l, init, DoLogAppend(l, s, p)) == true
  {
    var b := s.log.passed[p];
    AbsorbLog(l, s, p);
    LogWriteRunning(l, init, s, DoLogAppend(l, s, p), Write(s.log.slots[p].op, b, s.buf.cache[b]));
  }

  lemma AppendSlots(log: LogState, h: History, held: map<int, nat>, p: nat, w: Write)
    requires OpsInv(log.slots, log.outstanding, h.nextOp, h.finished, h.cur) && HeldInv(log.slots, held)
    requires BusyAt(log.slots, p) && log.slots[p].used < MAXOPBLOCKS && w.op == log.slots[p].op
    ensures var slots := log.slots[p := log.slots[p].(used := log.slots[p].used + 1)];
            && OpsInv(slots, log.outstanding, h.nextOp, h.finished, Then(h.cur, w))
            && HeldInv(slots, held - {w.b})
            && Allowance(slots) == Allowance(log.slots) - 1
  {
    var slot := log.slots[p].(used := log.slots[p].used + 1);
    OpsLog(log.slots, log.outstanding, h.nextOp, h.finished, h.cur, p, slot.used, w);
    SlotUpdate(log.slots, p, slot);
  }

  /** There is a slot in the log for each of LOGSIZE blocks besides the header, or at least for one more. */
  predicate SlotLeft(l: Layout, lh: seq<int>) { l.size > LOGSIZE || |lh| + 1 < l.size }

  /** A new entry keeps the invariant whatever the test saw: the reservation alone keeps the transaction below LOGSIZE,
      and so within a log that is larger. */
  lemma KeepsAppend(l: Layout, init: Disk, s: State, p: nat)
    requires RunningInv(l, init, s) && Enabled(l, s, LogAppend(p)) && |init| == l.total
    requires s.log.passed[p] !in s.log.lh && SlotLeft(l, s.log.lh)
    ensures RunningInv(l, init, DoLogAppend(l, s, p)) == true
  {
    var b := s.log.passed[p];
    AppendLog(l, s, p);
    LogWriteRunning(l, init, s, DoLogAppend(l, s, p), Write(s.log.slots[p].op, b, s.buf.cache[b]));
  }

  lemma AppendLog(l: Layout, s: State, p: nat)
    requires LogInv(l, s) && Enabled(l, s, LogAppend(p)) && s.log.passed[p] !in s.log.lh && SlotLeft(l, s.log.lh)
    ensures LogInv(l, DoLogAppend(l, s, p)) == true
  {
    var b := s.log.passed[p];
    var w := Write(s.log.slots[p].op, b, s.buf.cache[b]);
    var t := AppendIs(l, s, p, w);
    AppendSlots(s.log, s.hist, s.buf.held, p, w);
    AppendPassed(s.log, t.log, s.buf.held, p);
    AppendRoom(l, s.log, p);
    PinnedAppend(l, s.log.lh, s.buf.dirty, s.hist.cur, w);
  }

  lemma AppendIs(l: Layout, s: State, p: nat, w: Write) returns (t: State)
    requires Enabled(l, s, LogAppend(p)) && w.b == s.log.passed[p] && w.b !in s.log.lh
    requires w == Write(s.log.slots[p].op, w.b, s.buf.cache[w.b])
    ensures t == DoLogAppend(l, s, p)
    ensures t == State(s.disk, s.buf.(dirty := s.buf.dirty + {w.b}, held := s.buf.held - {w.b}),
                       s.log.(passed := s.log.passed - {p}, lh := s.log.lh + [w.b],
                              slots := s.log.slots[p := s.log.slots[p].(used := s.log.slots[p].used + 1)]),
                       s.hist.(cur := Then(s.hist.cur, w)), s.snap)
  {
    t := DoLogAppend(l, s, p);
  }

  lemma AppendRoom(l: Layout, log: LogState, p: nat)
    requires BusyAt(log.slots, p) && log.slots[p].used < MAXOPBLOCKS && SlotLeft(l, log.lh)
    requires forall q :: BusyAt(log.slots, q) ==> log.slots[q].used <= MAXOPBLOCKS
    requires |log.lh| + Allowance(log.slots) <= LOGSIZE
    ensures |log.lh| < LOGSIZE && |log.lh| + 1 < l.size
  {
    assert forall q :: 0 <= q < |log.slots| && log.slots[q].Busy? ==> BusyAt(log.slots, q);
    AllowanceBound(log.slots);
  }

  /** With nothing locked, the pending transaction is exactly what separates the disk from the current view. */
  lemma PendingCarries(l: Layout, now: Disk, disk: Disk, cache: map<int, Block>, dirty: set<int>, lh: seq<int>)
    requires CacheInv(l, disk, cache, dirty, map[]) && TransOk(l, lh)
    requires dirty == BlockSet(lh, 0)
    requires LatestInv(l, now, disk, cache, map[])
    ensures Carries(l, now, disk, lh, Views(disk, cache, lh))
    ensures CommitPins(lh, Views(disk, cache, lh), cache, dirty, 0)
  {
    var vals := Views(disk, cache, lh);
    forall i | 0 <= i < |lh|
      ensures lh[i] in cache && cache[lh[i]] == vals[i] == now[lh[i]]
    {
      BlockSetHas(lh, 0, lh[i]);
      assert lh[i] in lh[0..];
    }
  }

  lemma PassedHeld(log: LogState, held: map<int, nat>, p: nat)
    requires PassedInv(log, held)
    ensures p in log.passed ==> |held| > 0
  {
    if p in log.passed { assert log.passed[p] in held; }
  }

  lemma NonePassed(log: LogState, held: map<int, nat>)
    requires PassedInv(log, held) && held == map[]
    ensures log.passed == map[]
  {
    forall p ensures p !in log.passed { PassedHeld(log, held, p); }
  }

  /** The last operation out hands a pinned, fully visible transaction to `commit`. */
  lemma LastOpStartsCommit(l: Layout, init: Disk, s: State, p: nat)
    requires RunningInv(l, init, s) && Enabled(l, s, EndOp(p)) && |init| == l.total && s.log.outstanding == 1
    ensures CommittingInv(l, init, DoEndOp(l, s, p))
  {
    OpsEnd(s.log.slots, s.log.outstanding, s.hist.nextOp, s.hist.finished, s.hist.cur, p);
    assert forall b :: b !in s.buf.held;
    assert s.buf.held == map[];
    NonePassed(s.log, s.buf.held);
    PendingCarries(l, Current(init, s.hist.groups, s.hist.cur), s.disk, s.buf.cache, s.buf.dirty, s.log.lh);
  }

  lemma KeepsEndOp(l: Layout, init: Disk, s: State, p: nat)
    requires RunningInv(l, init, s) && Enabled(l, s, EndOp(p)) && |init| == l.total && s.log.outstanding > 1
    ensures RunningInv(l, init, DoEndOp(l, s, p))
  {
    OpsEnd(s.log.slots, s.log.outstanding, s.hist.nextOp, s.hist.finished, s.hist.cur, p);
  }

  // ---- block writes ----

  lemma PutCache(l: Layout, disk: Disk, cache: map<int, Block>, dirty: set<int>, b: int, v: Block)
    requires CacheInv(l, disk, cache, dirty, map[]) && 0 <= b < l.total
    ensures CacheInv(l, disk[b := v], cache[b := v], dirty - {b}, map[])
  {
  }

  lemma PutKeepsPins(lh: seq<int>, vals: seq<Block>, cache: map<int, Block>, dirty: set<int>, from: nat, b: int,
                     v: Block)
    requires from <= |lh| == |vals| && CommitPins(lh, vals, cache, dirty, from) && b !in dirty
    ensures CommitPins(lh, vals, cache[b := v], dirty - {b}, from)
  {
    forall i | from <= i < |lh|
      ensures lh[i] != b
    {
      BlockSetHas(lh, from, lh[i]);
      assert lh[i] in lh[from..];
    }
  }

  lemma PutUnpins(lh: seq<int>, vals: seq<Block>, cache: map<int, Block>, dirty: set<int>, from: nat, v: Block)
    requires from < |lh| == |vals| && CommitPins(lh, vals, cache, dirty, from) && Distinct(lh)
    ensures CommitPins(lh, vals, cache[lh[from] := v], dirty - {lh[from]}, from + 1)
  {
    BlockSetDistinct(lh, from);
    forall i | from + 1 <= i < |lh|
      ensures lh[i] != lh[from]
    {
      BlockSetHas(lh, from + 1, lh[i]);
      assert lh[i] in lh[from + 1..];
    }
  }

  lemma CleanLogArea(l: Layout, disk: Disk, cache: map<int, Block>, dirty: set<int>, b: int)
    requires CacheInv(l, disk, cache, dirty, map[]) && InLog(l, b)
    ensures b !in dirty && View(disk, cache, b) == disk[b]
  {
  }

  /** Pins are released from this position of the transaction on. */
  function PinsFrom(k: nat, n: nat): nat {
    if k <= n then 0 else k - n - 1
  }

  /** A write on the same side of the commit point has only the disk and the pins to answer for. */
  lemma Advance(l: Layout, init: Disk, s: State, b: int, v: Block)
    requires s.log.phase.Committing? && CommittingInv(l, init, s)
    requires s.log.phase.k + 1 <= 2 * |s.log.lh| + 1 && s.log.phase.k != |s.log.lh| && 0 <= b < l.total
    requires s.disk[b := v] == CommitImage(l, s.snap.base, s.log.lh, s.snap.vals, s.log.phase.k + 1)
    requires CommitPins(s.log.lh, s.snap.vals, s.buf.cache[b := v], s.buf.dirty - {b},
                        PinsFrom(s.log.phase.k + 1, |s.log.lh|))
    ensures CommittingInv(l, init, Put(s, b, v).(log := s.log.(phase := Committing(s.log.phase.k + 1))))
  {
  }

  lemma CommitWriteIs(l: Layout, s: State)
    requires CanCommitWrite(l, s)
    ensures var k, n := s.log.phase.k, |s.log.lh|;
            && (k < n ==>
                  DoCommitWrite(l, s) ==
                    Put(s, l.start + 1 + k, View(s.disk, s.buf.cache, s.log.lh[k]))
                    .(log := s.log.(phase := Committing(k + 1))))
            && (n < k <= 2 * n ==>
                  var j := k - n - 1;
                  && Home(l, s.log.lh[j])
                  && DoCommitWrite(l, s) ==
                       Put(s, s.log.lh[j], View(s.disk, s.buf.cache, l.start + 1 + j))
                       .(log := s.log.(phase := Committing(k + 1))))
  {
  }

  /** The next commit write stores v in block b, on this side of the commit point. */
  ghost predicate NextWrite(l: Layout, s: State, b: int, v: Block)
    requires CanCommitWrite(l, s) && LogEmpty(l, s.snap.base) && |s.snap.vals| == |s.log.lh| &&
             TransOk(l, s.log.lh) && s.log.phase.k <= 2 * |s.log.lh|
  {
    && 0 <= b < l.total
    && DoCommitWrite(l, s) == Put(s, b, v).(log := s.log.(phase := Committing(s.log.phase.k + 1)))
    && s.disk[b := v] == CommitImage(l, s.snap.base, s.log.lh, s.snap.vals, s.log.phase.k + 1)
    && CommitPins(s.log.lh, s.snap.vals, s.buf.cache[b := v], s.buf.dirty - {b},
                  PinsFrom(s.log.phase.k + 1, |s.log.lh|))
  }

  lemma FillStep(l: Layout, init: Disk, s: State) returns (b: int, v: Block)
    requires s.log.phase.Committing? && CommittingInv(l, init, s) && s.log.phase.k < |s.log.lh|
    requires CanCommitWrite(l, s)
    ensures NextWrite(l, s, b, v)
  {
    var k := s.log.phase.k;
    b := l.start + 1 + k;
    v := View(s.disk, s.buf.cache, s.log.lh[k]);
    assert CommitPins(s.log.lh, s.snap.vals, s.buf.cache[b := v], s.buf.dirty - {b}, 0) by {
      CleanLogArea(l, s.disk, s.buf.cache, s.buf.dirty, b);
      PutKeepsPins(s.log.lh, s.snap.vals, s.buf.cache, s.buf.dirty, 0, b, v);
    }
    assert s.disk[b := v] == CommitImage(l, s.snap.base, s.log.lh, s.snap.vals, k + 1) by {
      CommitImageStep(l, s.snap.base, s.log.lh, s.snap.vals, k);
    }
    CommitWriteIs(l, s);
  }

  lemma InstallStep(l: Layout, init: Disk, s: State) returns (b: int, v: Block)
    requires s.log.phase.Committing? && CommittingInv(l, init, s) && |s.log.lh| < s.log.phase.k <= 2 * |s.log.lh|
    requires CanCommitWrite(l, s)
    ensures NextWrite(l, s, b, v)
  {
    var j := s.log.phase.k - |s.log.lh| - 1;
    b := s.log.lh[j];
    v := View(s.disk, s.buf.cache, l.start + 1 + j);
    PutUnpins(s.log.lh, s.snap.vals, s.buf.cache, s.buf.dirty, j, v);
    InstallImage(l, init, s, j, b, v);
    CommitWriteIs(l, s);
  }

  lemma InstallImage(l: Layout, init: Disk, s: State, j: nat, b: int, v: Block)
    requires s.log.phase.Committing? && CommittingInv(l, init, s) && s.log.phase.k == |s.log.lh| + 1 + j
    requires j < |s.log.lh| && b == s.log.lh[j] && 0 <= l.start + 1 + j < |s.disk|
    requires v == View(s.disk, s.buf.cache, l.start + 1 + j)
    ensures LogEmpty(l, s.snap.base) && |s.snap.vals| == |s.log.lh| && Home(l, b)
    ensures s.disk[b := v] == CommitImage(l, s.snap.base, s.log.lh, s.snap.vals, s.log.phase.k + 1)
  {
    CleanLogArea(l, s.disk, s.buf.cache, s.buf.dirty, l.start + 1 + j);
    CommitImageStep(l, s.snap.base, s.log.lh, s.snap.vals, s.log.phase.k);
  }

  lemma CommitPoint(l: Layout, init: Disk, s: State)
    requires |init| == l.total && s.log.outstanding == 0
    requires OpsInv(s.log.slots, s.log.outstanding, s.hist.nextOp, s.hist.finished, s.hist.cur) &&
             GroupsFinished(s.hist.groups)
    ensures var gs := s.hist.groups + [Group(s.hist.finished, s.hist.cur)];
            && OpsInv(s.log.slots, s.log.outstanding, s.hist.nextOp, {}, NoUpdates)
            && GroupsFinished(gs)
            && Effect(init, gs) == Current(init, gs, NoUpdates) == Current(init, s.hist.groups, s.hist.cur)
  {
    AllowanceBound(s.log.slots);
    EffectSnoc(init, s.hist.groups, Group(s.hist.finished, s.hist.cur));
  }

  lemma SealStep(l: Layout, init: Disk, s: State)
    requires s.log.phase.Committing? && CommittingInv(l, init, s) && s.log.phase.k == |s.log.lh| > 0
    requires CanCommitWrite(l, s) && |init| == l.total && GroupsFinished(s.hist.groups)
    ensures Inv(l, init, DoCommitWrite(l, s)) == true
  {
    var t := DoCommitWrite(l, s);
    CommitPoint(l, init, s);
    CleanLogArea(l, s.disk, s.buf.cache, s.buf.dirty, l.start);
    var v := WriteHeader(s.snap.base[l.start], s.log.lh);
    PutCache(l, s.disk, s.buf.cache, s.buf.dirty, l.start, v);
    PutKeepsPins(s.log.lh, s.snap.vals, s.buf.cache, s.buf.dirty, 0, l.start, v);
    LogFilledAt(l, s.snap.base, s.snap.vals, |s.snap.vals|, l.start);
    assert t.disk == Sealed(l, s.snap.base, s.log.lh, s.snap.vals);
  }

  lemma ClearStep(l: Layout, init: Disk, s: State)
    requires s.log.phase.Committing? && CommittingInv(l, init, s) && s.log.phase.k == 2 * |s.log.lh| + 1 &&
             s.log.lh != []
    requires CanCommitWrite(l, s) && |init| == l.total && GroupsFinished(s.hist.groups)
    ensures Inv(l, init, DoCommitWrite(l, s)) == true
  {
    var n := |s.log.lh|;
    var t := DoCommitWrite(l, s);
    CleanLogArea(l, s.disk, s.buf.cache, s.buf.dirty, l.start);
    InstallAt(l, Sealed(l, s.snap.base, s.log.lh, s.snap.vals), s.log.lh, n, l.start);
    PutCache(l, s.disk, s.buf.cache, s.buf.dirty, l.start, t.disk[l.start]);
    CommitFinishes(l, s.snap.base, s.log.lh, s.snap.vals);
    CarriesUnique(l, t.disk, Effect(init, s.hist.groups), s.snap.base, s.log.lh, s.snap.vals);
    assert t.disk == CommitImages(l, s.snap.base, s.log.lh, s.snap.vals)[2 * n + 1];
    assert forall b :: b !in s.buf.dirty;
  }

  lemma EmptyCommitStep(l: Layout, init: Disk, s: State)
    requires s.log.phase.Committing? && CommittingInv(l, init, s) && s.log.lh == []
    requires CanCommitWrite(l, s) && |init| == l.total && GroupsFinished(s.hist.groups)
    ensures Inv(l, init, DoCommitWrite(l, s)) == true
  {
  }

  lemma CopyStep(l: Layout, init: Disk, s: State)
    requires s.log.phase.Committing? && CommittingInv(l, init, s) && CanCommitWrite(l, s)
    requires s.log.phase.k < |s.log.lh| || |s.log.lh| < s.log.phase.k <= 2 * |s.log.lh|
    requires |init| == l.total && GroupsFinished(s.hist.groups)
    ensures Inv(l, init, DoCommitWrite(l, s)) == true
  {
    var b, v;
    if s.log.phase.k < |s.log.lh| {
      b, v := FillStep(l, init, s);
    } else {
      b, v := InstallStep(l, init, s);
    }
    Advance(l, init, s, b, v);
  }

  lemma KeepsCommitWrite(l: Layout, init: Disk, s: State)
    requires Inv(l, init, s) && Enabled(l, s, CommitWrite)
    ensures Inv(l, init, DoCommitWrite(l, s)) == true
  {
    var n := |s.log.lh|;
    if n == 0 { EmptyCommitStep(l, init, s); }
    else if s.log.phase.k == n { SealStep(l, init, s); }
    else if s.log.phase.k <= 2 * n { CopyStep(l, init, s); }
    else { ClearStep(l, init, s); }
  }

  lemma KeepsFinish(l: Layout, init: Disk, s: State)
    requires ClosingInv(l, init, s) && |init| == l.total
    ensures RunningInv(l, init, s.(log := s.log.(committing := false, phase := Running)))
  {
    AllowanceBound(s.log.slots);
  }

  lemma RecoverWriteIs(l: Layout, s: State, k: nat, b: int, v: Block)
    requires CanRecoverWrite(l, s) && s.log.phase == Recovering(k) && k < |s.log.lh| && b == s.log.lh[k]
    requires v == View(s.disk, s.buf.cache, l.start + 1 + k)
    ensures Home(l, b) && DoRecoverWrite(l, s) == Put(s, b, v).(log := s.log.(phase := Recovering(k + 1)))
  {
  }

  lemma RecoverImage(l: Layout, init: Disk, s: State, k: nat, b: int, v: Block)
    requires s.log.phase == Recovering(k) && BootInv(l, init, s) && k < |s.log.lh| && b == s.log.lh[k] && Home(l, b)
    requires v == View(s.disk, s.buf.cache, l.start + 1 + k)
    ensures LogOk(l, s.snap.base) && |s.disk| == l.total && k < |ReadHeader(s.snap.base[l.start])|
    ensures s.disk[b := v] == RecoveryImage(l, s.snap.base, k + 1)
  {
    CleanLogArea(l, s.disk, s.buf.cache, s.buf.dirty, l.start + 1 + k);
    RecoveryImageStep(l, s.snap.base, s.log.lh, k);
  }

  lemma RecoverInstall(l: Layout, init: Disk, s: State, k: nat, b: int, v: Block)
    requires s.log.phase == Recovering(k) && BootInv(l, init, s) && k < |s.log.lh| && b == s.log.lh[k] && Home(l, b)
    requires v == View(s.disk, s.buf.cache, l.start + 1 + k) && |init| == l.total && GroupsFinished(s.hist.groups)
    ensures 0 <= b < |s.disk| && Inv(l, init, Put(s, b, v).(log := s.log.(phase := Recovering(k + 1)))) == true
  {
    RecoverImage(l, init, s, k, b, v);
    RecoverPut(l, init, s, k, b, v);
  }

  lemma RecoverPut(l: Layout, init: Disk, s: State, k: nat, b: int, v: Block)
    requires s.log.phase == Recovering(k) && BootInv(l, init, s) && k < |s.log.lh| && Home(l, b)
    requires |init| == l.total == |s.disk| && GroupsFinished(s.hist.groups)
    requires s.disk[b := v] == RecoveryImage(l, s.snap.base, k + 1)
    ensures Inv(l, init, Put(s, b, v).(log := s.log.(phase := Recovering(k + 1)))) == true
  {
    PutCache(l, s.disk, s.buf.cache, s.buf.dirty, b, v);
  }

  lemma RecoverClear(l: Layout, init: Disk, s: State)
    requires s.log.phase.Recovering? && BootInv(l, init, s) && s.log.phase.k == |s.log.lh| && |init| == l.total
    requires CanRecoverWrite(l, s) && GroupsFinished(s.hist.groups)
    ensures Inv(l, init, DoRecoverWrite(l, s)) == true
  {
    var v := WriteHeader(View(s.disk, s.buf.cache, l.start), []);
    CleanLogArea(l, s.disk, s.buf.cache, s.buf.dirty, l.start);
    PutCache(l, s.disk, s.buf.cache, s.buf.dirty, l.start, v);
    InstallAt(l, s.snap.base, s.log.lh, s.log.phase.k, l.start);
    assert s.disk[l.start := v] == Recovered(l, s.snap.base);
    RecoveredClears(l, s.snap.base);
    AllowanceBound(s.log.slots);
  }

  lemma KeepsCrash(l: Layout, init: Disk, s: State)
    requires Inv(l, init, s)
    ensures Inv(l, init, Boots(s.disk, |s.log.slots|, s.hist.nextOp, s.hist.groups))
  {
    Durable(l, init, s);
    AllIdle(|s.log.slots|);
  }

  // ---- reads and recycling ----

  lemma LoadCache(l: Layout, disk: Disk, cache: map<int, Block>, dirty: set<int>, held: map<int, nat>, b: int)
    requires CacheInv(l, disk, cache, dirty, held) && 0 <= b < l.total && b !in cache
    ensures CacheInv(l, disk, cache[b := disk[b]], dirty, held)
    ensures forall x :: View(disk, cache[b := disk[b]], x) == View(disk, cache, x)
  {
  }

  lemma EvictCache(l: Layout, disk: Disk, cache: map<int, Block>, dirty: set<int>, held: map<int, nat>, b: int)
    requires CacheInv(l, disk, cache, dirty, held) && b in cache && b !in dirty && b !in held
    ensures CacheInv(l, disk, cache - {b}, dirty, held)
    ensures forall x :: View(disk, cache - {b}, x) == View(disk, cache, x)
  {
  }

  /** Changing the cache without changing what it shows matters to no other part of the invariant. */
  lemma KeepsRecache(l: Layout, init: Disk, s: State, cache: map<int, Block>)
    requires Inv(l, init, s)
    requires CacheInv(l, s.disk, cache, s.buf.dirty, s.buf.held)
    requires forall x :: View(s.disk, cache, x) == View(s.disk, s.buf.cache, x)
    ensures Inv(l, init, s.(buf := s.buf.(cache := cache)))
  {
    if s.log.phase.Committing? {
      var from := if s.log.phase.k <= |s.log.lh| then 0 else s.log.phase.k - |s.log.lh| - 1;
      forall i | from <= i < |s.log.lh|
        ensures s.log.lh[i] in cache && cache[s.log.lh[i]] == s.snap.vals[i]
      {
        BlockSetHas(s.log.lh, from, s.log.lh[i]);
        assert s.log.lh[i] in s.log.lh[from..];
        assert View(s.disk, cache, s.log.lh[i]) == View(s.disk, s.buf.cache, s.log.lh[i]);
      }
    } else if s.log.phase.Running? {
      forall b | Home(l, b) && b !in s.buf.held
        ensures View(s.disk, cache, b) == Current(init, s.hist.groups, s.hist.cur)[b]
      {
        assert View(s.disk, cache, b) == View(s.disk, s.buf.cache, b);
      }
    }
  }

  predicate IsOp(a: Step) { a.BeginOp? || a.Modify? || a.EndOp? }

  lemma KeepsOps(l: Layout, init: Disk, s: State, a: Step)
    requires Inv(l, init, s) && Enabled(l, s, a) && IsOp(a)
    ensures Inv(l, init, Do(l, s, a)) == true
  {
    var t := Do(l, s, a);
    assert t.hist.groups == s.hist.groups;
    match a
    case BeginOp(p) => KeepsBegin(l, init, s, p);
    case Modify(p, b, data) => KeepsModify(l, init, s, p, b, data);
    case EndOp(p) =>
      if s.log.outstanding > 1 { KeepsEndOp(l, init, s, p); } else { LastOpStartsCommit(l, init, s, p); }
  }

  lemma KeepsLogWrite(l: Layout, init: Disk, s: State, a: Step)
    requires Inv(l, init, s) && Enabled(l, s, a) && (a.LogTest? || a.LogAppend?)
    requires SlotLeft(l, s.log.lh) || Do(l, s, a).log.lh == s.log.lh
    ensures Inv(l, init, Do(l, s, a)) == true
  {
    match a
    case LogTest(p, b) => KeepsTest(l, init, s, p, b);
    case LogAppend(p) =>
      if s.log.passed[p] in s.log.lh { KeepsAbsorb(l, init, s, p); } else { KeepsAppend(l, init, s, p); }
  }

  lemma KeepsReads(l: Layout, init: Disk, s: State, a: Step)
    requires Inv(l, init, s) && Enabled(l, s, a) && (a.Load? || a.Evict?)
    ensures Inv(l, init, Do(l, s, a)) == true
  {
    match a
    case Load(b) =>
      LoadCache(l, s.disk, s.buf.cache, s.buf.dirty, s.buf.held, b);
      KeepsRecache(l, init, s, s.buf.cache[b := s.disk[b]]);
    case Evict(b) =>
      EvictCache(l, s.disk, s.buf.cache, s.buf.dirty, s.buf.held, b);
      KeepsRecache(l, init, s, s.buf.cache - {b});
  }

  lemma KeepsRecoverWrite(l: Layout, init: Disk, s: State)
    requires Inv(l, init, s) && CanRecoverWrite(l, s)
    ensures Inv(l, init, DoRecoverWrite(l, s)) == true
  {
    if s.log.phase.k < |s.log.lh| {
      var k := s.log.phase.k;
      var b, v := s.log.lh[k], View(s.disk, s.buf.cache, l.start + 1 + k);
      RecoverWriteIs(l, s, k, b, v);
      RecoverInstall(l, init, s, k, b, v);
    } else {
      RecoverClear(l, init, s);
    }
  }

  /** Every step of every process, of the disk and of the power supply keeps the invariant, but for a log entry that
      the log area has no slot for. */
  lemma Keeps(l: Layout, init: Disk, s: State, a: Step)
    requires Inv(l, init, s) && Enabled(l, s, a)
    requires l.size > LOGSIZE || |Do(l, s, a).log.lh| < l.size
    ensures Inv(l, init, Do(l, s, a)) == true
  {
    if IsOp(a) { KeepsOps(l, init, s, a); }
    else if a.LogTest? || a.LogAppend? { KeepsLogWrite(l, init, s, a); }
    else if a.Load? || a.Evict? { KeepsReads(l, init, s, a); }
    else if a.CommitWrite? { KeepsCommitWrite(l, init, s); }
    else if a.FinishCommit? { KeepsFinish(l, init, s); }
    else if a.Crash? { KeepsCrash(l, init, s); }
    else if a.RecoverWrite? { KeepsRecoverWrite(l, init, s); }
  }

  // ---- whole runs ----

  /** states[i + 1] is states[i] after steps[i], from power-on with a disk whose log is empty. */
  ghost predicate IsRun(l: Layout, init: Disk, procs: nat, steps: seq<Step>, states: seq<State>) {
    && LogEmpty(l, init)
    && |states| == |steps| + 1
    && states[0] == Boots(init, procs, 0, [])
    && forall i {:trigger steps[i]} :: 0 <= i < |steps| ==>
         Enabled(l, states[i], steps[i]) && states[i + 1] == Do(l, states[i], steps[i])
  }

  /** Up to state i the log has not overrun its area: by its size alone, or because it happened not to. */
  ghost predicate NoOverrun(l: Layout, states: seq<State>, i: nat)
    requires i < |states|
  {
    l.size > LOGSIZE || forall k :: 0 <= k <= i ==> |states[k].log.lh| < l.size
  }

  lemma {:induction false} RunInv(l: Layout, init: Disk, procs: nat, steps: seq<Step>, states: seq<State>, i: nat)
    requires IsRun(l, init, procs, steps, states) && i < |states| && NoOverrun(l, states, i)
    ensures Inv(l, init, states[i]) == true
  {
    if i == 0 {
      AllIdle(procs);
      EmptyLogRecovers(l, init);
    } else {
      RunInv(l, init, procs, steps, states, i - 1);
      Keeps(l, init, states[i - 1], steps[i - 1]);
    }
  }

  /** Nothing removes a committed group, not even a crash. */
  lemma GroupsGrow(l: Layout, s: State, a: Step)
    requires Enabled(l, s, a)
    ensures s.hist.groups <= Do(l, s, a).hist.groups
  {
  }

  lemma {:induction false} GroupsPrefix(l: Layout, init: Disk, procs: nat, steps: seq<Step>, states: seq<State>,
                                        i: nat, j: nat)
    requires IsRun(l, init, procs, steps, states) && i <= j < |states|
    ensures states[i].hist.groups <= states[j].hist.groups
    decreases j
  {
    if i < j {
      GroupsPrefix(l, init, procs, steps, states, i, j - 1);
      GroupsGrow(l, states[j - 1], steps[j - 1]);
    }
  }

  /** Whole-run durability. At every point i of every run, a crash followed by recovery yields exactly the
      commit groups so far; every update in them comes from an operation that had ended; and at any later
      point j those groups are still the first ones. For every run on a log larger than LOGSIZE, and on a smaller one
      as long as no entry is added that has no slot (see DurabilityIff). */
  lemma WholeRunDurability(l: Layout, init: Disk, procs: nat, steps: seq<Step>, states: seq<State>, i: nat, j: nat)
    requires IsRun(l, init, procs, steps, states) && i <= j < |states| && NoOverrun(l, states, i)
    ensures LogOk(l, states[i].disk)
    ensures SameHome(l, Recovered(l, states[i].disk), Effect(init, states[i].hist.groups))
    ensures GroupsFinished(states[i].hist.groups)
    ensures states[i].hist.groups <= states[j].hist.groups
  {
    RunInv(l, init, procs, steps, states, i);
    Durable(l, init, states[i]);
    GroupsPrefix(l, init, procs, steps, states, i, j);
  }

  /** No uncommitted update reaches its home block: until the header write, home is the committed groups.
      And a commit runs only while no operation does. */
  lemma NothingUncommittedAtHome(l: Layout, init: Disk, procs: nat, steps: seq<Step>, states: seq<State>, i: nat)
    requires IsRun(l, init, procs, steps, states) && i < |states| && NoOverrun(l, states, i)
    ensures var s := states[i];
            s.log.phase.Running? || (s.log.phase.Committing? && s.log.phase.k <= |s.log.lh|) ==>
              SameHome(l, s.disk, Effect(init, s.hist.groups))
    ensures states[i].log.committing ==> states[i].log.outstanding == 0
  {
    var s := states[i];
    RunInv(l, init, procs, steps, states, i);
    if s.log.phase.Committing? && s.log.phase.k <= |s.log.lh| {
      forall b: nat | Home(l, b)
        ensures s.disk[b] == s.snap.base[b]
      {
        LogFilledAt(l, s.snap.base, s.snap.vals, s.log.phase.k, b);
      }
    }
  }

  lemma {:induction false} PlaceOf(lh: seq<int>, from: nat, b: int) returns (i: nat)
    requires from <= |lh| && b in BlockSet(lh, from)
    ensures from <= i < |lh| && lh[i] == b
    decreases |lh| - from
  {
    if lh[from] == b { i := from; } else { i := PlaceOf(lh, from + 1, b); }
  }

  /** During a commit, home blocks that are not in the transaction are as at its start. */
  lemma CommitImageOther(l: Layout, d: Disk, lh: seq<int>, vals: seq<Block>, k: nat, b: int)
    requires LayoutOk(l) && |d| == l.total && TransOk(l, lh) && |vals| == |lh| && k <= 2 * |lh| + 1
    requires Home(l, b) && b !in BlockSet(lh, 0)
    ensures CommitImage(l, d, lh, vals, k)[b] == d[b]
  {
    BlockSetHas(lh, 0, b);
    assert lh[0..] == lh;
    if k <= |lh| {
      LogFilledAt(l, d, vals, k, b);
    } else {
      LogFilledAt(l, d, vals, |vals|, b);
      InstallAt(l, Sealed(l, d, lh, vals), lh, k - |lh| - 1, b);
    }
  }

  /** And those already installed have their logged contents. */
  lemma CommitImageInstalled(l: Layout, d: Disk, lh: seq<int>, vals: seq<Block>, k: nat, i: nat)
    requires LayoutOk(l) && |d| == l.total && TransOk(l, lh) && |vals| == |lh| && k <= 2 * |lh| + 1
    requires i < PinsFrom(k, |lh|)
    ensures Home(l, lh[i]) && CommitImage(l, d, lh, vals, k)[lh[i]] == vals[i]
  {
    LogFilledAt(l, d, vals, |vals|, l.start + 1 + i);
    InstallAt(l, Sealed(l, d, lh, vals), lh, k - |lh| - 1, lh[i]);
  }

  lemma CommitReads(l: Layout, init: Disk, s: State, b: int)
    requires |init| == l.total && s.log.phase.Committing? && CommittingInv(l, init, s) && Home(l, b)
    ensures View(s.disk, s.buf.cache, b) == Current(init, s.hist.groups, s.hist.cur)[b]
  {
    var lh, vals, k := s.log.lh, s.snap.vals, s.log.phase.k;
    if b in s.buf.dirty {
      var i := PlaceOf(lh, PinsFrom(k, |lh|), b);
    } else if b in BlockSet(lh, 0) {
      var i := PlaceOf(lh, 0, b);
      if i >= PinsFrom(k, |lh|) { StillPinned(lh, PinsFrom(k, |lh|), i); }
      CommitImageInstalled(l, s.snap.base, lh, vals, k, i);
    } else {
      CommitImageOther(l, s.snap.base, lh, vals, k, b);
    }
  }

  lemma {:induction false} StillPinned(lh: seq<int>, from: nat, i: nat)
    requires from <= i < |lh|
    ensures lh[i] in BlockSet(lh, from)
    decreases i - from
  {
    if from < i { StillPinned(lh, from + 1, i); }
  }

  /** A reader of an unlocked block always sees the committed groups plus every update logged since, also while a
      commit is copying them around. */
  lemma ReadsAreLatest(l: Layout, init: Disk, procs: nat, steps: seq<Step>, states: seq<State>, i: nat, b: int)
    requires IsRun(l, init, procs, steps, states) && i < |states| && NoOverrun(l, states, i)
    requires !states[i].log.phase.Booting? && !states[i].log.phase.Recovering?
    requires Home(l, b) && b !in states[i].buf.held
    ensures |init| == l.total
    ensures View(states[i].disk, states[i].buf.cache, b) ==
              Current(init, states[i].hist.groups, states[i].hist.cur)[b]
  {
    RunInv(l, init, procs, steps, states, i);
    if states[i].log.phase.Committing? { CommitReads(l, init, states[i], b); }
  }

  /** A commit in progress always has a next write: it is never stuck. */
  lemma CommitNeverStuck(l: Layout, init: Disk, procs: nat, steps: seq<Step>, states: seq<State>, i: nat)
    requires IsRun(l, init, procs, steps, states) && i < |states| && NoOverrun(l, states, i)
    ensures states[i].log.phase.Committing? ==> CanCommitWrite(l, states[i])
    ensures states[i].log.phase.Recovering? ==> CanRecoverWrite(l, states[i])
  {
    RunInv(l, init, procs, steps, states, i);
    Durable(l, init, states[i]);
  }

  /** Nor is a process in `log_write`: past the test, it can take the lock and add its block. */
  lemma AppendNeverStuck(l: Layout, init: Disk, procs: nat, steps: seq<Step>, states: seq<State>, i: nat, p: nat)
    requires IsRun(l, init, procs, steps, states) && i < |states| && NoOverrun(l, states, i)
    requires p in states[i].log.passed && !states[i].log.panicked
    ensures Enabled(l, states[i], LogAppend(p))
  {
    RunInv(l, init, procs, steps, states, i);
  }

  // ---- an operation that has ended is committed ----

  /** Nothing waits to be committed: no operation has ended and no update been logged since the last commit point. */
  ghost predicate AllCommitted(s: State) { s.hist.finished == {} && s.hist.cur == NoUpdates }

  /** The commit point has been passed, or no operation is running. */
  predicate Settled(s: State) {
    match s.log.phase
    case Running => s.log.outstanding == 0
    case Committing(k) => |s.log.lh| > 0 && k > |s.log.lh|
    case _ => true
  }

  ghost predicate SettledInv(s: State) {
    && s.log.outstanding == CountBusy(s.log.slots)
    && (Settled(s) ==> AllCommitted(s))
    && (s.log.phase.Closing? || (s.log.phase.Running? && s.log.outstanding == 0) ==> s.log.lh == [])
  }

  lemma SettledStep(l: Layout, s: State, a: Step)
    requires Enabled(l, s, a) && SettledInv(s)
    ensures SettledInv(Do(l, s, a)) == true
  {
    match a
    case BeginOp(p) => SlotUpdate(s.log.slots, p, Busy(s.hist.nextOp, 0));
    case LogAppend(p) =>
      var slot := s.log.slots[p];
      SlotUpdate(s.log.slots, p, slot.(used := slot.used + 1));
      BusyCounts(s.log.slots, p);
    case EndOp(p) => SlotUpdate(s.log.slots, p, Idle);
    case Crash => AllIdle(|s.log.slots|);
    case CommitWrite => SettledCommit(l, s);
    case _ => SettledElse(l, s, a);
  }

  lemma SettledElse(l: Layout, s: State, a: Step)
    requires Enabled(l, s, a) && SettledInv(s)
    requires a.Modify? || a.LogTest? || a.Load? || a.Evict? || a.FinishCommit? || a.Boot? || a.RecoverWrite?
    ensures SettledInv(Do(l, s, a)) == true
  {
  }

  lemma SettledCommit(l: Layout, s: State)
    requires CanCommitWrite(l, s) && SettledInv(s)
    ensures SettledInv(DoCommitWrite(l, s)) == true
  {
  }

  lemma BusyCounts(slots: seq<Slot>, p: nat)
    requires BusyAt(slots, p)
    ensures CountBusy(slots) > 0
  {
    SlotUpdate(slots, p, Idle);
  }

  /** In every run, whenever the machine runs and no operation does, every operation that has ended is in a committed
      group, with all its updates, and the log is empty. */
  lemma {:induction false} EndedIsCommitted(l: Layout, init: Disk, procs: nat, steps: seq<Step>, states: seq<State>,
                                            i: nat)
    requires IsRun(l, init, procs, steps, states) && i < |states|
    ensures SettledInv(states[i])
    ensures states[i].log.phase.Running? && states[i].log.outstanding == 0 ==>
              states[i].hist.finished == {} && states[i].hist.cur == NoUpdates && states[i].log.lh == []
  {
    if i == 0 {
      AllIdle(procs);
    } else {
      EndedIsCommitted(l, init, procs, steps, states, i - 1);
      SettledStep(l, states[i - 1], steps[i - 1]);
    }
  }
}
