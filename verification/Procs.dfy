/** proc.c: fork, exit, wait and wait2 on the process table. A process is its index in the table. A method is what
    happens between acquiring and releasing ptable.lock; a run is any sequence of them. */
module Procs {

  const NONE := -1
  /** Clock ticks in a time slice. */
  const INTERV := 5

  datatype State = UNUSED | EMBRYO | SLEEPING | RUNNABLE | RUNNING | ZOMBIE

  /** What a process sleeps on: itself, in wait and wait2, or something else. */
  datatype Chan = Nothing | Self(i: int) | Other(x: int)

  datatype Proc = Proc(state: State, pid: int, parent: int, chan: Chan, killed: bool,
                       retime: int, rutime: int, stime: int, timeslice: int)

  type Table = seq<Proc>

  predicate Alive(s: State) { s == SLEEPING || s == RUNNABLE || s == RUNNING }

  /** Process i sleeps in wait. */
  predicate Waits(t: Table, i: int)
    requires 0 <= i < |t|
  {
    t[i].state == SLEEPING && t[i].chan == Self(i)
  }

  // ---- the invariant at every release of the lock ----

  ghost predicate ProcOk(t: Table, init: int, j: int)
    requires 0 <= j < |t| && 0 <= init < |t|
  {
    && (t[j].state == UNUSED ==> t[j].parent == NONE)
    && (t[j].state == RUNNING ==> 0 < t[j].timeslice <= INTERV)
    && (t[j].parent != NONE ==> 0 <= t[j].parent < |t| && Alive(t[t[j].parent].state) && t[j].parent != j)
    && ((Alive(t[j].state) || t[j].state == ZOMBIE) && j != init ==> t[j].parent != NONE)
    && (j == init ==> t[j].parent == NONE)
    && (t[j].state == ZOMBIE && t[j].parent != NONE ==> !Waits(t, t[j].parent))
  }

  /** init is alive, every parent is alive, every zombie has a parent, no process sleeps in wait while a child of it
      is a zombie, and a RUNNING process has something left of its time slice. */
  ghost predicate Inv(t: Table, init: int) {
    && 0 <= init < |t| && Alive(t[init].state)
    && (forall j :: 0 <= j < |t| ==> ProcOk(t, init, j))
  }

  /** The promise to wait: no lost wakeup. */
  lemma NoForgottenZombie(t: Table, init: int, i: int, j: int)
    requires Inv(t, init) && 0 <= i < |t| && 0 <= j < |t|
    requires t[j].parent == i && t[j].state == ZOMBIE
    ensures !Waits(t, i)
  {
    assert ProcOk(t, init, j);
  }

  /** What a step tells: nothing, or that `reaper` has reaped the zombie in `slot` and got `pid` for it. */
  datatype Event = Quiet | Reap(slot: int, reaper: int, pid: int)

  /** Zombie j stays one, with its pid, and with its parent until that one is a zombie itself and init takes over. */
  ghost predicate StaysZombie(t: Table, t': Table, init: int, j: int)
    requires 0 <= j < |t| == |t'|
  {
    && t'[j].state == ZOMBIE && t'[j].pid == t[j].pid
    && (t'[j].parent == t[j].parent ||
        (t'[j].parent == init && 0 <= t[j].parent < |t| && t'[t[j].parent].state == ZOMBIE))
  }

  /** Zombies stay zombies until they are reaped: by their parent, who gets their pid. */
  ghost predicate Step(t: Table, t': Table, init: int, e: Event) {
    && |t'| == |t|
    && (e.Reap? ==> 0 <= e.slot < |t| && t[e.slot].state == ZOMBIE && t[e.slot].parent == e.reaper &&
                    t[e.slot].pid == e.pid && t'[e.slot].state == UNUSED)
    && (forall j :: 0 <= j < |t| && t[j].state == ZOMBIE && !(e.Reap? && e.slot == j) ==> StaysZombie(t, t', init, j))
  }

  // ---- wakeup1 ----

  function Wake(p: Proc, chan: Chan): Proc {
    if p.state == SLEEPING && p.chan == chan then p.(state := RUNNABLE) else p
  }

  function Woken(t: Table, chan: Chan): Table { seq(|t|, j requires 0 <= j < |t| => Wake(t[j], chan)) }

  /** A table in which some sleepers have been made RUNNABLE and nothing else is different. */
  ghost predicate Stirred(t: Table, t': Table) {
    && |t'| == |t|
    && (forall j :: 0 <= j < |t| ==> t'[j] == t[j] || (t[j].state == SLEEPING && t'[j] == t[j].(state := RUNNABLE)))
  }

  lemma StirredKeeps(t: Table, t': Table, init: int)
    requires Inv(t, init) && Stirred(t, t')
    ensures Inv(t', init) && Step(t, t', init, Quiet)
  {
    forall j | 0 <= j < |t| ensures ProcOk(t', init, j) { assert ProcOk(t, init, j); }
  }

  // ---- exit ----

  /** The loop that passes children of cur to init, after n entries. */
  function Passed(t: Table, cur: int, init: int, n: nat): Table
    requires n <= |t|
    ensures |Passed(t, cur, init, n)| == |t|
  {
    if n == 0 then t
    else PassOne(Passed(t, cur, init, n - 1), cur, init, n - 1)
  }

  function NewParent(p: Proc, cur: int, init: int): int { if p.parent == cur then init else p.parent }

  /** Process p sleeps as i does in wait. */
  predicate Hears(p: Proc, i: int) { p.state == SLEEPING && p.chan == Self(i) }

  /** One of the first n processes is a zombie child of cur. */
  ghost predicate ZombieBelow(t: Table, cur: int, n: int) {
    exists k :: 0 <= k < n && k < |t| && t[k].parent == cur && t[k].state == ZOMBIE
  }

  ghost predicate HasZombie(t: Table, cur: int) { ZombieBelow(t, cur, |t|) }

  /** What the loop has done: parents replaced, and init awake if it got a zombie. */
  ghost predicate PassedOk(t: Table, u: Table, cur: int, init: int, n: nat)
    requires n <= |t|
  {
    && |u| == |t|
    && (forall j :: 0 <= j < |t| ==> u[j] == t[j].(parent := u[j].parent, state := u[j].state))
    && (forall j :: 0 <= j < |t| ==> u[j].parent == if j < n then NewParent(t[j], cur, init) else t[j].parent)
    && (forall j :: 0 <= j < |t| ==>
          u[j].state == if Hears(t[j], init) && ZombieBelow(t, cur, n) then RUNNABLE else t[j].state)
  }

  lemma {:induction false} PassedAll(t: Table, cur: int, init: int, n: nat)
    requires n <= |t|
    ensures PassedOk(t, Passed(t, cur, init, n), cur, init, n)
  {
    if n > 0 {
      PassedAll(t, cur, init, n - 1);
      PassedOne(t, Passed(t, cur, init, n - 1), cur, init, n - 1);
    }
  }

  /** The turn of the loop for entry n. */
  function PassOne(u: Table, cur: int, init: int, n: nat): Table
    requires n < |u|
  {
    if u[n].parent != cur then u
    else
      var v := u[n := u[n].(parent := init)];
      if u[n].state == ZOMBIE then Woken(v, Self(init)) else v
  }

  lemma PassedOne(t: Table, u: Table, cur: int, init: int, n: nat)
    requires n < |t| && PassedOk(t, u, cur, init, n)
    ensures PassedOk(t, PassOne(u, cur, init, n), cur, init, n + 1)
  {
    assert ZombieBelow(t, cur, n + 1) <==> ZombieBelow(t, cur, n) || (t[n].parent == cur && t[n].state == ZOMBIE);
  }

  /** The table that exit leaves. */
  function Exited(t: Table, cur: int, init: int): Table
    requires 0 <= cur < |t|
  {
    var u := Passed(Woken(t, Self(t[cur].parent)), cur, init, |t|);
    u[cur := u[cur].(state := ZOMBIE)]
  }

  /** What exit leaves: cur a zombie; its children with init for a parent; awake who waits as the parent of cur, or as
      init if that has got a zombie; nothing else changed. */
  ghost predicate ExitDone(t: Table, t': Table, cur: int, init: int)
    requires 0 <= cur < |t|
  {
    && |t'| == |t| && t'[cur] == t[cur].(state := ZOMBIE)
    && forall j :: 0 <= j < |t| && j != cur ==>
         t'[j] == t[j].(parent := if t[j].parent == cur then init else t[j].parent,
                        state := if Hears(t[j], t[cur].parent) || (Hears(t[j], init) && HasZombie(t, cur))
                                 then RUNNABLE else t[j].state)
  }

  lemma ExitedIs(t: Table, cur: int, init: int)
    requires Inv(t, init) && 0 <= cur < |t| && cur != init && t[cur].state == RUNNING
    ensures ExitDone(t, Exited(t, cur, init), cur, init)
  {
    var w := Woken(t, Self(t[cur].parent));
    PassedAll(w, cur, init, |t|);
    assert ProcOk(t, init, cur);
    SameZombies(t, w, cur);
  }

  lemma SameZombies(t: Table, w: Table, cur: int)
    requires |w| == |t|
    requires forall j :: 0 <= j < |t| ==> w[j].parent == t[j].parent && (w[j].state == ZOMBIE <==> t[j].state == ZOMBIE)
    ensures HasZombie(t, cur) <==> HasZombie(w, cur)
  {
    if HasZombie(t, cur) {
      var k :| 0 <= k < |t| && t[k].parent == cur && t[k].state == ZOMBIE;
      assert w[k].parent == cur && w[k].state == ZOMBIE;
    }
  }

  /** The parent's next wait that finds it, or init's if the parent is gone, gets the pid of the process that exited. */
  lemma ExitIsReported(t: Table, cur: int, init: int, states: seq<Table>, events: seq<Event>, m: nat)
    requires 0 <= cur < |t| && Run(states, init, events) && ExitDone(t, states[0], cur, init)
    requires m <= |events| && forall i :: 0 <= i < m ==> !Reaps(events[i], cur)
    ensures cur < |states[m]| && states[m][cur].state == ZOMBIE && states[m][cur].pid == t[cur].pid
    ensures m < |events| && Reaps(events[m], cur) ==>
              && events[m] == Reap(cur, states[m][cur].parent, t[cur].pid)
              && states[m + 1][cur].state == UNUSED
  {
    ZombieUntilReaped(states, init, events, cur, m);
  }

  lemma ExitedProc(t: Table, e: Table, cur: int, init: int, j: int)
    requires Inv(t, init) && 0 <= cur < |t| && cur != init && t[cur].state == RUNNING && 0 <= j < |t|
    requires ExitDone(t, e, cur, init)
    ensures ProcOk(e, init, j)
  {
    assert ProcOk(t, init, j) && ProcOk(t, init, cur) && ProcOk(t, init, init);
  }

  lemma ExitedKeeps(t: Table, e: Table, cur: int, init: int)
    requires Inv(t, init) && 0 <= cur < |t| && cur != init && t[cur].state == RUNNING
    requires ExitDone(t, e, cur, init)
    ensures Inv(e, init) && Step(t, e, init, Quiet)
  {
    forall j | 0 <= j < |t| ensures ProcOk(e, init, j) { ExitedProc(t, e, cur, init, j); }
  }

  // ---- wait ----

  ghost predicate HasChild(t: Table, cur: int) { exists j :: 0 <= j < |t| && t[j].parent == cur }

  /** A zombie's slot after wait (or wait2, which also clears the times). */
  function Reaped(t: Table, r: int, two: bool): Table
    requires 0 <= r < |t|
  {
    var p := t[r].(state := UNUSED, pid := 0, parent := NONE, killed := false);
    t[r := if two then p.(retime := 0, rutime := 0, stime := 0) else p]
  }

  lemma ReapedKeeps(t: Table, init: int, r: int, two: bool)
    requires Inv(t, init) && 0 <= r < |t| && t[r].state == ZOMBIE
    ensures Inv(Reaped(t, r, two), init) && Step(t, Reaped(t, r, two), init, Reap(r, t[r].parent, t[r].pid))
  {
    var t' := Reaped(t, r, two);
    forall j | 0 <= j < |t| ensures ProcOk(t', init, j) { assert ProcOk(t, init, j) && ProcOk(t, init, r); }
  }

  /** Changing what one living process does, short of waiting with a zombie child. */
  lemma OneKeeps(t: Table, init: int, i: int, p: Proc)
    requires Inv(t, init) && 0 <= i < |t| && Alive(t[i].state) && Alive(p.state) && p.parent == t[i].parent
    requires p.state == RUNNING ==> 0 < p.timeslice <= INTERV
    requires p.state == SLEEPING && p.chan == Self(i) ==>
               forall j :: 0 <= j < |t| && t[j].parent == i ==> t[j].state != ZOMBIE
    ensures Inv(t[i := p], init) && Step(t, t[i := p], init, Quiet)
  {
    var t' := t[i := p];
    forall j | 0 <= j < |t| ensures ProcOk(t', init, j) { assert ProcOk(t, init, j) && ProcOk(t, init, i); }
  }

  /** Changing a slot that is being set up or taken down, and that nobody depends on. */
  lemma SlotKeeps(t: Table, init: int, i: int, p: Proc)
    requires Inv(t, init) && 0 <= i < |t| && (t[i].state == UNUSED || t[i].state == EMBRYO)
    requires p.state == UNUSED ==> p.parent == NONE
    requires p.state == UNUSED || p.state == EMBRYO || (p.state == RUNNABLE && p.parent != NONE)
    requires p.parent != NONE ==> 0 <= p.parent < |t| && Alive(t[p.parent].state)
    ensures Inv(t[i := p], init) && Step(t, t[i := p], init, Quiet)
  {
    var t' := t[i := p];
    forall j | 0 <= j < |t| ensures ProcOk(t', init, j) { assert ProcOk(t, init, j) && ProcOk(t, init, i); }
  }

  // ---- whole runs ----

  /** states is a run; events[i] is what step i tells. */
  ghost predicate Run(states: seq<Table>, init: int, events: seq<Event>) {
    && |states| == |events| + 1
    && (forall i :: 0 <= i < |events| ==> Step(states[i], states[i + 1], init, events[i]))
  }

  predicate Reaps(e: Event, j: int) { e.Reap? && e.slot == j }

  /** A zombie is there, under the same pid, until the first step that reaps its slot; so nothing but its parent's
      wait takes it away, and a slot is not reaped again without having been a new zombie in between. */
  lemma {:induction false} ZombieUntilReaped(states: seq<Table>, init: int, events: seq<Event>, j: nat, m: nat)
    requires Run(states, init, events) && m <= |events| && j < |states[0]| && states[0][j].state == ZOMBIE
    requires forall i :: 0 <= i < m ==> !Reaps(events[i], j)
    ensures j < |states[m]| && states[m][j].state == ZOMBIE && states[m][j].pid == states[0][j].pid
    ensures m < |events| && Reaps(events[m], j) ==>
              events[m] == Reap(j, states[m][j].parent, states[0][j].pid) && states[m + 1][j].state == UNUSED
  {
    if m > 0 {
      ZombieUntilReaped(states, init, events, j, m - 1);
      assert Step(states[m - 1], states[m], init, events[m - 1]);
      assert StaysZombie(states[m - 1], states[m], init, j);
    }
    if m < |events| { assert Step(states[m], states[m + 1], init, events[m]); }
  }

  /** And it is its parent's for as long as that one does not exit. */
  lemma {:induction false} ParentUntilExit(states: seq<Table>, init: int, events: seq<Event>, j: nat, m: nat)
    requires Run(states, init, events) && m <= |events| && j < |states[0]| && states[0][j].state == ZOMBIE
    requires forall i :: 0 <= i < m ==> !Reaps(events[i], j)
    requires var q := states[0][j].parent;
             forall i :: 0 <= i <= m && 0 <= q < |states[i]| ==> states[i][q].state != ZOMBIE
    ensures j < |states[m]| && states[m][j].parent == states[0][j].parent
  {
    if m > 0 {
      ParentUntilExit(states, init, events, j, m - 1);
      ZombieUntilReaped(states, init, events, j, m - 1);
      assert Step(states[m - 1], states[m], init, events[m - 1]);
      assert StaysZombie(states[m - 1], states[m], init, j);
    }
  }

  // ---- the code ----

  /** A killed process is marked, and does not go on sleeping. */
  function Killed(p: Proc): Proc {
    p.(killed := true, state := if p.state == SLEEPING then RUNNABLE else p.state)
  }

  /** No process before n has that pid. */
  ghost predicate FirstFrom(t: Table, n: int, pid: int) { forall j :: 0 <= j < n && j < |t| ==> t[j].pid != pid }

  /** A tick of the slice is over. */
  function Yielded(p: Proc): Proc {
    p.(timeslice := p.timeslice - 1, state := if p.timeslice == 1 then RUNNABLE else p.state)
  }

  /** And n ticks, with the process running. */
  function YieldedOften(p: Proc, n: nat): Proc { if n == 0 then p else Yielded(YieldedOften(p, n - 1)) }

  /** A process just dispatched runs through exactly INTERV ticks. */
  lemma {:induction false} SliceLasts(p: Proc, n: nat)
    requires p.state == RUNNING && p.timeslice == INTERV && n <= INTERV
    ensures YieldedOften(p, n).timeslice == INTERV - n
    ensures YieldedOften(p, n).state == if n < INTERV then RUNNING else RUNNABLE
  {
    if n > 0 { SliceLasts(p, n - 1); }
  }

  ghost predicate IsFirstUnused(t: Table, i: int) {
    0 <= i < |t| && t[i].state == UNUSED && forall j :: 0 <= j < i ==> t[j].state != UNUSED
  }

  function Embryo(p: Proc, pid: int): Proc { p.(state := EMBRYO, pid := pid, retime := 0, rutime := 0, stime := 0) }

  /** A slot never used. */
  function UnusedProc(): Proc { Proc(UNUSED, 0, NONE, Nothing, false, 0, 0, 0, 0) }

  datatype WaitResult = Child(pid: int, retime: int, rutime: int, stime: int) | NoChild | Asleep

  class PTable {
    var proc: Table
    const init: int

    /** `userinit`: the first process in a table of n. */
    constructor (n: nat, pid: int)
      requires n > 0
      ensures Inv(proc, init) && |proc| == n && proc[init].state == RUNNABLE && proc[init].pid == pid
      ensures forall j :: 0 <= j < n && j != init ==> proc[j].state == UNUSED
    {
      init := 0;
      proc := [Embryo(UnusedProc(), pid).(state := RUNNABLE)] + seq(n - 1, j => UnusedProc());
      new;
      forall j | 0 <= j < n ensures ProcOk(proc, init, j) { assert j > 0 ==> proc[j] == UnusedProc(); }
    }

    /** wakeup1. */
    method Wakeup1(chan: Chan)
      modifies this`proc
      ensures proc == Woken(old(proc), chan)
    {
      ghost var t := proc;
      var p := 0;
      while p < |proc|
        invariant 0 <= p <= |t| == |proc|
        invariant forall j :: 0 <= j < |t| ==> proc[j] == if j < p then Wake(t[j], chan) else t[j]
      {
        if proc[p].state == SLEEPING && proc[p].chan == chan {
          proc := proc[p := proc[p].(state := RUNNABLE)];
        }
        p := p + 1;
      }
    }

    /** wakeup, from anywhere in the kernel. */
    method Wakeup(chan: Chan)
      requires Inv(proc, init)
      modifies this`proc
      ensures Inv(proc, init) && Step(old(proc), proc, init, Quiet) && |proc| == |old(proc)|
      ensures forall j :: 0 <= j < |proc| ==>
                proc[j] == if old(proc)[j].state == SLEEPING && old(proc)[j].chan == chan
                           then old(proc)[j].(state := RUNNABLE) else old(proc)[j]
    {
      Wakeup1(chan);
      StirredKeeps(old(proc), proc, init);
    }

    /** exit, up to the switch to the scheduler; init itself may not exit. */
    method Exit(cur: int)
      requires Inv(proc, init) && 0 <= cur < |proc| && cur != init && proc[cur].state == RUNNING
      modifies this`proc
      ensures Inv(proc, init) && Step(old(proc), proc, init, Quiet)
      ensures ExitDone(old(proc), proc, cur, init)
    {
      ExitedIs(proc, cur, init);
      ExitedKeeps(proc, Exited(proc, cur, init), cur, init);
      Wakeup1(Self(proc[cur].parent));
      ghost var w := proc;
      var p := 0;
      while p < |proc|
        invariant 0 <= p <= |w| == |proc| && proc == Passed(w, cur, init, p)
      {
        if proc[p].parent == cur {
          var zombie := proc[p].state == ZOMBIE;
          proc := proc[p := proc[p].(parent := init)];
          if zombie { Wakeup1(Self(init)); }
        }
        p := p + 1;
      }
      proc := proc[cur := proc[cur].(state := ZOMBIE)];
    }

    /** One pass of the loop in wait, or in wait2. It reaps a zombie child, or reports that there is none to wait
        for (no child at all, or the caller has been killed), or goes to sleep. */
    method Wait(cur: int, two: bool) returns (w: WaitResult, ghost r: int)
      requires Inv(proc, init) && 0 <= cur < |proc| && proc[cur].state == RUNNING
      modifies this`proc
      ensures Inv(proc, init)
      ensures Step(old(proc), proc, init, if w.Child? then Reap(r, cur, w.pid) else Quiet)
      ensures w.Child? <==> HasZombie(old(proc), cur)
      ensures w.Child? ==> 0 <= r < |proc| && proc == Reaped(old(proc), r, two)
      ensures w.Child? ==> var c := old(proc)[r]; w == Child(c.pid, c.retime, c.rutime, c.stime)
      ensures w.Child? ==> forall j :: 0 <= j < r ==> old(proc)[j].parent != cur || old(proc)[j].state != ZOMBIE
      ensures w.Child? ==> proc[r].pid == 0 && proc[r].parent == NONE && !proc[r].killed
      ensures w.Child? && two ==> proc[r].retime == 0 && proc[r].rutime == 0 && proc[r].stime == 0
      ensures w.Child? && !two ==> proc[r].retime == w.retime && proc[r].rutime == w.rutime && proc[r].stime == w.stime
      ensures w.NoChild? ==> proc == old(proc) && (!HasChild(proc, cur) || proc[cur].killed)
      ensures w.Asleep? ==> proc == old(proc)[cur := old(proc)[cur].(state := SLEEPING, chan := Self(cur))]
      ensures w.Asleep? ==> HasChild(old(proc), cur) && !proc[cur].killed
    {
      var havekids, p := false, 0;
      while p < |proc|
        invariant 0 <= p <= |proc| && proc == old(proc)
        invariant havekids <==> exists j :: 0 <= j < p && proc[j].parent == cur
        invariant forall j :: 0 <= j < p && proc[j].parent == cur ==> proc[j].state != ZOMBIE
      {
        if proc[p].parent == cur {
          havekids := true;
          if proc[p].state == ZOMBIE {
            w := Child(proc[p].pid, proc[p].retime, proc[p].rutime, proc[p].stime);
            ReapedKeeps(proc, init, p, two);
            var q := proc[p].(state := UNUSED, pid := 0, parent := NONE, killed := false);
            proc := proc[p := if two then q.(retime := 0, rutime := 0, stime := 0) else q];
            return w, p;
          }
        }
        p := p + 1;
      }
      if !havekids || proc[cur].killed { return NoChild, NONE; }
      OneKeeps(proc, init, cur, proc[cur].(state := SLEEPING, chan := Self(cur)));
      proc := proc[cur := proc[cur].(state := SLEEPING, chan := Self(cur))];
      return Asleep, NONE;
    }

    /** sleep, on anything but a process. */
    method Sleep(cur: int, x: int)
      requires Inv(proc, init) && 0 <= cur < |proc| && proc[cur].state == RUNNING
      modifies this`proc
      ensures Inv(proc, init) && Step(old(proc), proc, init, Quiet)
      ensures proc == old(proc)[cur := old(proc)[cur].(state := SLEEPING, chan := Other(x))]
    {
      OneKeeps(proc, init, cur, proc[cur].(state := SLEEPING, chan := Other(x)));
      proc := proc[cur := proc[cur].(state := SLEEPING, chan := Other(x))];
    }

    /** yield, at a tick of the clock or by system call: the process goes on running unless this was the last of its
        slice. */
    method Yield(cur: int)
      requires Inv(proc, init) && 0 <= cur < |proc| && proc[cur].state == RUNNING
      modifies this`proc
      ensures Inv(proc, init) && Step(old(proc), proc, init, Quiet)
      ensures proc == old(proc)[cur := Yielded(old(proc)[cur])]
    {
      assert ProcOk(proc, init, cur);
      OneKeeps(proc, init, cur, Yielded(proc[cur]));
      proc := proc[cur := proc[cur].(timeslice := proc[cur].timeslice - 1)];
      if proc[cur].timeslice == 0 {
        proc := proc[cur := proc[cur].(state := RUNNABLE)];
      }
      assert proc == old(proc)[cur := Yielded(old(proc)[cur])];
    }

    /** The scheduler's choice: a whole slice for process i. */
    method Dispatch(i: int)
      requires Inv(proc, init) && 0 <= i < |proc| && proc[i].state == RUNNABLE
      modifies this`proc
      ensures Inv(proc, init) && Step(old(proc), proc, init, Quiet)
      ensures proc == old(proc)[i := old(proc)[i].(state := RUNNING, timeslice := INTERV)]
    {
      OneKeeps(proc, init, i, proc[i].(state := RUNNING, timeslice := INTERV));
      proc := proc[i := proc[i].(state := RUNNING)];
      proc := proc[i := proc[i].(timeslice := INTERV)];
      assert proc == old(proc)[i := old(proc)[i].(state := RUNNING, timeslice := INTERV)];
    }

    /** kill: the first process with that pid is marked, and woken if it sleeps. */
    method Kill(pid: int) returns (ok: bool, ghost j: int)
      requires Inv(proc, init)
      modifies this`proc
      ensures Inv(proc, init) && Step(old(proc), proc, init, Quiet)
      ensures !ok ==> proc == old(proc) && FirstFrom(proc, |proc|, pid)
      ensures ok ==> 0 <= j < |old(proc)| && old(proc)[j].pid == pid && FirstFrom(old(proc), j, pid)
      ensures ok ==> proc == old(proc)[j := Killed(old(proc)[j])]
      ensures ok ==> proc[j].killed && proc[j].pid == pid && proc[j].state != SLEEPING
      ensures ok && old(proc)[j].state != SLEEPING ==> proc[j] == old(proc)[j].(killed := true)
    {
      var p := 0;
      while p < |proc|
        invariant 0 <= p <= |proc| && proc == old(proc)
        invariant forall j :: 0 <= j < p ==> proc[j].pid != pid
      {
        if proc[p].pid == pid {
          KilledKeeps(proc, init, p);
          proc := proc[p := proc[p].(killed := true)];
          if proc[p].state == SLEEPING { proc := proc[p := proc[p].(state := RUNNABLE)]; }
          assert proc == old(proc)[p := Killed(old(proc)[p])];
          return true, p;
        }
        p := p + 1;
      }
      ok, j := false, NONE;
    }

    /** allocproc, while it holds the lock: the first unused slot, or NONE. */
    method AllocSlot(pid: int) returns (np: int)
      requires Inv(proc, init)
      modifies this`proc
      ensures Inv(proc, init) && Step(old(proc), proc, init, Quiet)
      ensures np == NONE <==> forall j :: 0 <= j < |proc| ==> old(proc)[j].state != UNUSED
      ensures np == NONE ==> proc == old(proc)
      ensures np != NONE ==> IsFirstUnused(old(proc), np)
      ensures np != NONE ==> proc == old(proc)[np := old(proc)[np].(state := EMBRYO, pid := pid)]
    {
      var p := 0;
      while p < |proc|
        invariant 0 <= p <= |proc| && proc == old(proc)
        invariant forall j :: 0 <= j < p ==> proc[j].state != UNUSED
      {
        if proc[p].state == UNUSED {
          assert ProcOk(proc, init, p);
          SlotKeeps(proc, init, p, proc[p].(state := EMBRYO, pid := pid));
          proc := proc[p := proc[p].(state := EMBRYO, pid := pid)];
          return p;
        }
        p := p + 1;
      }
      np := NONE;
    }

    /** allocproc: NONE exactly when no slot is unused or there is no memory for a kernel stack (`stack` says whether
        kalloc gives one); without a stack the slot is unused again, but keeps the pid. */
    method Allocproc(pid: int, stack: bool) returns (np: int)
      requires Inv(proc, init)
      modifies this`proc
      ensures Inv(proc, init) && Step(old(proc), proc, init, Quiet)
      ensures np == NONE <==> !stack || forall j :: 0 <= j < |proc| ==> old(proc)[j].state != UNUSED
      ensures np != NONE ==> IsFirstUnused(old(proc), np)
      ensures np != NONE ==> proc == old(proc)[np := Embryo(old(proc)[np], pid)]
      ensures np != NONE ==> proc[np].state == EMBRYO && proc[np].pid == pid && proc[np].parent == NONE
      ensures np != NONE ==> proc[np].retime == 0 && proc[np].rutime == 0 && proc[np].stime == 0
      ensures forall j :: IsFirstUnused(old(proc), j) && !stack ==> proc == old(proc)[j := old(proc)[j].(pid := pid)]
      ensures np == NONE && stack ==> proc == old(proc)
    {
      np := AllocSlot(pid);
      if np == NONE { return; }
      assert ProcOk(old(proc), init, np);
      if !stack {
        SlotKeeps(proc, init, np, proc[np].(state := UNUSED));
        proc := proc[np := proc[np].(state := UNUSED)];
        return NONE;
      }
      SlotKeeps(proc, init, np, proc[np].(retime := 0, rutime := 0, stime := 0));
      proc := proc[np := proc[np].(retime := 0, rutime := 0, stime := 0)];
    }

    /** fork without memory for the copy. */
    method ForkFails(np: int)
      requires Inv(proc, init) && 0 <= np < |proc| && proc[np].state == EMBRYO && proc[np].parent == NONE
      modifies this`proc
      ensures Inv(proc, init) && Step(old(proc), proc, init, Quiet)
      ensures proc == old(proc)[np := old(proc)[np].(state := UNUSED)]
    {
      SlotKeeps(proc, init, np, proc[np].(state := UNUSED));
      proc := proc[np := proc[np].(state := UNUSED)];
    }

    /** fork enters the parent while the child is still an embryo. */
    method ForkParent(cur: int, np: int)
      requires Inv(proc, init) && 0 <= np < |proc| && proc[np].state == EMBRYO
      requires 0 <= cur < |proc| && proc[cur].state == RUNNING
      modifies this`proc
      ensures Inv(proc, init) && Step(old(proc), proc, init, Quiet)
      ensures proc == old(proc)[np := old(proc)[np].(parent := cur)]
    {
      SlotKeeps(proc, init, np, proc[np].(parent := cur));
      proc := proc[np := proc[np].(parent := cur)];
    }

    /** fork's last step. */
    method ForkRuns(np: int)
      requires Inv(proc, init) && 0 <= np < |proc| && proc[np].state == EMBRYO && proc[np].parent != NONE
      modifies this`proc
      ensures Inv(proc, init) && Step(old(proc), proc, init, Quiet)
      ensures proc == old(proc)[np := old(proc)[np].(state := RUNNABLE)]
    {
      assert ProcOk(proc, init, np);
      SlotKeeps(proc, init, np, proc[np].(state := RUNNABLE));
      proc := proc[np := proc[np].(state := RUNNABLE)];
    }

    /** countprocs, once a tick: every process that is running, ready or asleep is charged that tick in exactly one
        of its three counters, and nothing else changes. */
    method Countprocs()
      requires Inv(proc, init)
      modifies this`proc
      ensures Inv(proc, init) && Step(old(proc), proc, init, Quiet) && |proc| == |old(proc)|
      ensures forall j :: 0 <= j < |proc| ==> proc[j] == Charged(old(proc)[j])
      ensures forall j :: 0 <= j < |proc| ==>
                && proc[j].retime == old(proc)[j].retime + (if old(proc)[j].state == RUNNABLE then 1 else 0)
                && proc[j].rutime == old(proc)[j].rutime + (if old(proc)[j].state == RUNNING then 1 else 0)
                && proc[j].stime == old(proc)[j].stime + (if old(proc)[j].state == SLEEPING then 1 else 0)
    {
      ghost var t := proc;
      var p := 0;
      while p < |proc|
        invariant 0 <= p <= |t| == |proc|
        invariant forall j :: 0 <= j < |t| ==> proc[j] == if j < p then Charged(t[j]) else t[j]
      {
        match proc[p].state {
          case RUNNABLE => proc := proc[p := proc[p].(retime := proc[p].retime + 1)];
          case RUNNING => proc := proc[p := proc[p].(rutime := proc[p].rutime + 1)];
          case SLEEPING => proc := proc[p := proc[p].(stime := proc[p].stime + 1)];
          case _ =>
        }
        p := p + 1;
      }
      ChargedKeeps(t, proc, init);
    }
  }

  lemma KilledKeeps(t: Table, init: int, i: int)
    requires Inv(t, init) && 0 <= i < |t|
    ensures Inv(t[i := Killed(t[i])], init) && Step(t, t[i := Killed(t[i])], init, Quiet)
  {
    var t' := t[i := Killed(t[i])];
    forall j | 0 <= j < |t| ensures ProcOk(t', init, j) { assert ProcOk(t, init, j); }
  }

  function Charged(p: Proc): Proc {
    match p.state
    case RUNNABLE => p.(retime := p.retime + 1)
    case RUNNING => p.(rutime := p.rutime + 1)
    case SLEEPING => p.(stime := p.stime + 1)
    case _ => p
  }

  /** Time is conserved: a tick adds one to the sum of the counters of each living process and nothing to others. */
  lemma ChargedSum(p: Proc)
    ensures var q := Charged(p);
            q.retime + q.rutime + q.stime == p.retime + p.rutime + p.stime + (if Alive(p.state) then 1 else 0)
  {
  }

  lemma ChargedKeeps(t: Table, t': Table, init: int)
    requires Inv(t, init) && |t'| == |t| && forall j :: 0 <= j < |t| ==> t'[j] == Charged(t[j])
    ensures Inv(t', init) && Step(t, t', init, Quiet)
  {
    forall j | 0 <= j < |t| ensures ProcOk(t', init, j) { assert ProcOk(t, init, j); }
  }
}
