/** vm.c and kalloc.c on values: physical pages, the free list threaded through them, and two-level page tables.
    A physical page has a frame number (address / PGSIZE); a page of an address space has a directory index and a
    table index. The words of a page table are pairs of frame number and the twelve flag bits. */
module VmSpec {

  const PGSIZE := 4096
  const NENTRIES := 1024
  /** KERNBASE is where the upper half of the directory begins. */
  const KERNDIR := 512
  const KERNBASE := 0x8000_0000

  datatype Entry = Entry(frame: int, flags: int)
  const NOENTRY := Entry(0, 0)

  /** PTE_P, PTE_W and PTE_U. */
  const OPEN := 7

  /** PTE_P is bit 0. */
  predicate Present(e: Entry) { e.flags % 2 == 1 }

  function OrPresent(perm: int): int { if perm % 2 == 1 then perm else perm + 1 }

  /** A page holds bytes, or page-table entries, or the free list's link. */
  datatype Page = Data(bytes: seq<int>) | Table(entries: seq<Entry>) | Run(next: int)

  function Zeros(): (s: seq<Entry>)
    ensures |s| == NENTRIES
  {
    seq(NENTRIES, i => NOENTRY)
  }

  /** What an allocated frame is for: in the address space with directory `dir`, the directory itself, the table
      for directory index i, or the page at (i, j); or in someone's hands (Loose). */
  datatype Use = Dir | Tab(i: int) | User(i: int, j: int)
  datatype Owner = Own(dir: int, use: Use) | Loose

  /** mem and head are the machine's; the rest is bookkeeping: the free list from its end, where each free frame
      is on it, and the owner of every other frame. */
  datatype Vm = Vm(mem: seq<Page>, head: int, stack: seq<int>, slot: map<int, int>, owner: map<int, Owner>)

  // ---- the free list ----

  function Below(stack: seq<int>, k: nat): int
    requires k <= |stack|
  {
    if k == 0 then 0 else stack[k - 1]
  }

  ghost predicate Chain(mem: seq<Page>, head: int, stack: seq<int>) {
    && head == Below(stack, |stack|)
    && (forall k :: 0 <= k < |stack| ==> 0 < stack[k] < |mem|)
    && (forall k {:trigger mem[stack[k]]} :: 0 <= k < |stack| ==> mem[stack[k]] == Run(Below(stack, k)))
  }

  /** Every frame in `all` is either on the free list, once, or owned, and no others are. */
  ghost predicate Split(stack: seq<int>, slot: map<int, int>, owner: map<int, Owner>, all: set<int>) {
    && (forall k :: 0 <= k < |stack| ==> stack[k] in slot && slot[stack[k]] == k)
    && (forall f :: f in slot ==> 0 <= slot[f] < |stack| && stack[slot[f]] == f && f !in owner && f in all)
    && (forall f :: f in owner ==> f in all)
    && (forall f :: f in all ==> f in slot || f in owner)
  }

  ghost predicate FreeOk(m: Vm, all: set<int>) {
    && Chain(m.mem, m.head, m.stack)
    && Split(m.stack, m.slot, m.owner, all)
    && (forall f :: f in m.owner ==> 0 < f < |m.mem|)
  }

  function Popped(m: Vm): Vm
    requires |m.stack| > 0
  {
    var n := |m.stack| - 1;
    m.(head := Below(m.stack, n), stack := m.stack[..n], slot := m.slot - {m.stack[n]},
       owner := m.owner[m.stack[n] := Loose])
  }

  lemma PopSplit(stack: seq<int>, slot: map<int, int>, owner: map<int, Owner>, all: set<int>, n: nat)
    requires Split(stack, slot, owner, all) && |stack| == n + 1
    ensures Split(stack[..n], slot - {stack[n]}, owner[stack[n] := Loose], all) && stack[n] !in owner
  {
    var f := stack[n];
    assert slot[f] == n;
    forall g | g in slot - {f} ensures slot[g] < n && stack[slot[g]] == g { assert stack[slot[g]] == g; }
    forall k | 0 <= k < n ensures stack[k] != f { assert slot[stack[k]] == k; }
  }

  lemma PopKeeps(m: Vm, all: set<int>)
    requires FreeOk(m, all) && |m.stack| > 0
    ensures FreeOk(Popped(m), all) && m.head in all && m.head !in m.owner && m.head == m.stack[|m.stack| - 1]
    ensures 0 < m.head < |m.mem| && m.mem[m.head] == Run(Popped(m).head)
  {
    var n := |m.stack| - 1;
    PopSplit(m.stack, m.slot, m.owner, all, n);
    assert Chain(m.mem, Below(m.stack, n), m.stack[..n]);
  }

  function Pushed(m: Vm, f: int): Vm
    requires 0 <= f < |m.mem|
  {
    m.(mem := m.mem[f := Run(m.head)], head := f, stack := m.stack + [f], slot := m.slot[f := |m.stack|],
       owner := m.owner - {f})
  }

  lemma PushKeeps(m: Vm, f: int, all: set<int>)
    requires FreeOk(m, all) && f in m.owner
    ensures 0 < f < |m.mem| && FreeOk(Pushed(m, f), all)
  {
    assert f !in m.slot;
  }

  /** The same owners leave the same frames free. */
  lemma SameOwnersSameFree(m: Vm, m': Vm, all: set<int>)
    requires FreeOk(m, all) && FreeOk(m', all) && m.owner.Keys == m'.owner.Keys
    ensures m.slot.Keys == m'.slot.Keys
  {
    assert forall f :: f in m.slot <==> f in all && f !in m.owner.Keys;
    assert forall f :: f in m'.slot <==> f in all && f !in m'.owner.Keys;
  }

  // ---- address spaces ----

  ghost predicate Has(owner: map<int, Owner>, f: int, o: Owner) { f in owner && owner[f] == o }

  predicate IsTable(mem: seq<Page>, f: int) {
    0 < f < |mem| && mem[f].Table? && |mem[f].entries| == NENTRIES
  }

  /** What must be true around frame f, given what it is for. */
  ghost predicate FrameOk(mem: seq<Page>, owner: map<int, Owner>, f: int)
    requires f in owner
  {
    match owner[f]
    case Loose => true
    case Own(d, Dir) => f == d && DirOk(mem, owner, d)
    case Own(d, Tab(i)) =>
      && Has(owner, d, Own(d, Dir)) && IsTable(mem, d) && 0 <= i < NENTRIES
      && Present(mem[d].entries[i]) && mem[d].entries[i].frame == f
      && TabOk(mem, owner, d, i, f)
    case Own(d, User(i, j)) =>
      && IsTable(mem, d) && 0 <= i < KERNDIR && 0 <= j < NENTRIES && Present(mem[d].entries[i])
      && Has(owner, mem[d].entries[i].frame, Own(d, Tab(i)))
      && Leads(mem, mem[d].entries[i].frame, j, f)
      && 0 < f < |mem| && mem[f].Data?
  }

  ghost predicate Leads(mem: seq<Page>, t: int, j: int, f: int) {
    IsTable(mem, t) && 0 <= j < NENTRIES && Present(mem[t].entries[j]) && mem[t].entries[j].frame == f
  }

  ghost predicate DirOk(mem: seq<Page>, owner: map<int, Owner>, d: int) {
    && IsTable(mem, d)
    && (forall i :: 0 <= i < NENTRIES && Present(mem[d].entries[i]) ==>
          Has(owner, mem[d].entries[i].frame, Own(d, Tab(i))) && mem[d].entries[i].flags == OPEN)
  }

  ghost predicate TabOk(mem: seq<Page>, owner: map<int, Owner>, d: int, i: int, t: int) {
    && IsTable(mem, t)
    && (i < KERNDIR ==> forall j :: 0 <= j < NENTRIES && Present(mem[t].entries[j]) ==>
          Has(owner, mem[t].entries[j].frame, Own(d, User(i, j))))
  }

  predicate Of(o: Owner, d: int) { o.Own? && o.dir == d }

  /** All address spaces are in order. */
  ghost predicate Spaces(mem: seq<Page>, owner: map<int, Owner>) {
    forall f :: f in owner ==> FrameOk(mem, owner, f)
  }

  /** All but one. */
  ghost predicate SpacesBut(mem: seq<Page>, owner: map<int, Owner>, d: int) {
    forall f :: f in owner && !Of(owner[f], d) ==> FrameOk(mem, owner, f)
  }

  ghost predicate Good(m: Vm, all: set<int>) {
    FreeOk(m, all) && Spaces(m.mem, m.owner)
  }

  /** The page-table entry for (i, j) in address space d; absent when there is no table. */
  function Leaf(mem: seq<Page>, d: int, i: int, j: int): Entry {
    if IsTable(mem, d) && 0 <= i < NENTRIES && 0 <= j < NENTRIES && Present(mem[d].entries[i]) &&
       IsTable(mem, mem[d].entries[i].frame)
    then mem[mem[d].entries[i].frame].entries[j]
    else NOENTRY
  }

  /** Owners and contents of the frames of address space d are the same in both states. */
  ghost predicate SameSpace(mem: seq<Page>, owner: map<int, Owner>, mem': seq<Page>, owner': map<int, Owner>, d: int) {
    && |mem'| == |mem|
    && (forall f :: f in owner && Of(owner[f], d) ==> 0 <= f < |mem| && Has(owner', f, owner[f]) && mem'[f] == mem[f])
  }

  /** An address space that nobody touches stays in order, with the same entries. */
  lemma SameSpaceOk(mem: seq<Page>, owner: map<int, Owner>, mem': seq<Page>, owner': map<int, Owner>, d: int, f: int)
    requires SameSpace(mem, owner, mem', owner', d) && f in owner && Of(owner[f], d) && FrameOk(mem, owner, f)
    requires Has(owner, d, Own(d, Dir)) && FrameOk(mem, owner, d)
    ensures Has(owner', f, owner[f]) && FrameOk(mem', owner', f)
  {
  }

  lemma SameSpaceLeaf(mem: seq<Page>, owner: map<int, Owner>, mem': seq<Page>, owner': map<int, Owner>, d: int,
                      i: int, j: int)
    requires SameSpace(mem, owner, mem', owner', d)
    requires Has(owner, d, Own(d, Dir)) && FrameOk(mem, owner, d)
    ensures Leaf(mem', d, i, j) == Leaf(mem, d, i, j)
  {
  }

  /** Two pages of one space, or of two, are never in the same frame. */
  lemma DistinctFrames(mem: seq<Page>, owner: map<int, Owner>, d: int, i: int, j: int, d': int, i': int, j': int)
    requires Spaces(mem, owner) && Has(owner, d, Own(d, Dir)) && Has(owner, d', Own(d', Dir))
    requires 0 <= i < KERNDIR && 0 <= i' < KERNDIR && (d, i, j) != (d', i', j')
    requires Present(Leaf(mem, d, i, j)) && Present(Leaf(mem, d', i', j'))
    ensures Leaf(mem, d, i, j).frame != Leaf(mem, d', i', j').frame
  {
    LeafOwned(mem, owner, d, i, j);
    LeafOwned(mem, owner, d', i', j');
  }

  lemma LeafOwned(mem: seq<Page>, owner: map<int, Owner>, d: int, i: int, j: int)
    requires Spaces(mem, owner) && Has(owner, d, Own(d, Dir))
    requires 0 <= i < KERNDIR && Present(Leaf(mem, d, i, j))
    ensures Has(owner, Leaf(mem, d, i, j).frame, Own(d, User(i, j)))
    ensures var f := Leaf(mem, d, i, j).frame; 0 < f < |mem| && mem[f].Data?
  {
    assert FrameOk(mem, owner, d);
    var t := mem[d].entries[i].frame;
    assert FrameOk(mem, owner, t);
    assert FrameOk(mem, owner, mem[t].entries[j].frame);
  }

  // ---- steps on one address space ----

  /** Everything owned by address spaces other than d is untouched. */
  ghost predicate OthersSame(mem: seq<Page>, owner: map<int, Owner>, mem': seq<Page>, owner': map<int, Owner>, d: int) {
    && |mem'| == |mem|
    && (forall f :: f in owner && owner[f].Own? && owner[f].dir != d ==>
          0 <= f < |mem| && Has(owner', f, owner[f]) && mem'[f] == mem[f])
  }

  lemma OthersOk(mem: seq<Page>, owner: map<int, Owner>, mem': seq<Page>, owner': map<int, Owner>, d: int, f: int)
    requires SpacesBut(mem, owner, d) && OthersSame(mem, owner, mem', owner', d)
    requires f in owner && owner[f].Own? && owner[f].dir != d
    ensures Has(owner', f, owner[f]) && FrameOk(mem', owner', f)
  {
    var e := owner[f].dir;
    assert FrameOk(mem, owner, f);
    if owner[f].use.User? { assert FrameOk(mem, owner, mem[e].entries[owner[f].use.i].frame); }
    SameSpaceOk(mem, owner, mem', owner', e, f);
  }

  /** Loose frames are bound by nothing: taking one from the free list disturbs no address space. */
  lemma PopSpaces(m: Vm, all: set<int>)
    requires Good(m, all) && |m.stack| > 0
    ensures Good(Popped(m), all)
  {
    PopKeeps(m, all);
    var m' := Popped(m);
    forall f | f in m'.owner ensures FrameOk(m'.mem, m'.owner, f) {
      if f != m.head && m.owner[f].Own? { OthersOk(m.mem, m.owner, m'.mem, m'.owner, 0, f); }
    }
  }

  lemma PushSpaces(m: Vm, v: int, all: set<int>)
    requires Good(m, all) && Has(m.owner, v, Loose)
    ensures 0 < v < |m.mem| && Good(Pushed(m, v), all)
  {
    PushKeeps(m, v, all);
    var m' := Pushed(m, v);
    forall f | f in m'.owner ensures FrameOk(m'.mem, m'.owner, f) {
      if m.owner[f].Own? { OthersOk(m.mem, m.owner, m'.mem, m'.owner, 0, f); }
    }
  }

  /** Writing a frame nobody else can see. */
  function Filled(m: Vm, f: int, p: Page): Vm
    requires 0 <= f < |m.mem|
  {
    m.(mem := m.mem[f := p])
  }

  lemma FilledGood(m: Vm, f: int, p: Page, all: set<int>)
    requires Good(m, all) && Has(m.owner, f, Loose)
    ensures 0 < f < |m.mem| && Good(Filled(m, f, p), all)
  {
    var m' := Filled(m, f, p);
    assert f !in m.slot;
    assert Chain(m'.mem, m.head, m.stack) by {
      forall k | 0 <= k < |m.stack| ensures m.stack[k] != f { assert m.stack[k] in m.slot; }
    }
    forall g | g in m'.owner ensures FrameOk(m'.mem, m'.owner, g) {
      if m.owner[g].Own? { OthersOk(m.mem, m.owner, m'.mem, m'.owner, 0, g); }
    }
  }

  /** A zeroed loose frame becomes an empty directory. */
  function NewDir(m: Vm, d: int): Vm
    requires 0 <= d < |m.mem|
  {
    m.(mem := m.mem[d := Table(Zeros())], owner := m.owner[d := Own(d, Dir)])
  }

  lemma NewDirGood(m: Vm, d: int, all: set<int>)
    requires Good(m, all) && Has(m.owner, d, Loose)
    ensures 0 < d < |m.mem| && Good(NewDir(m, d), all)
    ensures forall i, j :: Leaf(NewDir(m, d).mem, d, i, j) == NOENTRY
    ensures OthersSame(m.mem, m.owner, NewDir(m, d).mem, NewDir(m, d).owner, d)
  {
    FilledGood(m, d, Table(Zeros()), all);
    var m1 := Filled(m, d, Table(Zeros()));
    var m' := NewDir(m, d);
    forall g | g in m'.owner ensures FrameOk(m'.mem, m'.owner, g) {
      if g == d {
        assert DirOk(m'.mem, m'.owner, d);
      } else {
        if m.owner[g].Own? { OnlyDirs(m1.mem, m1.owner, g); }
        if m.owner[g].Own? { OthersOk(m1.mem, m1.owner, m'.mem, m'.owner, d, g); }
      }
    }
  }

  /** Whatever an address space owns, its directory is owned as its directory. */
  lemma OnlyDirs(mem: seq<Page>, owner: map<int, Owner>, f: int)
    requires Spaces(mem, owner) && f in owner && owner[f].Own?
    ensures Has(owner, owner[f].dir, Own(owner[f].dir, Dir))
  {
    var d := owner[f].dir;
    assert FrameOk(mem, owner, f);
    if owner[f].use.User? { assert FrameOk(mem, owner, mem[d].entries[owner[f].use.i].frame); }
  }

  /** A zeroed loose frame t becomes the table for directory index i of d. */
  function NewTable(m: Vm, d: int, i: int, t: int): Vm
    requires IsTable(m.mem, d) && 0 <= i < NENTRIES && 0 <= t < |m.mem|
  {
    m.(mem := m.mem[t := Table(Zeros())][d := Table(m.mem[d].entries[i := Entry(t, OPEN)])],
       owner := m.owner[t := Own(d, Tab(i))])
  }

  lemma NewTableFrames(m: Vm, d: int, i: int, t: int, all: set<int>, g: int)
    requires Good(m, all) && Has(m.owner, d, Own(d, Dir)) && Has(m.owner, t, Loose)
    requires 0 <= i < NENTRIES && IsTable(m.mem, d) && !Present(m.mem[d].entries[i])
    requires g in NewTable(m, d, i, t).owner
    ensures FrameOk(NewTable(m, d, i, t).mem, NewTable(m, d, i, t).owner, g)
  {
    var m' := NewTable(m, d, i, t);
    assert FrameOk(m.mem, m.owner, d);
    if g == t {
      assert m'.mem[d].entries[i] == Entry(t, OPEN);
    } else if m.owner[g].Own? && m.owner[g].dir != d {
      OthersOk(m.mem, m.owner, m'.mem, m'.owner, d, g);
    } else {
      assert FrameOk(m.mem, m.owner, g);
    }
  }

  lemma NewTableGood(m: Vm, d: int, i: int, t: int, all: set<int>)
    requires Good(m, all) && Has(m.owner, d, Own(d, Dir)) && Has(m.owner, t, Loose)
    requires 0 <= i < NENTRIES && IsTable(m.mem, d) && !Present(m.mem[d].entries[i])
    ensures Good(NewTable(m, d, i, t), all)
    ensures OthersSame(m.mem, m.owner, NewTable(m, d, i, t).mem, NewTable(m, d, i, t).owner, d)
    ensures forall i', j' :: Leaf(NewTable(m, d, i, t).mem, d, i', j') == Leaf(m.mem, d, i', j')
  {
    var m' := NewTable(m, d, i, t);
    assert FrameOk(m.mem, m.owner, d);
    assert t !in m.slot && d !in m.slot;
    forall k | 0 <= k < |m.stack| ensures m.stack[k] != t && m.stack[k] != d { assert m.stack[k] in m.slot; }
    assert Chain(m'.mem, m'.head, m'.stack);
    forall g | g in m'.owner ensures FrameOk(m'.mem, m'.owner, g) {
      NewTableFrames(m, d, i, t, all, g);
    }
  }

  /** Entry j of the table at frame t replaced. */
  function WithLeaf(mem: seq<Page>, t: int, j: int, e: Entry): seq<Page>
    requires IsTable(mem, t) && 0 <= j < NENTRIES
  {
    mem[t := Table(mem[t].entries[j := e])]
  }

  /** The table for directory index i of d is t. */
  ghost predicate TableAt(m: Vm, d: int, i: int, t: int) {
    && Has(m.owner, d, Own(d, Dir)) && IsTable(m.mem, d) && 0 <= i < NENTRIES
    && Present(m.mem[d].entries[i]) && m.mem[d].entries[i].frame == t
    && Has(m.owner, t, Own(d, Tab(i))) && IsTable(m.mem, t)
  }

  lemma TableIs(m: Vm, d: int, i: int)
    requires Spaces(m.mem, m.owner) && Has(m.owner, d, Own(d, Dir)) && 0 <= i < NENTRIES
    ensures IsTable(m.mem, d) && (Present(m.mem[d].entries[i]) ==> TableAt(m, d, i, m.mem[d].entries[i].frame))
  {
    assert FrameOk(m.mem, m.owner, d);
    if Present(m.mem[d].entries[i]) { assert FrameOk(m.mem, m.owner, m.mem[d].entries[i].frame); }
  }

  /** Writing one entry changes one leaf. */
  lemma WithLeafLeaves(m: Vm, d: int, i: int, t: int, j: int, e: Entry)
    requires Spaces(m.mem, m.owner) && TableAt(m, d, i, t) && 0 <= j < NENTRIES
    ensures forall i', j' :: Leaf(WithLeaf(m.mem, t, j, e), d, i', j') ==
                             if (i', j') == (i, j) then e else Leaf(m.mem, d, i', j')
  {
    var mem' := WithLeaf(m.mem, t, j, e);
    assert FrameOk(m.mem, m.owner, d) && d != t;
    assert mem'[d] == m.mem[d];
    forall i', j' ensures Leaf(mem', d, i', j') == if (i', j') == (i, j) then e else Leaf(m.mem, d, i', j') {
      if 0 <= i' < NENTRIES && Present(m.mem[d].entries[i']) {
        assert Has(m.owner, m.mem[d].entries[i'].frame, Own(d, Tab(i')));
      }
    }
  }

  lemma WithLeafChain(m: Vm, t: int, j: int, e: Entry, all: set<int>)
    requires FreeOk(m, all) && t in m.owner && IsTable(m.mem, t) && 0 <= j < NENTRIES
    ensures Chain(WithLeaf(m.mem, t, j, e), m.head, m.stack)
  {
    forall k | 0 <= k < |m.stack| ensures m.stack[k] != t { assert m.stack[k] in m.slot; }
  }

  // -- mapping --

  /** A loose frame f with bytes in it becomes the page at (i, j). */
  function Mapped(m: Vm, d: int, i: int, t: int, j: int, e: Entry): Vm
    requires IsTable(m.mem, t) && 0 <= j < NENTRIES
  {
    m.(mem := WithLeaf(m.mem, t, j, e), owner := m.owner[e.frame := Own(d, User(i, j))])
  }

  ghost predicate CanMap(m: Vm, d: int, i: int, t: int, j: int, e: Entry) {
    && TableAt(m, d, i, t) && i < KERNDIR && 0 <= j < NENTRIES && !Present(m.mem[t].entries[j])
    && Has(m.owner, e.frame, Loose) && 0 <= e.frame < |m.mem| && m.mem[e.frame].Data? && Present(e)
  }

  lemma MappedFrames(m: Vm, d: int, i: int, t: int, j: int, e: Entry, g: int)
    requires Spaces(m.mem, m.owner) && CanMap(m, d, i, t, j, e) && 0 < e.frame
    requires forall f :: f in m.owner ==> 0 < f < |m.mem|
    requires g in Mapped(m, d, i, t, j, e).owner
    ensures FrameOk(Mapped(m, d, i, t, j, e).mem, Mapped(m, d, i, t, j, e).owner, g)
  {
    var m' := Mapped(m, d, i, t, j, e);
    assert FrameOk(m.mem, m.owner, d) && FrameOk(m.mem, m.owner, t);
    if g == e.frame {
      assert m'.mem[t].entries[j] == e;
    } else if m.owner[g].Own? && m.owner[g].dir != d {
      OthersOk(m.mem, m.owner, m'.mem, m'.owner, d, g);
    } else {
      assert FrameOk(m.mem, m.owner, g);
    }
  }

  lemma MappedGood(m: Vm, d: int, i: int, t: int, j: int, e: Entry, all: set<int>)
    requires Good(m, all) && CanMap(m, d, i, t, j, e)
    ensures Good(Mapped(m, d, i, t, j, e), all)
    ensures OthersSame(m.mem, m.owner, Mapped(m, d, i, t, j, e).mem, Mapped(m, d, i, t, j, e).owner, d)
  {
    WithLeafChain(m, t, j, e, all);
    var m' := Mapped(m, d, i, t, j, e);
    forall g | g in m'.owner ensures FrameOk(m'.mem, m'.owner, g) { MappedFrames(m, d, i, t, j, e, g); }
    assert FrameOk(m.mem, m.owner, d) && d != t;
  }

  /** Entries of kernel tables may name any frame; nothing is owned through them. */
  function MappedKernel(m: Vm, t: int, j: int, e: Entry): Vm
    requires IsTable(m.mem, t) && 0 <= j < NENTRIES
  {
    m.(mem := WithLeaf(m.mem, t, j, e))
  }

  lemma MappedKernelGood(m: Vm, d: int, i: int, t: int, j: int, e: Entry, all: set<int>)
    requires Good(m, all) && TableAt(m, d, i, t) && i >= KERNDIR && 0 <= j < NENTRIES
    ensures Good(MappedKernel(m, t, j, e), all)
    ensures OthersSame(m.mem, m.owner, MappedKernel(m, t, j, e).mem, m.owner, d)
  {
    WithLeafChain(m, t, j, e, all);
    var m' := MappedKernel(m, t, j, e);
    forall g | g in m'.owner ensures FrameOk(m'.mem, m'.owner, g) {
      assert FrameOk(m.mem, m.owner, g) && FrameOk(m.mem, m.owner, d) && FrameOk(m.mem, m.owner, t);
      if m.owner[g].Own? && m.owner[g].dir != d { OthersOk(m.mem, m.owner, m'.mem, m'.owner, d, g); }
    }
  }

  // -- unmapping --

  /** The page at (i, j), in frame f, given to the free list and its entry cleared. */
  function Unmapped(m: Vm, t: int, j: int, f: int): Vm
    requires IsTable(m.mem, t) && 0 <= j < NENTRIES && 0 <= f < |m.mem| && f != t
  {
    var m1 := Pushed(m, f);
    m1.(mem := WithLeaf(m1.mem, t, j, NOENTRY))
  }

  ghost predicate CanUnmap(m: Vm, d: int, i: int, t: int, j: int, f: int) {
    && TableAt(m, d, i, t) && i < KERNDIR && 0 <= j < NENTRIES && Leads(m.mem, t, j, f)
    && Has(m.owner, f, Own(d, User(i, j))) && 0 <= f < |m.mem|
  }

  lemma UnmappedFrames(m: Vm, d: int, i: int, t: int, j: int, f: int, g: int)
    requires Spaces(m.mem, m.owner) && CanUnmap(m, d, i, t, j, f) && g in m.owner && g != f
    requires forall k :: k in m.owner ==> 0 < k < |m.mem|
    ensures FrameOk(Unmapped(m, t, j, f).mem, Unmapped(m, t, j, f).owner, g)
  {
    var m' := Unmapped(m, t, j, f);
    if m.owner[g].Own? && m.owner[g].dir != d {
      assert FrameOk(m.mem, m.owner, f);
      OthersOk(m.mem, m.owner, m'.mem, m'.owner, d, g);
    } else if m.owner[g].Own? {
      UnmappedOwn(m, d, i, t, j, f, g);
    }
  }

  lemma UnmappedOwn(m: Vm, d: int, i: int, t: int, j: int, f: int, g: int)
    requires Spaces(m.mem, m.owner) && CanUnmap(m, d, i, t, j, f) && g in m.owner && g != f && Of(m.owner[g], d)
    requires forall k :: k in m.owner ==> 0 < k < |m.mem|
    ensures FrameOk(Unmapped(m, t, j, f).mem, Unmapped(m, t, j, f).owner, g)
  {
    assert FrameOk(m.mem, m.owner, d) && FrameOk(m.mem, m.owner, t) && FrameOk(m.mem, m.owner, f);
    assert FrameOk(m.mem, m.owner, g);
  }

  lemma UnmappedGood(m: Vm, d: int, i: int, t: int, j: int, f: int, all: set<int>)
    requires Good(m, all) && CanUnmap(m, d, i, t, j, f)
    ensures Good(Unmapped(m, t, j, f), all)
    ensures OthersSame(m.mem, m.owner, Unmapped(m, t, j, f).mem, Unmapped(m, t, j, f).owner, d)
    ensures forall i', j' :: Leaf(Unmapped(m, t, j, f).mem, d, i', j') ==
                             if (i', j') == (i, j) then NOENTRY else Leaf(m.mem, d, i', j')
  {
    var m1, m' := Pushed(m, f), Unmapped(m, t, j, f);
    PushKeeps(m, f, all);
    WithLeafChain(m1, t, j, NOENTRY, all);
    assert FrameOk(m.mem, m.owner, f);
    forall g | g in m'.owner ensures FrameOk(m'.mem, m'.owner, g) { UnmappedFrames(m, d, i, t, j, f, g); }
    WithLeafLeaves(m, d, i, t, j, NOENTRY);
    UnmappedLeaves(m, d, i, t, j, f);
  }

  /** Junk in a frame that was a page, not a table, changes no entry. */
  lemma UnmappedLeaves(m: Vm, d: int, i: int, t: int, j: int, f: int)
    requires Spaces(m.mem, m.owner) && CanUnmap(m, d, i, t, j, f)
    ensures forall i', j' :: Leaf(Unmapped(m, t, j, f).mem, d, i', j') ==
              Leaf(WithLeaf(m.mem, t, j, NOENTRY), d, i', j')
  {
    var mem', mem1 := Unmapped(m, t, j, f).mem, WithLeaf(m.mem, t, j, NOENTRY);
    assert FrameOk(m.mem, m.owner, d) && FrameOk(m.mem, m.owner, f);
    forall i', j' ensures Leaf(mem', d, i', j') == Leaf(mem1, d, i', j') {
      if 0 <= i' < NENTRIES && Present(m.mem[d].entries[i']) {
        assert Has(m.owner, m.mem[d].entries[i'].frame, Own(d, Tab(i')));
      }
    }
  }

  // ---- what the hardware grants ----

  const PTE_W := 2
  const PTE_U := 4

  predicate Bit(flags: int, b: int)
    requires b > 0
  {
    flags / b % 2 == 1
  }

  /** A right to page (i, j) of d: the walk finds it, and both entries on the way have the bit. */
  predicate Grants(mem: seq<Page>, d: int, i: int, j: int, b: int)
    requires b > 0
  {
    && IsTable(mem, d) && 0 <= i < NENTRIES && 0 <= j < NENTRIES
    && Present(mem[d].entries[i]) && Bit(mem[d].entries[i].flags, b)
    && IsTable(mem, mem[d].entries[i].frame)
    && Present(mem[mem[d].entries[i].frame].entries[j]) && Bit(mem[mem[d].entries[i].frame].entries[j].flags, b)
  }

  /** Directory entries are open, so the rights to a page are those in its own entry. */
  lemma GrantsIsLeaf(m: Vm, all: set<int>, d: int, i: int, j: int, b: int)
    requires Good(m, all) && Has(m.owner, d, Own(d, Dir)) && b in {PTE_W, PTE_U}
    ensures Grants(m.mem, d, i, j, b) <==> Present(Leaf(m.mem, d, i, j)) && Bit(Leaf(m.mem, d, i, j).flags, b)
  {
    assert FrameOk(m.mem, m.owner, d);
    assert Bit(OPEN, PTE_W) && Bit(OPEN, PTE_U);
  }
}
