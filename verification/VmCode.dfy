/** vm.c and kalloc.c: the code.
    `P == true` in a contract is P kept as one proof obligation; without it Dafny asks for P conjunct by conjunct. */
module VmCode {
  import opened Common
  import opened VmSpec

  predicate OfTables(o: Owner, d: int) { o.Own? && o.dir == d && !o.use.User? }

  /** What a step on address space d may do to the rest: every frame owned before still is, the same way (but for
      `f`), only the directory and tables of d have other contents, and only tables of d are new. */
  ghost predicate Effect(m: Vm, m': Vm, d: int, f: int) {
    && |m'.mem| == |m.mem|
    && (forall g :: g in m.owner && g != f ==> Has(m'.owner, g, m.owner[g]))
    && (forall g :: g in m.owner && 0 <= g < |m.mem| ==> OfTables(m.owner[g], d) || m'.mem[g] == m.mem[g])
    && (forall g :: g in m'.owner && g !in m.owner ==> OfTables(m'.owner[g], d))
  }

  ghost predicate SameLeaves(mem: seq<Page>, mem': seq<Page>, d: int) {
    forall i, j :: Leaf(mem', d, i, j) == Leaf(mem, d, i, j)
  }

  ghost predicate OneLeaf(mem: seq<Page>, mem': seq<Page>, d: int, i: int, j: int, e: Entry) {
    forall i', j' :: Leaf(mem', d, i', j') == if (i', j') == (i, j) then e else Leaf(mem, d, i', j')
  }

  /** The directory d has its table i. */
  predicate HasTable(mem: seq<Page>, d: int, i: int) {
    IsTable(mem, d) && 0 <= i < NENTRIES && Present(mem[d].entries[i])
  }

  /** Table i of d is there, the others as before; if it was not, it has cost one free frame, and nothing else has. */
  ghost predicate Paid(m: Vm, m': Vm, d: int, i: int) {
    && (forall i' :: HasTable(m'.mem, d, i') <==> HasTable(m.mem, d, i') || i' == i)
    && |m.stack| == |m'.stack| + if HasTable(m.mem, d, i) then 0 else 1
  }

  /** `walkpgdir` found or made the table t. */
  ghost predicate Walked(m: Vm, m': Vm, d: int, i: int, t: int, all: set<int>) {
    && Good(m', all) && TableAt(m', d, i, t) && SameLeaves(m.mem, m'.mem, d) && Effect(m, m', d, 0)
  }

  lemma TableMade(m: Vm, d: int, i: int, all: set<int>)
    requires Good(m, all) && Has(m.owner, d, Own(d, Dir)) && 0 <= i < NENTRIES && |m.stack| > 0
    requires IsTable(m.mem, d) && !Present(m.mem[d].entries[i])
    ensures 0 < m.head < |m.mem| && Walked(m, NewTable(Popped(m), d, i, m.head), d, i, m.head, all)
    ensures Paid(m, NewTable(Popped(m), d, i, m.head), d, i)
  {
    PopKeeps(m, all);
    PopSpaces(m, all);
    var t := m.head;
    NewTableGood(Popped(m), d, i, t, all);
    var m' := NewTable(Popped(m), d, i, t);
    assert t != d;
    assert m'.mem[d].entries[i] == Entry(t, OPEN);
  }

  /** One page mapped at (i, j): a loose frame in the user half, any frame in the kernel half. */
  ghost predicate MapDone(m: Vm, m': Vm, d: int, i: int, j: int, e: Entry, all: set<int>) {
    && Good(m', all) && OneLeaf(m.mem, m'.mem, d, i, j, e)
    && Has(m'.owner, d, Own(d, Dir))
    && (if i < KERNDIR then Effect(m, m', d, e.frame) && Has(m'.owner, e.frame, Own(d, User(i, j)))
        else Effect(m, m', d, 0))
  }

  ghost predicate MayMap(m: Vm, d: int, i: int, j: int, e: Entry, all: set<int>) {
    && Good(m, all) && Has(m.owner, d, Own(d, Dir)) && 0 <= i < NENTRIES && 0 <= j < NENTRIES
    && !Present(Leaf(m.mem, d, i, j)) && Present(e)
    && (i < KERNDIR ==> Has(m.owner, e.frame, Loose) && 0 <= e.frame < |m.mem| && m.mem[e.frame].Data?)
  }

  lemma MapUserDone(m: Vm, m1: Vm, d: int, i: int, t: int, j: int, e: Entry, all: set<int>)
    requires MayMap(m, d, i, j, e, all) && i < KERNDIR && Walked(m, m1, d, i, t, all)
    ensures MapDone(m, Mapped(m1, d, i, t, j, e), d, i, j, e, all)
  {
    assert Leaf(m1.mem, d, i, j) == m1.mem[t].entries[j];
    MappedGood(m1, d, i, t, j, e, all);
    WithLeafLeaves(m1, d, i, t, j, e);
  }

  lemma MapKernelDone(m: Vm, m1: Vm, d: int, i: int, t: int, j: int, e: Entry, all: set<int>)
    requires MayMap(m, d, i, j, e, all) && i >= KERNDIR && Walked(m, m1, d, i, t, all)
    ensures MapDone(m, MappedKernel(m1, t, j, e), d, i, j, e, all)
  {
    MappedKernelGood(m1, d, i, t, j, e, all);
    WithLeafLeaves(m1, d, i, t, j, e);
  }

  /** Filling in a leaf costs nothing more. */
  lemma PaidLeaf(m: Vm, m1: Vm, m2: Vm, d: int, i: int, t: int, j: int, e: Entry)
    requires Paid(m, m1, d, i) && TableAt(m1, d, i, t) && 0 <= j < NENTRIES
    requires m2.mem == WithLeaf(m1.mem, t, j, e) && m2.stack == m1.stack
    ensures Paid(m, m2, d, i)
  {
    assert t != d;
  }

  // ---- removing pages ----

  /** PGROUNDUP, in pages. */
  function Pages(sz: nat): nat { (sz + PGSIZE - 1) / PGSIZE }

  lemma PagesLess(p: nat, sz: nat)
    ensures p * PGSIZE < sz <==> p < Pages(sz)
    ensures sz <= KERNBASE ==> Pages(sz) <= KERNDIR * NENTRIES
  {
  }

  lemma PagesMore(sz: nat, sz': nat)
    requires sz <= sz'
    ensures Pages(sz) <= Pages(sz')
  {
  }

  function Vpn(i: int, j: int): int { i * NENTRIES + j }

  predicate InRange(o: Owner, d: int, lo: int, hi: int) {
    o.Own? && o.dir == d && o.use.User? && lo <= Vpn(o.use.i, o.use.j) < hi
  }

  function Cleared(e: Entry): Entry { if Present(e) then NOENTRY else e }

  /** Page by page, every page of d in [lo, hi) is gone and its frame free; nothing else is. */
  ghost predicate Removed(m: Vm, m': Vm, d: int, lo: int, hi: int) {
    && |m'.mem| == |m.mem|
    && (forall i, j :: 0 <= j < NENTRIES ==>
          Leaf(m'.mem, d, i, j) ==
          if lo <= Vpn(i, j) < hi then Cleared(Leaf(m.mem, d, i, j)) else Leaf(m.mem, d, i, j))
    && (forall f :: f in m'.owner ==> Has(m.owner, f, m'.owner[f]) && !InRange(m.owner[f], d, lo, hi))
    && (forall f :: f in m.owner && !InRange(m.owner[f], d, lo, hi) ==> f in m'.owner)
    && (forall f :: f in m'.owner && 0 <= f < |m.mem| ==>
          (m.owner[f].Own? && m.owner[f].dir == d && m.owner[f].use.Tab?) || m'.mem[f] == m.mem[f])
  }

  /** Without a table the whole directory entry can be skipped. */
  lemma RemovedSkip(m: Vm, m': Vm, d: int, lo: int, i: int, p: int, q: int)
    requires Removed(m, m', d, lo, p) && Spaces(m'.mem, m'.owner) && Has(m'.owner, d, Own(d, Dir))
    requires 0 <= i < KERNDIR && lo <= p && Vpn(i, 0) <= p <= q <= Vpn(i + 1, 0)
    requires IsTable(m'.mem, d) && !Present(m'.mem[d].entries[i])
    ensures Removed(m, m', d, lo, q)
  {
    forall f | f in m'.owner ensures !InRange(m.owner[f], d, lo, q) {
      assert FrameOk(m'.mem, m'.owner, f);
    }
    forall i', j' | 0 <= j' < NENTRIES && p <= Vpn(i', j') < q
      ensures Leaf(m'.mem, d, i', j') == Cleared(Leaf(m.mem, d, i', j'))
    {
      assert i' == i;
      assert Leaf(m'.mem, d, i', j') == NOENTRY;
    }
  }

  /** A page that is not present is passed over. */
  lemma RemovedAbsent(m: Vm, m': Vm, d: int, lo: int, i: int, j: int)
    requires Removed(m, m', d, lo, Vpn(i, j)) && Spaces(m'.mem, m'.owner) && Has(m'.owner, d, Own(d, Dir))
    requires 0 <= i < KERNDIR && 0 <= j < NENTRIES && lo <= Vpn(i, j)
    requires !Present(Leaf(m'.mem, d, i, j))
    ensures Removed(m, m', d, lo, Vpn(i, j) + 1)
  {
  }

  /** A page that is present goes. */
  lemma RemovedOneOwner(m: Vm, m1: Vm, d: int, lo: int, i: int, t: int, j: int, f: int, g: int)
    requires Removed(m, m1, d, lo, Vpn(i, j)) && Spaces(m1.mem, m1.owner) && CanUnmap(m1, d, i, t, j, f)
    requires 0 <= i < KERNDIR && 0 <= j < NENTRIES && lo <= Vpn(i, j) && g in m1.owner
    ensures g in m.owner && (InRange(m.owner[g], d, lo, Vpn(i, j) + 1) <==> g == f)
  {
  }

  lemma RemovedOneLeaf(m: Vm, m1: Vm, m': Vm, d: int, lo: int, i: int, j: int, i': int, j': int)
    requires Removed(m, m1, d, lo, Vpn(i, j)) && OneLeaf(m1.mem, m'.mem, d, i, j, NOENTRY)
    requires Present(Leaf(m1.mem, d, i, j)) && 0 <= j < NENTRIES && lo <= Vpn(i, j) && 0 <= j' < NENTRIES
    ensures Leaf(m'.mem, d, i', j') ==
            if lo <= Vpn(i', j') < Vpn(i, j) + 1 then Cleared(Leaf(m.mem, d, i', j')) else Leaf(m.mem, d, i', j')
  {
  }

  lemma RemovedOne(m: Vm, m1: Vm, d: int, lo: int, i: int, t: int, j: int, f: int, all: set<int>)
    requires Removed(m, m1, d, lo, Vpn(i, j)) && Good(m1, all) && CanUnmap(m1, d, i, t, j, f)
    requires 0 <= i < KERNDIR && 0 <= j < NENTRIES && lo <= Vpn(i, j)
    ensures Good(Unmapped(m1, t, j, f), all) == true
    ensures Removed(m, Unmapped(m1, t, j, f), d, lo, Vpn(i, j) + 1) == true
  {
    UnmappedGood(m1, d, i, t, j, f, all);
    RemovedNext(m, m1, d, lo, i, t, j, f);
  }

  lemma RemovedNext(m: Vm, m1: Vm, d: int, lo: int, i: int, t: int, j: int, f: int)
    requires Removed(m, m1, d, lo, Vpn(i, j)) && Spaces(m1.mem, m1.owner) && CanUnmap(m1, d, i, t, j, f) && f != t
    requires 0 <= i < KERNDIR && 0 <= j < NENTRIES && lo <= Vpn(i, j)
    requires OneLeaf(m1.mem, Unmapped(m1, t, j, f).mem, d, i, j, NOENTRY)
    ensures Removed(m, Unmapped(m1, t, j, f), d, lo, Vpn(i, j) + 1)
  {
    var m' := Unmapped(m1, t, j, f);
    assert m1.mem[t].entries[j] == Leaf(m1.mem, d, i, j);
    forall i', j' | 0 <= j' < NENTRIES
      ensures Leaf(m'.mem, d, i', j') ==
              if lo <= Vpn(i', j') < Vpn(i, j) + 1 then Cleared(Leaf(m.mem, d, i', j')) else Leaf(m.mem, d, i', j')
    {
      RemovedOneLeaf(m, m1, m', d, lo, i, j, i', j');
    }
    forall g | g in m1.owner ensures g in m.owner && (InRange(m.owner[g], d, lo, Vpn(i, j) + 1) <==> g == f) {
      RemovedOneOwner(m, m1, d, lo, i, t, j, f, g);
    }
  }

  lemma SplitVpn(p: nat)
    requires p < KERNDIR * NENTRIES
    ensures 0 <= p / NENTRIES < KERNDIR && 0 <= p % NENTRIES < NENTRIES && p == Vpn(p / NENTRIES, p % NENTRIES)
  {
  }

  lemma CanUnmapIt(m: Vm, d: int, i: int, t: int, j: int, all: set<int>)
    requires Good(m, all) && TableAt(m, d, i, t) && i < KERNDIR && 0 <= j < NENTRIES && Present(m.mem[t].entries[j])
    ensures CanUnmap(m, d, i, t, j, m.mem[t].entries[j].frame) && m.mem[t].entries[j].frame !in {d, t}
  {
  }

  // ---- freeing an address space ----

  /** Exactly the frames of d are gone from the owners; the others have what they had. */
  ghost predicate Freed(m: Vm, m': Vm, d: int) {
    && |m'.mem| == |m.mem|
    && (forall f :: f in m'.owner ==> Has(m.owner, f, m'.owner[f]) && !Of(m.owner[f], d))
    && (forall f :: f in m.owner && !Of(m.owner[f], d) ==> f in m'.owner)
    && (forall f :: f in m'.owner && 0 <= f < |m.mem| ==> m'.mem[f] == m.mem[f])
  }

  predicate TabBelow(o: Owner, d: int, k: int) { o.Own? && o.dir == d && o.use.Tab? && o.use.i < k }

  /** The tables for directory indices below k have been freed. */
  ghost predicate TabsFreed(m: Vm, m': Vm, d: int, k: int) {
    && |m'.mem| == |m.mem|
    && (forall f :: f in m'.owner ==> Has(m.owner, f, m'.owner[f]) && !TabBelow(m.owner[f], d, k))
    && (forall f :: f in m.owner && !TabBelow(m.owner[f], d, k) ==> f in m'.owner)
    && (forall f :: f in m'.owner && 0 <= f < |m.mem| ==> m'.mem[f] == m.mem[f])
  }

  lemma TabFreed(m: Vm, m1: Vm, d: int, k: int, all: set<int>)
    requires Good(m, all) && Has(m.owner, d, Own(d, Dir)) && TabsFreed(m, m1, d, k) && 0 <= k < NENTRIES
    requires FreeOk(m1, all)
    ensures 0 < d < |m.mem| && IsTable(m.mem, d) && m1.mem[d] == m.mem[d] && d in m1.owner
    ensures !Present(m.mem[d].entries[k]) ==> TabsFreed(m, m1, d, k + 1) == true
    ensures Present(m.mem[d].entries[k]) ==>
              var t := m.mem[d].entries[k].frame;
              t in m1.owner && 0 <= t < |m1.mem| && TabsFreed(m, Pushed(m1, t), d, k + 1) == true
  {
    assert FrameOk(m.mem, m.owner, d);
    if Present(m.mem[d].entries[k]) {
      var t := m.mem[d].entries[k].frame;
      assert Has(m.owner, t, Own(d, Tab(k)));
      forall f | f in m.owner && m.owner[f] == Own(d, Tab(k)) ensures f == t { assert FrameOk(m.mem, m.owner, f); }
    } else {
      forall f | f in m.owner ensures m.owner[f] != Own(d, Tab(k)) { assert FrameOk(m.mem, m.owner, f); }
    }
  }

  lemma AllFreed(m: Vm, m1: Vm, m2: Vm, d: int, all: set<int>)
    requires Good(m, all) && Good(m1, all) && Has(m1.owner, d, Own(d, Dir))
    requires Removed(m, m1, d, 0, KERNDIR * NENTRIES)
    requires TabsFreed(m1, m2, d, NENTRIES) && d in m2.owner && 0 <= d < |m2.mem|
    ensures Freed(m, Pushed(m2, d), d) == true
  {
  }

  lemma FreedGood(m: Vm, m': Vm, d: int, all: set<int>)
    requires Good(m, all) && Freed(m, m', d) && FreeOk(m', all)
    ensures Good(m', all)
  {
  }

  // ---- building a new address space c beside the old ones ----

  /** Every frame owned in m is owned the same way in m', with the same contents; the new ones belong to c,
      but for one (x) that is still loose. */
  ghost predicate Grown(m: Vm, m': Vm, c: int, x: int) {
    && |m'.mem| == |m.mem| && c !in m.owner
    && (forall f :: f in m.owner ==> 0 <= f < |m.mem| && Has(m'.owner, f, m.owner[f]) && m'.mem[f] == m.mem[f])
    && (forall f :: f in m'.owner && f !in m.owner ==> Of(m'.owner[f], c) || f == x)
  }

  /** Back where it began: the same owners, the same contents, the same free frames. */
  ghost predicate Restored(m: Vm, m': Vm) {
    && m'.owner == m.owner && m'.slot.Keys == m.slot.Keys && |m'.mem| == |m.mem|
    && (forall f :: f in m.owner && 0 <= f < |m.mem| ==> m'.mem[f] == m.mem[f])
  }

  /** A frame owned before c existed is not c's. */
  lemma NotOfNew(m: Vm, c: int, f: int)
    requires Spaces(m.mem, m.owner) && c !in m.owner && f in m.owner
    ensures !Of(m.owner[f], c)
  {
  }

  lemma GrownMap(m: Vm, m1: Vm, m2: Vm, c: int, i: int, j: int, e: Entry, all: set<int>)
    requires Good(m, all) && MapDone(m1, m2, c, i, j, e, all)
    requires if i < KERNDIR then Grown(m, m1, c, e.frame) && e.frame !in m.owner else Grown(m, m1, c, 0)
    requires 0 !in m1.owner
    ensures Grown(m, m2, c, 0)
  {
  }

  lemma GrownFreed(m: Vm, m1: Vm, m2: Vm, c: int, all: set<int>)
    requires Good(m, all) && Grown(m, m1, c, 0) && 0 !in m1.owner && Freed(m1, m2, c) && Good(m2, all)
    ensures Restored(m, m2)
  {
    forall f | f in m.owner ensures Has(m2.owner, f, m.owner[f]) { NotOfNew(m, c, f); }
    forall f | f in m2.owner ensures f in m.owner { assert f in m1.owner; }
    assert m2.owner.Keys == m.owner.Keys;
    assert m2.owner == m.owner;
    SameOwnersSameFree(m, m2, all);
  }

  /** A page is taken: one more loose frame. */
  lemma GrownPop(m: Vm, m1: Vm, c: int, all: set<int>)
    requires Grown(m, m1, c, 0) && Good(m1, all) && |m1.stack| > 0
    ensures 0 < m1.head < |m1.mem| && Good(Popped(m1), all) && Grown(m, Popped(m1), c, m1.head)
    ensures m1.head !in m.owner && Has(Popped(m1).owner, m1.head, Loose) && 0 !in m1.owner
  {
    PopKeeps(m1, all);
    PopSpaces(m1, all);
  }

  /** And given back. */
  lemma GrownPush(m: Vm, m1: Vm, c: int, f: int, all: set<int>)
    requires Grown(m, m1, c, f) && Good(m1, all) && f !in m.owner && Has(m1.owner, f, Loose)
    ensures 0 < f < |m1.mem| && Good(Pushed(m1, f), all) && Grown(m, Pushed(m1, f), c, 0)
  {
    PushSpaces(m1, f, all);
  }

  // -- the kernel half --

  /** One line of `kmap`, in pages. */
  datatype Range = Range(page: int, n: nat, frame: int, perm: int)

  /** The entry for page p after the first n lines. */
  function KernelEntry(kmap: seq<Range>, n: nat, p: int): Entry
    requires n <= |kmap|
  {
    if n == 0 then NOENTRY
    else if kmap[n - 1].page <= p < kmap[n - 1].page + kmap[n - 1].n
    then Entry(kmap[n - 1].frame + (p - kmap[n - 1].page), OrPresent(kmap[n - 1].perm))
    else KernelEntry(kmap, n - 1, p)
  }

  /** The lines lie above KERNBASE and no page is in two of them. */
  ghost predicate KmapOk(kmap: seq<Range>) {
    && (forall n :: 0 <= n < |kmap| ==>
          KERNDIR * NENTRIES <= kmap[n].page && kmap[n].page + kmap[n].n <= NENTRIES * NENTRIES)
    && (forall n, p :: 0 <= n < |kmap| && kmap[n].page <= p < kmap[n].page + kmap[n].n ==>
          !Present(KernelEntry(kmap, n, p)))
  }

  lemma OrPresentBits(perm: int)
    ensures OrPresent(perm) % 2 == 1
    ensures (Bit(OrPresent(perm), PTE_W) <==> Bit(perm, PTE_W)) && (Bit(OrPresent(perm), PTE_U) <==> Bit(perm, PTE_U))
  {
    assert OrPresent(perm) / 2 == perm / 2 && OrPresent(perm) / 4 == perm / 4;
  }

  /** Every page of every line is mapped to its frame, present, with the rights of the line. */
  lemma {:induction false} KernelEntryIs(kmap: seq<Range>, n: nat, m: nat, p: int)
    requires KmapOk(kmap) && n < m <= |kmap| && kmap[n].page <= p < kmap[n].page + kmap[n].n
    ensures var e := KernelEntry(kmap, m, p);
            && e.frame - kmap[n].frame == p - kmap[n].page && Present(e)
            && (Bit(e.flags, PTE_W) <==> Bit(kmap[n].perm, PTE_W))
            && (Bit(e.flags, PTE_U) <==> Bit(kmap[n].perm, PTE_U))
    decreases m
  {
    if n < m - 1 { KernelEntryIs(kmap, n, m - 1, p); } else { OrPresentBits(kmap[n].perm); }
  }

  /** And no other page is mapped. */
  lemma {:induction false} KernelEntryElse(kmap: seq<Range>, m: nat, p: int)
    requires m <= |kmap| && forall n :: 0 <= n < m ==> !(kmap[n].page <= p < kmap[n].page + kmap[n].n)
    ensures !Present(KernelEntry(kmap, m, p))
    decreases m
  {
    if m > 0 { KernelEntryElse(kmap, m - 1, p); }
  }

  /** Line n is done up to its k-th page, the lines before it entirely, and the user half is empty. */
  ghost predicate KernelUpTo(mem: seq<Page>, d: int, kmap: seq<Range>, n: nat, k: nat)
    requires n <= |kmap| && (k > 0 ==> n < |kmap|)
  {
    forall i, j :: 0 <= j < NENTRIES ==>
      Leaf(mem, d, i, j) == KernelAt(kmap, n, k, Vpn(i, j))
  }

  function KernelAt(kmap: seq<Range>, n: nat, k: nat, p: int): Entry
    requires n <= |kmap| && (k > 0 ==> n < |kmap|)
  {
    if k > 0 && kmap[n].page <= p < kmap[n].page + k
    then Entry(kmap[n].frame + (p - kmap[n].page), OrPresent(kmap[n].perm))
    else KernelEntry(kmap, n, p)
  }

  lemma KernelStep(mem: seq<Page>, mem': seq<Page>, d: int, kmap: seq<Range>, n: nat, k: nat, i: int, j: int)
    requires KmapOk(kmap) && n < |kmap| && k < kmap[n].n && KernelUpTo(mem, d, kmap, n, k)
    requires 0 <= j < NENTRIES && Vpn(i, j) == kmap[n].page + k
    requires OneLeaf(mem, mem', d, i, j, Entry(kmap[n].frame + k, OrPresent(kmap[n].perm)))
    ensures KernelUpTo(mem', d, kmap, n, k + 1)
  {
  }

  lemma KernelLine(mem: seq<Page>, d: int, kmap: seq<Range>, n: nat)
    requires n < |kmap| && KernelUpTo(mem, d, kmap, n, kmap[n].n)
    ensures KernelUpTo(mem, d, kmap, n + 1, 0)
  {
  }

  lemma DirStarted(m: Vm, kmap: seq<Range>, all: set<int>)
    requires Good(m, all) && |m.stack| > 0
    ensures 0 < m.head < |m.mem| && Building(m, NewDir(Popped(m), m.head), m.head, kmap, 0, 0, all)
  {
    PopKeeps(m, all);
    PopSpaces(m, all);
    NewDirGood(Popped(m), m.head, all);
  }

  lemma SplitKernel(p: nat)
    requires KERNDIR * NENTRIES <= p < NENTRIES * NENTRIES
    ensures KERNDIR <= p / NENTRIES < NENTRIES && 0 <= p % NENTRIES < NENTRIES
    ensures p == Vpn(p / NENTRIES, p % NENTRIES)
  {
  }

  // -- what the frames are spent on --

  /** The tables that the pages [lo, hi) lie in. */
  ghost function Dirs(lo: int, hi: int): set<int>
    decreases hi - lo
  {
    if hi <= lo then {} else Dirs(lo, hi - 1) + {(hi - 1) / NENTRIES}
  }

  /** The tables of the first n lines of `kmap`. */
  ghost function KernelDirs(kmap: seq<Range>, n: nat): set<int>
    requires n <= |kmap|
  {
    if n == 0 then {} else KernelDirs(kmap, n - 1) + Dirs(kmap[n - 1].page, kmap[n - 1].page + kmap[n - 1].n)
  }

  /** And of the first k pages of line n. */
  ghost function DirsUpTo(kmap: seq<Range>, n: nat, k: nat): set<int>
    requires n <= |kmap| && (k > 0 ==> n < |kmap|)
  {
    if k == 0 then KernelDirs(kmap, n) else KernelDirs(kmap, n) + Dirs(kmap[n].page, kmap[n].page + k)
  }

  /** What `setupkvm` takes: the directory and a table for every 4 MB that `kmap` touches. */
  ghost function KernelNeed(kmap: seq<Range>): nat { 1 + |KernelDirs(kmap, |kmap|)| }

  /** What `copyuvm` takes for n pages: that, n frames, and a table for every 1024 of them. */
  ghost function CopyNeed(kmap: seq<Range>, n: nat): nat {
    KernelNeed(kmap) + TablesFor(n) + n
  }

  /** Since m the directory c has been made, its tables `dirs` and no other, and n pages. */
  ghost predicate Spent(m: Vm, m': Vm, c: int, dirs: set<int>, n: int) {
    && (forall i :: HasTable(m'.mem, c, i) <==> i in dirs)
    && |m.stack| == |m'.stack| + 1 + |dirs| + n
  }

  lemma SpentMap(m: Vm, m1: Vm, m2: Vm, c: int, dirs: set<int>, i: int, n: int)
    requires Spent(m, m1, c, dirs, n) && Paid(m1, m2, c, i)
    ensures Spent(m, m2, c, dirs + {i}, n)
  {
    if i in dirs { assert dirs + {i} == dirs; }
  }

  /** A page has been taken. */
  lemma SpentPop(m: Vm, m1: Vm, c: int, dirs: set<int>, n: int, page: Page, all: set<int>)
    requires Spent(m, m1, c, dirs, n) && Good(m1, all) && Has(m1.owner, c, Own(c, Dir)) && |m1.stack| > 0
    ensures 0 < m1.head < |m1.mem| && Spent(m, Filled(Popped(m1), m1.head, page), c, dirs, n + 1)
  {
    PopKeeps(m1, all);
    assert m1.head != c;
  }

  lemma SubsetSize(a: set<int>, b: set<int>)
    requires a <= b
    ensures |a| <= |b|
  {
    assert b == a + (b - a);
  }

  /** The table for i is missing, still wanted, and there is no frame for it. */
  lemma TooFew(m: Vm, m1: Vm, c: int, dirs: set<int>, i: int, n: int, want: set<int>)
    requires Spent(m, m1, c, dirs, n) && |m1.stack| == 0 && !HasTable(m1.mem, c, i) && dirs + {i} <= want
    ensures |m.stack| < 1 + |want| + n
  {
    SubsetSize(dirs + {i}, want);
  }

  lemma {:induction false} DirsGrow(lo: int, p: int, hi: int)
    requires p <= hi
    ensures Dirs(lo, p) <= Dirs(lo, hi) && (lo <= p < hi ==> p / NENTRIES in Dirs(lo, hi))
    decreases hi - p
  {
    if p < hi && lo < hi { DirsGrow(lo, p, hi - 1); }
  }

  lemma {:induction false} KernelDirsGrow(kmap: seq<Range>, n: nat, n': nat)
    requires n <= n' <= |kmap|
    ensures KernelDirs(kmap, n) <= KernelDirs(kmap, n')
  {
    if n < n' { KernelDirsGrow(kmap, n, n' - 1); }
  }

  lemma DirsUpToStep(kmap: seq<Range>, n: nat, k: nat, i: int)
    requires n < |kmap| && i == (kmap[n].page + k) / NENTRIES
    ensures DirsUpTo(kmap, n, k + 1) == DirsUpTo(kmap, n, k) + {i}
  {
    var lo := kmap[n].page;
    assert Dirs(lo, lo + (k + 1)) == Dirs(lo, lo + k) + {i};
    if k == 0 { assert Dirs(lo, lo + k) == {}; }
  }

  lemma DirsUpToGrow(kmap: seq<Range>, n: nat, k: nat)
    requires n < |kmap| && k <= kmap[n].n
    ensures DirsUpTo(kmap, n, k) <= KernelDirs(kmap, |kmap|)
  {
    KernelDirsGrow(kmap, n + 1, |kmap|);
    DirsGrow(kmap[n].page, kmap[n].page + k, kmap[n].page + kmap[n].n);
  }

  /** Tables for n pages from the start of one. */
  function TablesFor(n: nat): nat { (n + NENTRIES - 1) / NENTRIES }

  lemma TablesForNext(n: nat)
    ensures TablesFor(n + 1) == n / NENTRIES + 1
    ensures TablesFor(n) == if n % NENTRIES == 0 then n / NENTRIES else n / NENTRIES + 1
  {
  }

  /** User pages take one table for every 1024. */
  lemma {:induction false} UserDirs(n: nat)
    ensures forall i :: i in Dirs(0, n) <==> 0 <= i < TablesFor(n)
    ensures |Dirs(0, n)| == TablesFor(n)
  {
    if n > 0 {
      UserDirs(n - 1);
      TablesForNext(n - 1);
      assert Dirs(0, n) == Dirs(0, n - 1) + {(n - 1) / NENTRIES};
      if (n - 1) / NENTRIES in Dirs(0, n - 1) { assert Dirs(0, n) == Dirs(0, n - 1); }
    }
  }

  lemma {:induction false} DirsAbove(lo: int, hi: int)
    requires KERNDIR * NENTRIES <= lo
    ensures forall i :: i in Dirs(lo, hi) ==> KERNDIR <= i
    decreases hi - lo
  {
    if lo < hi { DirsAbove(lo, hi - 1); }
  }

  lemma {:induction false} KernelDirsAbove(kmap: seq<Range>, n: nat)
    requires KmapOk(kmap) && n <= |kmap|
    ensures forall i :: i in KernelDirs(kmap, n) ==> KERNDIR <= i
  {
    if n > 0 {
      KernelDirsAbove(kmap, n - 1);
      DirsAbove(kmap[n - 1].page, kmap[n - 1].page + kmap[n - 1].n);
    }
  }

  lemma CopyNeedGrows(kmap: seq<Range>, n: nat, n': nat)
    requires n <= n'
    ensures CopyNeed(kmap, n) <= CopyNeed(kmap, n')
  {
  }

  /** The two halves have no table in common. */
  lemma CopyNeedIs(kmap: seq<Range>, n: nat)
    requires KmapOk(kmap) && n <= KERNDIR * NENTRIES
    ensures CopyNeed(kmap, n) == 1 + |KernelDirs(kmap, |kmap|) + Dirs(0, n)| + n
  {
    UserDirs(n);
    KernelDirsAbove(kmap, |kmap|);
    assert TablesFor(n) <= KERNDIR;
    forall i | i in KernelDirs(kmap, |kmap|) ensures i !in Dirs(0, n) {}
  }

  /** Line n of `kmap` is done up to its k-th page. */
  ghost predicate Building(m: Vm, m': Vm, d: int, kmap: seq<Range>, n: nat, k: nat, all: set<int>)
    requires n <= |kmap| && (k > 0 ==> n < |kmap|)
  {
    && Good(m', all) && Has(m'.owner, d, Own(d, Dir)) && Grown(m, m', d, 0)
    && KernelUpTo(m'.mem, d, kmap, n, k) && Spent(m, m', d, DirsUpTo(kmap, n, k), 0)
  }

  /** What there is of c can be freed again, and there were fewer than `need` free frames. */
  ghost predicate GaveUp(m: Vm, m': Vm, c: int, need: nat, all: set<int>) {
    && Good(m', all) && Has(m'.owner, c, Own(c, Dir)) && Grown(m, m', c, 0) && |m.stack| < need
  }

  lemma BuildMay(m: Vm, m1: Vm, d: int, kmap: seq<Range>, n: nat, k: nat, i: int, j: int, all: set<int>)
    requires KmapOk(kmap) && n < |kmap| && k < kmap[n].n && Building(m, m1, d, kmap, n, k, all)
    requires KERNDIR <= i < NENTRIES && 0 <= j < NENTRIES && Vpn(i, j) == kmap[n].page + k
    ensures MayMap(m1, d, i, j, Entry(kmap[n].frame + k, OrPresent(kmap[n].perm)), all)
  {
    assert !Present(KernelAt(kmap, n, k, kmap[n].page + k));
  }

  lemma BuildStep(m: Vm, m1: Vm, m2: Vm, d: int, kmap: seq<Range>, n: nat, k: nat, i: int, j: int, all: set<int>)
    requires Good(m, all) && KmapOk(kmap) && n < |kmap| && k < kmap[n].n && Building(m, m1, d, kmap, n, k, all)
    requires KERNDIR <= i < NENTRIES && 0 <= j < NENTRIES && Vpn(i, j) == kmap[n].page + k
    requires MapDone(m1, m2, d, i, j, Entry(kmap[n].frame + k, OrPresent(kmap[n].perm)), all) && Paid(m1, m2, d, i)
    ensures Building(m, m2, d, kmap, n, k + 1, all)
  {
    KernelStep(m1.mem, m2.mem, d, kmap, n, k, i, j);
    GrownMap(m, m1, m2, d, i, j, Entry(kmap[n].frame + k, OrPresent(kmap[n].perm)), all);
    SpentMap(m, m1, m2, d, DirsUpTo(kmap, n, k), i, 0);
    DirsUpToStep(kmap, n, k, i);
  }

  lemma BuildTooFew(m: Vm, m1: Vm, d: int, kmap: seq<Range>, n: nat, k: nat, i: int)
    requires n < |kmap| && k < kmap[n].n && Spent(m, m1, d, DirsUpTo(kmap, n, k), 0)
    requires i == (kmap[n].page + k) / NENTRIES && |m1.stack| == 0 && !HasTable(m1.mem, d, i)
    ensures |m.stack| < KernelNeed(kmap)
  {
    DirsUpToGrow(kmap, n, k + 1);
    DirsUpToStep(kmap, n, k, i);
    TooFew(m, m1, d, DirsUpTo(kmap, n, k), i, 0, KernelDirs(kmap, |kmap|));
  }

  lemma BuildLine(m: Vm, m1: Vm, d: int, kmap: seq<Range>, n: nat, all: set<int>)
    requires n < |kmap| && Building(m, m1, d, kmap, n, kmap[n].n, all)
    ensures Building(m, m1, d, kmap, n + 1, 0, all)
  {
    KernelLine(m1.mem, d, kmap, n);
    assert DirsUpTo(kmap, n, kmap[n].n) == DirsUpTo(kmap, n + 1, 0);
  }

  lemma BuildPaid(m: Vm, m1: Vm, d: int, kmap: seq<Range>, all: set<int>)
    requires Building(m, m1, d, kmap, |kmap|, 0, all)
    ensures |m.stack| == |m1.stack| + KernelNeed(kmap)
  {
  }

  // -- copying the user half --

  /** Pages below p of d (as they are in m) have copies in c (in m'): the same flags and bytes, in frames that were
      not owned in m. The rest of c's user half is empty and its kernel half is in place. */
  ghost predicate Copied(m: Vm, m': Vm, d: int, c: int, p: int, kmap: seq<Range>) {
    forall i, j :: 0 <= j < NENTRIES ==>
      if 0 <= i && Vpn(i, j) < p then IsCopy(m, m', Leaf(m.mem, d, i, j), Leaf(m'.mem, c, i, j))
      else Leaf(m'.mem, c, i, j) == KernelEntry(kmap, |kmap|, Vpn(i, j))
  }

  ghost predicate IsCopy(m: Vm, m': Vm, e: Entry, e': Entry) {
    && e'.flags == e.flags && 0 < e.frame < |m.mem| && 0 < e'.frame < |m'.mem|
    && m'.mem[e'.frame] == m.mem[e.frame] && e'.frame !in m.owner && e'.frame in m'.owner
  }

  ghost predicate Copying(m: Vm, m': Vm, d: int, c: int, p: int, kmap: seq<Range>, all: set<int>) {
    && Good(m', all) && Has(m'.owner, c, Own(c, Dir)) && Grown(m, m', c, 0) && Copied(m, m', d, c, p, kmap)
  }

  /** The tables of the kernel half and of the user pages below p. */
  ghost function CopyDirs(kmap: seq<Range>, p: int): set<int> { KernelDirs(kmap, |kmap|) + Dirs(0, p) }

  /** Pages below p are copied, and p pages and their tables paid for. */
  ghost predicate CopiedTo(m: Vm, m': Vm, d: int, c: int, p: int, kmap: seq<Range>, all: set<int>) {
    Copying(m, m', d, c, p, kmap, all) && Spent(m, m', c, CopyDirs(kmap, p), p)
  }

  /** No frame for page p, or, with that page in hand, none for its table. */
  lemma CopyNoPage(m: Vm, m1: Vm, d: int, c: int, p: nat, kmap: seq<Range>, all: set<int>)
    requires KmapOk(kmap) && p < KERNDIR * NENTRIES && CopiedTo(m, m1, d, c, p, kmap, all) && |m1.stack| == 0
    ensures GaveUp(m, m1, c, CopyNeed(kmap, p + 1), all)
  {
    CopyNeedIs(kmap, p + 1);
    DirsGrow(0, p, p + 1);
    SubsetSize(CopyDirs(kmap, p), CopyDirs(kmap, p + 1));
  }

  lemma CopyDirsStep(kmap: seq<Range>, p: nat)
    ensures CopyDirs(kmap, p + 1) == CopyDirs(kmap, p) + {p / NENTRIES}
  {
  }

  lemma CopyNoTable(m: Vm, m1: Vm, c: int, p: nat, i: int, kmap: seq<Range>)
    requires KmapOk(kmap) && p < KERNDIR * NENTRIES && i == p / NENTRIES
    requires Spent(m, m1, c, CopyDirs(kmap, p), p + 1) && |m1.stack| == 0 && !HasTable(m1.mem, c, i)
    ensures |m.stack| < CopyNeed(kmap, p + 1)
  {
    CopyNeedIs(kmap, p + 1);
    CopyDirsStep(kmap, p);
    TooFew(m, m1, c, CopyDirs(kmap, p), i, p + 1, CopyDirs(kmap, p + 1));
  }

  /** A finished copy has taken exactly its need. */
  lemma CopyPaid(m: Vm, m': Vm, d: int, c: int, p: nat, kmap: seq<Range>, all: set<int>)
    requires KmapOk(kmap) && p <= KERNDIR * NENTRIES && CopiedTo(m, m', d, c, p, kmap, all)
    ensures |m.stack| == |m'.stack| + CopyNeed(kmap, p)
  {
    CopyNeedIs(kmap, p);
  }

  /** The old address space reads the same while the new one grows. */
  lemma ParentSame(m: Vm, m': Vm, d: int, c: int, x: int, i: int, j: int)
    requires Spaces(m.mem, m.owner) && Has(m.owner, d, Own(d, Dir)) && Grown(m, m', c, x)
    ensures Leaf(m'.mem, d, i, j) == Leaf(m.mem, d, i, j)
  {
  }

  /** The user half of the kernel's map is empty. */
  lemma {:induction false} UserEmpty(kmap: seq<Range>, n: nat, p: int)
    requires KmapOk(kmap) && n <= |kmap| && p < KERNDIR * NENTRIES
    ensures KernelEntry(kmap, n, p) == NOENTRY
  {
    if n > 0 { UserEmpty(kmap, n - 1, p); }
  }

  /** A finished copy is not disturbed by mapping another page into c. */
  lemma CopyStays(m: Vm, m1: Vm, m2: Vm, c: int, x: int, e: Entry, i: int, j: int, e1: Entry, all: set<int>)
    requires Good(m1, all) && Has(m1.owner, c, Own(c, Dir)) && Effect(m1, m2, c, x)
    requires 0 <= i < KERNDIR && Present(e) && e1 == Leaf(m1.mem, c, i, j) && IsCopy(m, m1, e, e1) && e1.frame != x
    ensures IsCopy(m, m2, e, e1)
  {
  }

  lemma CopyStart(m: Vm, m': Vm, d: int, c: int, kmap: seq<Range>, all: set<int>)
    requires Building(m, m', c, kmap, |kmap|, 0, all)
    ensures CopiedTo(m, m', d, c, 0, kmap, all)
  {
    assert CopyDirs(kmap, 0) == DirsUpTo(kmap, |kmap|, 0);
  }

  /** What a process may do with its pages below p, the copy may do with its own. */
  ghost predicate SameRights(mem: seq<Page>, d: int, mem': seq<Page>, c: int, p: int) {
    forall i, j :: 0 <= i && 0 <= j < NENTRIES && Vpn(i, j) < p ==>
      && (Grants(mem, d, i, j, PTE_W) <==> Grants(mem', c, i, j, PTE_W))
      && (Grants(mem, d, i, j, PTE_U) <==> Grants(mem', c, i, j, PTE_U))
  }

  lemma CopyRights(m: Vm, m': Vm, d: int, c: int, p: int, kmap: seq<Range>, all: set<int>)
    requires Good(m, all) && Has(m.owner, d, Own(d, Dir)) && Copying(m, m', d, c, p, kmap, all)
    ensures SameRights(m.mem, d, m'.mem, c, p) == true
  {
    forall i, j | 0 <= i && 0 <= j < NENTRIES && Vpn(i, j) < p
      ensures Grants(m.mem, d, i, j, PTE_W) <==> Grants(m'.mem, c, i, j, PTE_W)
      ensures Grants(m.mem, d, i, j, PTE_U) <==> Grants(m'.mem, c, i, j, PTE_U)
    {
      GrantsIsLeaf(m, all, d, i, j, PTE_W);
      GrantsIsLeaf(m, all, d, i, j, PTE_U);
      GrantsIsLeaf(m', all, c, i, j, PTE_W);
      GrantsIsLeaf(m', all, c, i, j, PTE_U);
    }
  }

  /** The user can read and write the pages [lo, hi). */
  ghost predicate UserWritable(mem: seq<Page>, d: int, lo: int, hi: int) {
    forall i, j :: 0 <= j < NENTRIES && lo <= Vpn(i, j) < hi ==>
      Grants(mem, d, i, j, PTE_W) && Grants(mem, d, i, j, PTE_U)
  }

  lemma AllocRights(m: Vm, m': Vm, d: int, lo: int, hi: int, all: set<int>)
    requires Alloced(m, m', d, lo, hi, 0, all)
    ensures UserWritable(m'.mem, d, lo, hi) == true
  {
    forall i, j | 0 <= j < NENTRIES && lo <= Vpn(i, j) < hi
      ensures Grants(m'.mem, d, i, j, PTE_W) && Grants(m'.mem, d, i, j, PTE_U)
    {
      GrantsIsLeaf(m', all, d, i, j, PTE_W);
      GrantsIsLeaf(m', all, d, i, j, PTE_U);
    }
  }

  /** The user pages of d below p are all there. */
  ghost predicate PresentTo(mem: seq<Page>, d: int, p: int) {
    forall i, j :: 0 <= i && 0 <= j < NENTRIES && Vpn(i, j) < p ==> Present(Leaf(mem, d, i, j))
  }

  /** Frame f is loose and holds the bytes of page (i, j) of d, ready to be mapped into c. */
  ghost predicate Ready(m: Vm, m': Vm, d: int, c: int, i: int, j: int, f: int, kmap: seq<Range>, all: set<int>) {
    && Good(m', all) && Has(m'.owner, c, Own(c, Dir)) && Grown(m, m', c, f) && f !in m.owner && 0 < f < |m'.mem|
    && Copied(m, m', d, c, Vpn(i, j), kmap)
    && 0 < Leaf(m.mem, d, i, j).frame < |m.mem| && m'.mem[f] == m.mem[Leaf(m.mem, d, i, j).frame]
    && MayMap(m', c, i, j, Entry(f, Leaf(m.mem, d, i, j).flags), all)
  }

  lemma CopyReady(m: Vm, m1: Vm, d: int, c: int, i: int, j: int, kmap: seq<Range>, all: set<int>)
    requires Good(m, all) && Has(m.owner, d, Own(d, Dir)) && KmapOk(kmap) && |m1.stack| > 0
    requires Copying(m, m1, d, c, Vpn(i, j), kmap, all) && 0 <= i < KERNDIR && 0 <= j < NENTRIES
    requires PresentTo(m.mem, d, Vpn(i, j) + 1)
    ensures var src := Leaf(m.mem, d, i, j).frame;
            0 < src < |m1.mem| && 0 < m1.head < |m1.mem| &&
            Ready(m, Filled(Popped(m1), m1.head, m1.mem[src]), d, c, i, j, m1.head, kmap, all)
  {
    LeafOwned(m.mem, m.owner, d, i, j);
    var src, f := Leaf(m.mem, d, i, j).frame, m1.head;
    GrownPop(m, m1, c, all);
    FilledGood(Popped(m1), f, m1.mem[src], all);
    var m2 := Filled(Popped(m1), f, m1.mem[src]);
    PopKeeps(m1, all);
    CopiedKept(m, m1, m2, d, c, Vpn(i, j), kmap, all);
    UserEmpty(kmap, |kmap|, Vpn(i, j));
  }

  /** Copies stay when a frame nobody owned is filled. */
  lemma CopiedKept(m: Vm, m1: Vm, m2: Vm, d: int, c: int, p: int, kmap: seq<Range>, all: set<int>)
    requires Good(m1, all) && Has(m1.owner, c, Own(c, Dir)) && Copied(m, m1, d, c, p, kmap) && |m2.mem| == |m1.mem|
    requires forall g :: g in m1.owner ==> Has(m2.owner, g, m1.owner[g]) && 0 <= g < |m1.mem| && m2.mem[g] == m1.mem[g]
    ensures Copied(m, m2, d, c, p, kmap)
  {
  }

  lemma CopyDone(m: Vm, m1: Vm, m2: Vm, d: int, c: int, i: int, j: int, f: int, kmap: seq<Range>, all: set<int>)
    requires Good(m, all) && Ready(m, m1, d, c, i, j, f, kmap, all) && 0 <= i < KERNDIR && 0 <= j < NENTRIES
    requires PresentTo(m.mem, d, Vpn(i, j) + 1)
    requires MapDone(m1, m2, c, i, j, Entry(f, Leaf(m.mem, d, i, j).flags), all)
    ensures Copying(m, m2, d, c, Vpn(i, j) + 1, kmap, all)
  {
    CopiedStep(m, m1, m2, d, c, i, j, f, kmap, all);
    GrownMap(m, m1, m2, c, i, j, Entry(f, Leaf(m.mem, d, i, j).flags), all);
  }

  lemma CopyMapped(m: Vm, m1: Vm, m2: Vm, d: int, c: int, p: nat, i: int, j: int, f: int, kmap: seq<Range>,
                   all: set<int>)
    requires Good(m, all) && Ready(m, m1, d, c, i, j, f, kmap, all) && 0 <= i < KERNDIR && 0 <= j < NENTRIES
    requires p == Vpn(i, j) && PresentTo(m.mem, d, p + 1) && Spent(m, m1, c, CopyDirs(kmap, p), p + 1)
    requires MapDone(m1, m2, c, i, j, Entry(f, Leaf(m.mem, d, i, j).flags), all) && Paid(m1, m2, c, i)
    ensures CopiedTo(m, m2, d, c, p + 1, kmap, all)
  {
    CopyDone(m, m1, m2, d, c, i, j, f, kmap, all);
    SpentMap(m, m1, m2, c, CopyDirs(kmap, p), i, p + 1);
    CopyDirsStep(kmap, p);
  }

  lemma CopiedStep(m: Vm, m1: Vm, m2: Vm, d: int, c: int, i: int, j: int, f: int, kmap: seq<Range>, all: set<int>)
    requires Good(m1, all) && Has(m1.owner, c, Own(c, Dir)) && Has(m1.owner, f, Loose) && 0 < f < |m1.mem|
    requires Copied(m, m1, d, c, Vpn(i, j), kmap) && 0 <= i < KERNDIR && 0 <= j < NENTRIES && f !in m.owner
    requires PresentTo(m.mem, d, Vpn(i, j) + 1)
    requires var e := Leaf(m.mem, d, i, j);
             0 < e.frame < |m.mem| && m1.mem[f] == m.mem[e.frame] && MapDone(m1, m2, c, i, j, Entry(f, e.flags), all)
    ensures Copied(m, m2, d, c, Vpn(i, j) + 1, kmap)
  {
    var e := Leaf(m.mem, d, i, j);
    forall i', j' | 0 <= i' && 0 <= j' < NENTRIES && Vpn(i', j') < Vpn(i, j) + 1
      ensures IsCopy(m, m2, Leaf(m.mem, d, i', j'), Leaf(m2.mem, c, i', j'))
    {
      if (i', j') != (i, j) {
        assert Vpn(i', j') < Vpn(i, j);
        var e1 := Leaf(m1.mem, c, i', j');
        LeafOwned(m1.mem, m1.owner, c, i', j');
        CopyStays(m, m1, m2, c, f, Leaf(m.mem, d, i', j'), i', j', e1, all);
      }
    }
  }

  // ---- growing an address space ----

  /** A page of zero bytes. */
  function ZeroPage(): (p: Page)
    ensures p.Data? && |p.bytes| == PGSIZE && forall b :: 0 <= b < PGSIZE ==> p.bytes[b] == 0
  {
    Data(seq(PGSIZE, b => 0))
  }

  /** Frames owned in m keep owner and contents (tables of d aside); new ones are tables of d, or its pages in
      [lo, hi), or x. */
  ghost predicate Added(m: Vm, m': Vm, d: int, lo: int, hi: int, x: int) {
    && |m'.mem| == |m.mem|
    && (forall f :: f in m.owner && 0 <= f < |m.mem| ==>
          Has(m'.owner, f, m.owner[f]) && (OfTables(m.owner[f], d) || m'.mem[f] == m.mem[f]))
    && (forall f :: f in m'.owner && f !in m.owner ==>
          OfTables(m'.owner[f], d) || InRange(m'.owner[f], d, lo, hi) || f == x)
  }

  ghost predicate NewPage(m: Vm, m': Vm, e: Entry) {
    && e.flags == 7 && 0 < e.frame < |m'.mem| && e.frame !in m.owner && e.frame in m'.owner
    && m'.mem[e.frame] == ZeroPage()
  }

  /** Pages [lo, p) are new, writable by the user, zero and in frames nobody owned; the other entries stay. */
  ghost predicate Zeroed(m: Vm, m': Vm, d: int, lo: int, p: int) {
    forall i, j :: 0 <= j < NENTRIES ==>
      if lo <= Vpn(i, j) < p then NewPage(m, m', Leaf(m'.mem, d, i, j))
      else Leaf(m'.mem, d, i, j) == Leaf(m.mem, d, i, j)
  }

  ghost predicate Alloced(m: Vm, m': Vm, d: int, lo: int, p: int, x: int, all: set<int>) {
    && Good(m', all) && Has(m'.owner, d, Own(d, Dir)) && Added(m, m', d, lo, p, x) && Zeroed(m, m', d, lo, p)
  }

  /** The tables that the pages [lo, hi) lie in and that d has not. */
  ghost function Missing(mem: seq<Page>, d: int, lo: int, hi: int): set<int>
    decreases hi - lo
  {
    if hi <= lo then {}
    else if HasTable(mem, d, (hi - 1) / NENTRIES) then Missing(mem, d, lo, hi - 1)
    else Missing(mem, d, lo, hi - 1) + {(hi - 1) / NENTRIES}
  }

  /** What `allocuvm` takes for the pages [lo, hi): a frame for each and the tables that are not there yet. */
  ghost function AllocNeed(mem: seq<Page>, d: int, lo: int, hi: int): int { |Missing(mem, d, lo, hi)| + (hi - lo) }

  /** Since m the tables `made` have been made, and n pages taken. */
  ghost predicate AllocSpent(m: Vm, m': Vm, d: int, made: set<int>, n: int) {
    && (forall i :: HasTable(m'.mem, d, i) <==> HasTable(m.mem, d, i) || i in made)
    && |m.stack| == |m'.stack| + |made| + n
  }

  /** Pages [lo, p) are mapped, and they and their tables paid for. */
  ghost predicate AllocedTo(m: Vm, m': Vm, d: int, lo: int, p: int, all: set<int>) {
    Alloced(m, m', d, lo, p, 0, all) && AllocSpent(m, m', d, Missing(m.mem, d, lo, p), p - lo)
  }

  /** Frame f, zeroed, is in hand for page (i, j). */
  ghost predicate AllocHeld(m: Vm, m': Vm, d: int, lo: int, i: int, j: int, f: int, all: set<int>) {
    && Alloced(m, m', d, lo, Vpn(i, j), f, all) && MayMap(m', d, i, j, Entry(f, 7), all) && f !in m.owner
    && 0 < f < |m'.mem| && m'.mem[f] == ZeroPage()
    && AllocSpent(m, m', d, Missing(m.mem, d, lo, Vpn(i, j)), Vpn(i, j) + 1 - lo)
  }

  /** No more memory: x is the frame in hand, if any. */
  ghost predicate AllocStopped(m: Vm, m': Vm, d: int, lo: int, p: int, hi: int, x: int, all: set<int>) {
    && Alloced(m, m', d, lo, p, x, all) && (x != 0 ==> x !in m.owner && Has(m'.owner, x, Loose))
    && |m.stack| < AllocNeed(m.mem, d, lo, hi)
  }

  lemma AllocSpentMap(m: Vm, m1: Vm, m2: Vm, d: int, made: set<int>, i: int, n: int)
    requires AllocSpent(m, m1, d, made, n) && Paid(m1, m2, d, i)
    ensures AllocSpent(m, m2, d, if HasTable(m.mem, d, i) then made else made + {i}, n)
  {
    if i in made { assert made + {i} == made; }
  }

  lemma {:induction false} MissingGrows(mem: seq<Page>, d: int, lo: int, p: int, hi: int)
    requires p <= hi
    ensures |Missing(mem, d, lo, p)| <= |Missing(mem, d, lo, hi)|
    decreases hi - p
  {
    if p < hi {
      MissingGrows(mem, d, lo, p, hi - 1);
      SubsetSize(Missing(mem, d, lo, hi - 1), Missing(mem, d, lo, hi));
    }
  }

  lemma AllocNoPage(m: Vm, m1: Vm, d: int, lo: int, p: int, hi: int, all: set<int>)
    requires AllocedTo(m, m1, d, lo, p, all) && |m1.stack| == 0 && lo <= p < hi
    ensures AllocStopped(m, m1, d, lo, p, hi, 0, all)
  {
    MissingGrows(m.mem, d, lo, p, hi);
  }

  lemma AllocStart(m: Vm, d: int, lo: int, all: set<int>)
    requires Good(m, all) && Has(m.owner, d, Own(d, Dir))
    ensures AllocedTo(m, m, d, lo, lo, all)
  {
  }

  /** All the pages are there, and cost exactly the need. */
  lemma AllocPaid(m: Vm, m': Vm, d: int, lo: int, hi: int, all: set<int>)
    requires AllocedTo(m, m', d, lo, hi, all)
    ensures |m.stack| == |m'.stack| + AllocNeed(m.mem, d, lo, hi)
  {
  }

  lemma AllocNoTable(m: Vm, m1: Vm, d: int, lo: int, p: int, hi: int, i: int)
    requires lo <= p < hi && i == p / NENTRIES
    requires AllocSpent(m, m1, d, Missing(m.mem, d, lo, p), p + 1 - lo) && |m1.stack| == 0 && !HasTable(m1.mem, d, i)
    ensures |m.stack| < AllocNeed(m.mem, d, lo, hi)
  {
    MissingGrows(m.mem, d, lo, p + 1, hi);
    assert Missing(m.mem, d, lo, p + 1) == Missing(m.mem, d, lo, p) + {i};
  }

  /** The outcome of growing by the pages [lo, hi): they are all there, or none is. */
  ghost predicate AllocEnds(m: Vm, m': Vm, d: int, lo: int, hi: int, ok: bool, all: set<int>) {
    && (ok <==> |m.stack| >= AllocNeed(m.mem, d, lo, hi))
    && (if ok then AllocedTo(m, m', d, lo, hi, all) else Good(m', all) && AllocUndone(m, m', d, lo, hi, 0))
  }

  lemma AllocHeldStops(m: Vm, m1: Vm, d: int, lo: int, p: int, i: int, j: int, hi: int, f: int, all: set<int>)
    requires AllocHeld(m, m1, d, lo, i, j, f, all) && |m1.stack| == 0 && !HasTable(m1.mem, d, i)
    requires 0 <= lo <= p < hi && p == Vpn(i, j) && 0 <= i < KERNDIR && 0 <= j < NENTRIES
    ensures AllocStopped(m, m1, d, lo, p, hi, f, all)
  {
    AllocNoTable(m, m1, d, lo, p, hi, i);
  }

  /** No page of d is present in [lo, hi). */
  ghost predicate Vacant(mem: seq<Page>, d: int, lo: int, hi: int) {
    forall i, j :: 0 <= j < NENTRIES && lo <= Vpn(i, j) < hi ==> !Present(Leaf(mem, d, i, j))
  }

  /** Frame f, just taken and zeroed, is ready for page (i, j). */
  lemma AllocTaken(m: Vm, m1: Vm, d: int, lo: int, i: int, j: int, hi: int, all: set<int>)
    requires AllocedTo(m, m1, d, lo, Vpn(i, j), all) && |m1.stack| > 0
    requires 0 <= lo <= Vpn(i, j) < hi && 0 <= i < KERNDIR && 0 <= j < NENTRIES && Vacant(m.mem, d, lo, hi)
    requires Good(m, all)
    ensures 0 < m1.head < |m1.mem|
    ensures AllocHeld(m, Filled(Popped(m1), m1.head, ZeroPage()), d, lo, i, j, m1.head, all)
  {
    AllocReady(m, m1, d, lo, i, j, hi, all);
    AllocSpentPop(m, m1, d, Missing(m.mem, d, lo, Vpn(i, j)), Vpn(i, j) - lo, ZeroPage(), all);
  }

  lemma AllocSpentPop(m: Vm, m1: Vm, d: int, made: set<int>, n: int, page: Page, all: set<int>)
    requires AllocSpent(m, m1, d, made, n) && Good(m1, all) && Has(m1.owner, d, Own(d, Dir)) && |m1.stack| > 0
    ensures 0 < m1.head < |m1.mem| && AllocSpent(m, Filled(Popped(m1), m1.head, page), d, made, n + 1)
  {
    PopKeeps(m1, all);
    assert m1.head != d;
  }

  lemma AllocReady(m: Vm, m1: Vm, d: int, lo: int, i: int, j: int, hi: int, all: set<int>)
    requires Alloced(m, m1, d, lo, Vpn(i, j), 0, all) && |m1.stack| > 0
    requires 0 <= lo <= Vpn(i, j) < hi && 0 <= i < KERNDIR && 0 <= j < NENTRIES && Vacant(m.mem, d, lo, hi)
    requires forall f :: f in m.owner ==> 0 <= f < |m.mem|
    ensures var m2 := Filled(Popped(m1), m1.head, ZeroPage());
            0 < m1.head < |m1.mem| && Alloced(m, m2, d, lo, Vpn(i, j), m1.head, all) && m1.head !in m.owner &&
            MayMap(m2, d, i, j, Entry(m1.head, 7), all)
  {
    PopKeeps(m1, all);
    PopSpaces(m1, all);
    var f := m1.head;
    FilledGood(Popped(m1), f, ZeroPage(), all);
    var m2 := Filled(Popped(m1), f, ZeroPage());
    assert FrameOk(m1.mem, m1.owner, d);
    forall i', j' ensures Leaf(m2.mem, d, i', j') == Leaf(m1.mem, d, i', j') {
      SameSpaceLeaf(m1.mem, m1.owner, m2.mem, m2.owner, d, i', j');
    }
  }

  lemma AllocStep(m: Vm, m1: Vm, m2: Vm, d: int, lo: int, i: int, j: int, f: int, all: set<int>)
    requires Alloced(m, m1, d, lo, Vpn(i, j), f, all) && MayMap(m1, d, i, j, Entry(f, 7), all) && f !in m.owner
    requires 0 < f < |m1.mem| && m1.mem[f] == ZeroPage() && MapDone(m1, m2, d, i, j, Entry(f, 7), all)
    requires 0 <= lo <= Vpn(i, j) && 0 <= i < KERNDIR && 0 <= j < NENTRIES
    ensures Alloced(m, m2, d, lo, Vpn(i, j) + 1, 0, all)
  {
    forall i', j' | 0 <= j' < NENTRIES && lo <= Vpn(i', j') < Vpn(i, j) + 1
      ensures NewPage(m, m2, Leaf(m2.mem, d, i', j'))
    {
      if (i', j') != (i, j) {
        assert Vpn(i', j') < Vpn(i, j);
        LeafOwned(m1.mem, m1.owner, d, i', j');
      }
    }
    forall g | g in m2.owner && g !in m.owner
      ensures OfTables(m2.owner[g], d) || InRange(m2.owner[g], d, lo, Vpn(i, j) + 1)
    {
      if g != f && g in m1.owner { assert g in m1.owner; }
    }
  }

  lemma AllocMapped(m: Vm, m1: Vm, m2: Vm, d: int, lo: int, p: int, i: int, j: int, f: int, all: set<int>)
    requires AllocHeld(m, m1, d, lo, i, j, f, all) && 0 <= lo <= p == Vpn(i, j)
    requires 0 <= i < KERNDIR && 0 <= j < NENTRIES
    requires MapDone(m1, m2, d, i, j, Entry(f, 7), all) && Paid(m1, m2, d, i)
    ensures AllocedTo(m, m2, d, lo, p + 1, all)
  {
    AllocStep(m, m1, m2, d, lo, i, j, f, all);
    AllocSpentMap(m, m1, m2, d, Missing(m.mem, d, lo, p), i, p + 1 - lo);
    assert (p + 1 - 1) / NENTRIES == i;
  }

  /** After a failure: the pages are gone again, and what is left of the attempt is tables. */
  ghost predicate AllocUndone(m: Vm, m': Vm, d: int, lo: int, hi: int, x: int) {
    && Added(m, m', d, 0, 0, x)
    && Vacant(m'.mem, d, lo, hi)
    && (forall i, j :: 0 <= j < NENTRIES && !(lo <= Vpn(i, j) < hi) ==> Leaf(m'.mem, d, i, j) == Leaf(m.mem, d, i, j))
  }

  lemma AllocUndo(m: Vm, m1: Vm, m2: Vm, d: int, lo: int, p: int, hi: int, x: int, all: set<int>)
    requires Good(m, all) && Has(m.owner, d, Own(d, Dir)) && Vacant(m.mem, d, lo, hi) && lo <= p <= hi
    requires Alloced(m, m1, d, lo, p, x, all) && Removed(m1, m2, d, lo, hi)
    ensures AllocUndone(m, m2, d, lo, hi, x)
  {
    forall f | f in m.owner ensures !InRange(m.owner[f], d, lo, hi) {
      assert FrameOk(m.mem, m.owner, f);
      if m.owner[f].Own? && m.owner[f].use.User? { OnlyDirs(m.mem, m.owner, f); UserLeaf(m, f); }
    }
    forall f | f in m.owner && 0 <= f < |m.mem|
      ensures Has(m2.owner, f, m.owner[f]) && (OfTables(m.owner[f], d) || m2.mem[f] == m.mem[f])
    {
      assert Has(m1.owner, f, m.owner[f]);
    }
  }

  lemma PutBack(m: Vm, m1: Vm, d: int, lo: int, hi: int, x: int, all: set<int>)
    requires AllocUndone(m, m1, d, lo, hi, x) && Good(m1, all) && Has(m1.owner, d, Own(d, Dir))
    requires x !in m.owner && Has(m1.owner, x, Loose)
    ensures 0 < x < |m1.mem| && Good(Pushed(m1, x), all) == true && AllocUndone(m, Pushed(m1, x), d, lo, hi, 0) == true
  {
    PushSpaces(m1, x, all);
    var m2 := Pushed(m1, x);
    assert FrameOk(m1.mem, m1.owner, d);
    forall i, j ensures Leaf(m2.mem, d, i, j) == Leaf(m1.mem, d, i, j) {
      SameSpaceLeaf(m1.mem, m1.owner, m2.mem, m2.owner, d, i, j);
    }
  }

  lemma UserLeaf(m: Vm, f: int)
    requires Spaces(m.mem, m.owner) && f in m.owner && m.owner[f].Own? && m.owner[f].use.User?
    ensures var o := m.owner[f]; 0 <= o.use.j < NENTRIES && Present(Leaf(m.mem, o.dir, o.use.i, o.use.j))
  {
  }

  /** The frames [lo, p) are no longer owned; the others are, as before. */
  ghost predicate RangeFreed(m: Vm, m': Vm, lo: int, p: int) {
    && (forall f :: f in m'.owner ==> Has(m.owner, f, m'.owner[f]) && !(lo <= f < p))
    && (forall f :: f in m.owner && !(lo <= f < p) ==> f in m'.owner)
  }

  class Machine {
    var mem: seq<Page>
    var freelist: int
    ghost var stack: seq<int>
    ghost var slot: map<int, int>
    ghost var owner: map<int, Owner>
    ghost const all: set<int>

    /** Before `kinit1`: the free list is empty and every frame but 0 is the kernel's own. */
    constructor (mem: seq<Page>)
      requires |mem| > 0
      ensures this.mem == mem && freelist == 0 && Good(St(), all)
      ensures forall f :: 0 < f < |mem| <==> f in all
      ensures forall f :: f in owner <==> f in all
      ensures forall f :: f in all ==> Has(owner, f, Loose)
    {
      this.mem, freelist := mem, 0;
      stack, slot, owner, all := [], map[], map f | f in Interval(1, |mem|) :: Loose, Interval(1, |mem|);
    }

    ghost function St(): Vm
      reads this
    {
      Vm(mem, freelist, stack, slot, owner)
    }

    /** `freerange`: exactly those frames, the kernel's own until now, become free. */
    method Freerange(lo: nat, hi: nat)
      requires Good(St(), all) && lo <= hi && forall f :: lo <= f < hi ==> Has(owner, f, Loose)
      modifies this
      ensures Good(St(), all) == true && RangeFreed(old(St()), St(), lo, hi) == true
    {
      var p := lo;
      while p < hi
        invariant lo <= p <= hi && Good(St(), all) == true && RangeFreed(old(St()), St(), lo, p) == true
      {
        assert Has(old(owner), p, Loose);
        PushSpaces(St(), p, all);
        Kfree(p);
        p := p + 1;
      }
    }

    /** `kalloc`: fails exactly when the free list is empty. */
    method Kalloc() returns (r: int)
      requires FreeOk(St(), all)
      modifies this
      ensures r == old(freelist) && (r == 0 <==> |old(stack)| == 0)
      ensures r == 0 ==> St() == old(St())
      ensures r != 0 ==> St() == Popped(old(St()))
    {
      r := freelist;
      if r != 0 {
        PopKeeps(St(), all);
        freelist := mem[r].next;
        ghost var n := |stack| - 1;
        stack, slot, owner := stack[..n], slot - {r}, owner[r := Loose];
      }
    }

    /** `kfree`. */
    method Kfree(v: int)
      requires FreeOk(St(), all) && v in owner
      modifies this
      ensures 0 < v < |old(mem)| && St() == Pushed(old(St()), v) && FreeOk(St(), all)
    {
      PushKeeps(St(), v, all);
      mem := mem[v := Run(freelist)];
      freelist := v;
      stack, slot, owner := stack + [v], slot[v := |stack|], owner - {v};
    }

    /** `walkpgdir`, up to the table: 0 when there is none and none may or can be made. */
    method Walk(d: int, i: int, alloc: bool) returns (t: int)
      requires Good(St(), all) && Has(owner, d, Own(d, Dir)) && 0 <= i < NENTRIES
      modifies this
      ensures IsTable(old(mem), d)
      ensures t == 0 ==> St() == old(St()) && !Present(mem[d].entries[i]) && (alloc ==> |stack| == 0)
      ensures t != 0 ==> Walked(old(St()), St(), d, i, t, all) == true && Paid(old(St()), St(), d, i) == true
      ensures !alloc || old(Present(mem[d].entries[i])) ==> St() == old(St())
      ensures t != 0 && !old(Present(mem[d].entries[i])) ==> IsTable(mem, d) && mem[d].entries[i] == Entry(t, 7)
    {
      TableIs(St(), d, i);
      if Present(mem[d].entries[i]) {
        return mem[d].entries[i].frame;
      }
      if !alloc { return 0; }
      ghost var m := St();
      t := Kalloc();
      if t == 0 { return; }
      TableMade(m, d, i, all);
      mem := mem[t := Table(Zeros())];
      mem := mem[d := Table(mem[d].entries[i := Entry(t, OPEN)])];
      owner := owner[t := Own(d, Tab(i))];
    }

    /** One page of `mappages`; a page that is there already is a panic. Fails without a trace. */
    method MapOne(d: int, i: int, j: int, f: int, perm: int) returns (ok: bool)
      requires MayMap(St(), d, i, j, Entry(f, OrPresent(perm)), all)
      modifies this
      ensures !ok ==> St() == old(St()) && |stack| == 0 && !HasTable(mem, d, i)
      ensures ok ==> MapDone(old(St()), St(), d, i, j, Entry(f, OrPresent(perm)), all) == true
      ensures ok ==> Paid(old(St()), St(), d, i) == true
    {
      ghost var m := St();
      var t := Walk(d, i, true);
      if t == 0 { return false; }
      ghost var e := Entry(f, OrPresent(perm));
      if i < KERNDIR { MapUserDone(m, St(), d, i, t, j, e, all); } else { MapKernelDone(m, St(), d, i, t, j, e, all); }
      ghost var m1 := St();
      mem := mem[t := Table(mem[t].entries[j := Entry(f, OrPresent(perm))])];
      if i < KERNDIR { owner := owner[f := Own(d, User(i, j))]; }
      PaidLeaf(m, m1, St(), d, i, t, j, e);
      ok := true;
    }

    /** `deallocuvm`: sizes are in bytes, p is a page number. The skip over a missing table is the source's. */
    method Dealloc(d: int, oldsz: nat, newsz: nat) returns (sz: nat)
      requires Good(St(), all) && Has(owner, d, Own(d, Dir)) && oldsz <= KERNBASE
      modifies this
      ensures Good(St(), all) && Has(owner, d, Own(d, Dir))
      ensures sz == if newsz >= oldsz then oldsz else newsz
      ensures newsz >= oldsz ==> St() == old(St())
      ensures newsz < oldsz ==> Removed(old(St()), St(), d, Pages(newsz), Pages(oldsz)) == true
    {
      if newsz >= oldsz { return oldsz; }
      var p := (newsz + PGSIZE - 1) / PGSIZE;
      ghost var lo, hi := Pages(newsz), Pages(oldsz);
      ghost var m := St();
      PagesLess(p, oldsz);
      while p * PGSIZE < oldsz
        invariant lo <= p && hi <= KERNDIR * NENTRIES && (p * PGSIZE < oldsz <==> p < hi)
        invariant Good(St(), all) && Has(owner, d, Own(d, Dir))
        invariant Removed(m, St(), d, lo, if p <= hi then p else hi) == true
      {
        p := DeallocStep(d, p, m, lo, hi);
        PagesLess(p, oldsz);
      }
      sz := newsz;
    }

    /** One turn of the loop. */
    method DeallocStep(d: int, p: nat, ghost m: Vm, ghost lo: int, ghost hi: int) returns (q: nat)
      requires Good(St(), all) && Has(owner, d, Own(d, Dir)) && lo <= p < hi <= KERNDIR * NENTRIES
      requires Removed(m, St(), d, lo, p) == true
      modifies this
      ensures Good(St(), all) == true && Has(owner, d, Own(d, Dir)) && q > p
      ensures Removed(m, St(), d, lo, if q <= hi then q else hi) == true
    {
      SplitVpn(p);
      var i, j := p / NENTRIES, p % NENTRIES;
      q := p + 1;
      var t := Walk(d, i, false);
      if t == 0 {
        q := (i + 1) * NENTRIES - 1 + 1;
        RemovedSkip(m, St(), d, lo, i, p, if q <= hi then q else hi);
      } else if Present(mem[t].entries[j]) {
        ghost var f := mem[t].entries[j].frame;
        CanUnmapIt(St(), d, i, t, j, all);
        RemovedOne(m, St(), d, lo, i, t, j, f, all);
        UnmapOne(t, j);
      } else {
        assert Leaf(mem, d, i, j) == mem[t].entries[j];
        RemovedAbsent(m, St(), d, lo, i, j);
      }
    }

    method UnmapOne(t: int, j: int)
      requires FreeOk(St(), all) == true && IsTable(mem, t) && 0 <= j < NENTRIES
      requires mem[t].entries[j].frame in owner && mem[t].entries[j].frame != t
      modifies this
      ensures 0 <= old(mem[t].entries[j].frame) < |old(mem)|
      ensures St() == Unmapped(old(St()), t, j, old(mem[t].entries[j].frame))
    {
      var f := mem[t].entries[j].frame;
      Kfree(f);
      mem := mem[t := Table(mem[t].entries[j := NOENTRY])];
    }

    /** The loop over the directory in `freevm`. */
    method FreeTables(d: int)
      requires Good(St(), all) && Has(owner, d, Own(d, Dir))
      modifies this
      ensures FreeOk(St(), all) == true && TabsFreed(old(St()), St(), d, NENTRIES) == true && d in owner
    {
      ghost var m := St();
      var i := 0;
      while i < NENTRIES
        invariant 0 <= i <= NENTRIES && FreeOk(St(), all) == true && TabsFreed(m, St(), d, i) == true && d in owner
      {
        TabFreed(m, St(), d, i, all);
        if Present(mem[d].entries[i]) {
          Kfree(mem[d].entries[i].frame);
        }
        i := i + 1;
      }
    }

    /** `freevm`: every page, every table and the directory go back to the free list, each once. */
    method Freevm(d: int)
      requires Good(St(), all) && Has(owner, d, Own(d, Dir))
      modifies this
      ensures Good(St(), all) == true && Freed(old(St()), St(), d) == true
    {
      ghost var m := St();
      var sz := Dealloc(d, KERNBASE, 0);
      ghost var m1 := St();
      FreeTables(d);
      assert 0 < d < |mem|;
      AllFreed(m, m1, St(), d, all);
      Kfree(d);
      FreedGood(m, St(), d, all);
    }

    /** One turn of the loop of `mappages`: page k of line n of `kmap`. */
    method MapPage(d: int, kmap: seq<Range>, n: nat, k: nat, ghost m: Vm) returns (ok: bool)
      requires Good(m, all) && KmapOk(kmap) && n < |kmap| && k < kmap[n].n
      requires Building(m, St(), d, kmap, n, k, all) == true
      modifies this
      ensures ok ==> Building(m, St(), d, kmap, n, k + 1, all) == true
      ensures !ok ==> GaveUp(m, St(), d, KernelNeed(kmap), all) == true
    {
      var p := kmap[n].page + k;
      SplitKernel(p);
      var i, j := p / NENTRIES, p % NENTRIES;
      ghost var m1 := St();
      BuildMay(m, m1, d, kmap, n, k, i, j, all);
      ok := MapOne(d, i, j, kmap[n].frame + k, kmap[n].perm);
      if ok { BuildStep(m, m1, St(), d, kmap, n, k, i, j, all); } else { BuildTooFew(m, m1, d, kmap, n, k, i); }
    }

    /** The loop of `mappages`, for line n of `kmap`. */
    method MapRange(d: int, kmap: seq<Range>, n: nat, ghost m: Vm) returns (ok: bool)
      requires Good(m, all) && KmapOk(kmap) && n < |kmap| && Building(m, St(), d, kmap, n, 0, all) == true
      modifies this
      ensures ok ==> Building(m, St(), d, kmap, n + 1, 0, all) == true
      ensures !ok ==> GaveUp(m, St(), d, KernelNeed(kmap), all) == true
    {
      var k := 0;
      while k < kmap[n].n
        invariant 0 <= k <= kmap[n].n && Building(m, St(), d, kmap, n, k, all) == true
      {
        ok := MapPage(d, kmap, n, k, m);
        if !ok { return; }
        k := k + 1;
      }
      BuildLine(m, St(), d, kmap, n, all);
      ok := true;
    }

    /** An empty directory. */
    method Pgdir(ghost kmap: seq<Range>) returns (d: int)
      requires Good(St(), all)
      modifies this
      ensures d == 0 <==> |old(stack)| == 0
      ensures d == 0 ==> St() == old(St())
      ensures d != 0 ==> Building(old(St()), St(), d, kmap, 0, 0, all) == true
    {
      ghost var m := St();
      d := Kalloc();
      if d == 0 { return; }
      DirStarted(m, kmap, all);
      mem := mem[d := Table(Zeros())];
      owner := owner[d := Own(d, Dir)];
    }

    /** `setupkvm`: a directory with the kernel's mappings; or, exactly when the free frames are too few, nothing
        changed. */
    method Setupkvm(kmap: seq<Range>) returns (d: int)
      requires Good(St(), all) && KmapOk(kmap)
      modifies this
      ensures d == 0 <==> |old(stack)| < KernelNeed(kmap)
      ensures d == 0 ==> Good(St(), all) == true && Restored(old(St()), St()) == true
      ensures d != 0 ==> Building(old(St()), St(), d, kmap, |kmap|, 0, all) == true
    {
      ghost var m := St();
      d := Pgdir(kmap);
      if d == 0 { return; }
      var n := 0;
      while n < |kmap|
        invariant 0 <= n <= |kmap| && Building(m, St(), d, kmap, n, 0, all) == true
      {
        var ok := MapRange(d, kmap, n, m);
        if !ok {
          Discard(d, m, KernelNeed(kmap));
          return 0;
        }
        n := n + 1;
      }
      BuildPaid(m, St(), d, kmap, all);
    }

    /** `freevm` of a new address space that could not be finished. */
    method Discard(c: int, ghost m: Vm, ghost need: nat)
      requires Good(m, all) && GaveUp(m, St(), c, need, all) == true
      modifies this
      ensures Good(St(), all) == true && Restored(m, St()) == true && |m.stack| < need
    {
      ghost var m1 := St();
      Freevm(c);
      GrownFreed(m, m1, St(), c, all);
    }

    /** One turn of the loop in `copyuvm`: p is the page copied. */
    method CopyOne(d: int, c: int, p: nat, kmap: seq<Range>, ghost m: Vm) returns (ok: bool)
      requires Good(m, all) && Has(m.owner, d, Own(d, Dir)) && KmapOk(kmap) && p < KERNDIR * NENTRIES
      requires PresentTo(m.mem, d, p + 1) && CopiedTo(m, St(), d, c, p, kmap, all) == true
      modifies this
      ensures ok ==> CopiedTo(m, St(), d, c, p + 1, kmap, all) == true
      ensures !ok ==> GaveUp(m, St(), c, CopyNeed(kmap, p + 1), all) == true
    {
      SplitVpn(p);
      var i, j := p / NENTRIES, p % NENTRIES;
      var pte := Lookup(d, c, i, j, m);
      ghost var m1 := St();
      var f := Duplicate(pte.frame);
      if f == 0 {
        CopyNoPage(m, m1, d, c, p, kmap, all);
        return false;
      }
      CopyReady(m, m1, d, c, i, j, kmap, all);
      SpentPop(m, m1, c, CopyDirs(kmap, p), p, old(mem[pte.frame]), all);
      ok := CopyMap(d, c, p, i, j, f, pte.flags, kmap, m);
    }

    /** The copy f of page p goes into c, or back to the free list. */
    method CopyMap(ghost d: int, c: int, ghost p: nat, i: int, j: int, f: int, flags: int, ghost kmap: seq<Range>,
                   ghost m: Vm) returns (ok: bool)
      requires Good(m, all) && KmapOk(kmap) && p == Vpn(i, j) && 0 <= i < KERNDIR && 0 <= j < NENTRIES
      requires PresentTo(m.mem, d, p + 1) && flags == Leaf(m.mem, d, i, j).flags
      requires Ready(m, St(), d, c, i, j, f, kmap, all) == true && Spent(m, St(), c, CopyDirs(kmap, p), p + 1) == true
      modifies this
      ensures ok ==> CopiedTo(m, St(), d, c, p + 1, kmap, all) == true
      ensures !ok ==> GaveUp(m, St(), c, CopyNeed(kmap, p + 1), all) == true
    {
      ghost var m1 := St();
      ok := MapOne(c, i, j, f, flags);
      if ok {
        CopyMapped(m, m1, St(), d, c, p, i, j, f, kmap, all);
      } else {
        CopyNoTable(m, m1, c, p, i, kmap);
        GrownPush(m, m1, c, f, all);
        Kfree(f);
      }
    }

    /** The parent's entry for the page. */
    method Lookup(d: int, c: int, i: int, j: int, ghost m: Vm) returns (pte: Entry)
      requires Good(m, all) && Has(m.owner, d, Own(d, Dir)) && 0 <= i < KERNDIR && 0 <= j < NENTRIES
      requires Good(St(), all) && Grown(m, St(), c, 0) && Present(Leaf(m.mem, d, i, j))
      modifies this
      ensures St() == old(St()) && pte == Leaf(m.mem, d, i, j) && 0 < pte.frame < |mem| && pte.frame in owner
    {
      ParentSame(m, St(), d, c, 0, i, j);
      LeafOwned(m.mem, m.owner, d, i, j);
      var t := Walk(d, i, false);
      pte := mem[t].entries[j];
    }

    /** `kalloc` and `memmove`. */
    method Duplicate(src: int) returns (f: int)
      requires FreeOk(St(), all) && 0 < src < |mem| && src in owner
      modifies this
      ensures f == old(freelist) && (f == 0 <==> |old(stack)| == 0) && (f == 0 ==> St() == old(St()))
      ensures f != 0 ==> 0 < f < |mem| && St() == Filled(Popped(old(St())), f, old(mem[src]))
    {
      if |stack| > 0 { PopKeeps(St(), all); }
      f := Kalloc();
      if f != 0 { mem := mem[f := mem[src]]; }
    }

    /** `copyuvm`: a child with the same flags and bytes below sz, in frames of its own; or, exactly when the free
        frames are too few for its directory, tables and pages, everything as it was. */
    method Copyuvm(d: int, sz: nat, kmap: seq<Range>) returns (c: int)
      requires Good(St(), all) && Has(owner, d, Own(d, Dir)) && KmapOk(kmap) && sz <= KERNBASE
      requires PresentTo(mem, d, Pages(sz))
      modifies this
      ensures c == 0 <==> |old(stack)| < CopyNeed(kmap, Pages(sz))
      ensures c != 0 ==> Copying(old(St()), St(), d, c, Pages(sz), kmap, all) == true
      ensures c != 0 ==> |old(stack)| == |stack| + CopyNeed(kmap, Pages(sz))
      ensures c != 0 ==> SameRights(old(mem), d, mem, c, Pages(sz)) == true
      ensures c == 0 ==> Good(St(), all) == true && Restored(old(St()), St()) == true
    {
      ghost var m := St();
      c := Setupkvm(kmap);
      if c == 0 { return; }
      var p := 0;
      CopyStart(m, St(), d, c, kmap, all);
      while p * PGSIZE < sz
        invariant 0 <= p <= Pages(sz)
        invariant CopiedTo(m, St(), d, c, p, kmap, all) == true
      {
        PagesLess(p, sz);
        var ok := CopyOne(d, c, p, kmap, m);
        if !ok {
          Discard(c, m, CopyNeed(kmap, p + 1));
          CopyNeedGrows(kmap, p + 1, Pages(sz));
          return 0;
        }
        p := p + 1;
      }
      PagesLess(p, sz);
      CopyPaid(m, St(), d, c, p, kmap, all);
      CopyRights(m, St(), d, c, p, kmap, all);
    }

    /** `kalloc` and `memset`. */
    method ZeroFrame() returns (f: int)
      requires FreeOk(St(), all)
      modifies this
      ensures f == old(freelist) && (f == 0 <==> |old(stack)| == 0) && (f == 0 ==> St() == old(St()))
      ensures f != 0 ==> 0 < f < |mem| && St() == Filled(Popped(old(St())), f, ZeroPage())
    {
      if |stack| > 0 { PopKeeps(St(), all); }
      f := Kalloc();
      if f != 0 { mem := mem[f := ZeroPage()]; }
    }

    /** One turn of the loop in `allocuvm`. A frame that could not be mapped is handed back as x. */
    method AllocOne(d: int, p: nat, ghost m: Vm, ghost lo: nat, ghost hi: nat) returns (ok: bool, x: int)
      requires Good(m, all) && Vacant(m.mem, d, lo, hi) && lo <= p < hi <= KERNDIR * NENTRIES
      requires AllocedTo(m, St(), d, lo, p, all) == true
      modifies this
      ensures ok ==> AllocedTo(m, St(), d, lo, p + 1, all) == true
      ensures !ok ==> AllocStopped(m, St(), d, lo, p, hi, x, all) == true
    {
      SplitVpn(p);
      var i, j := p / NENTRIES, p % NENTRIES;
      ghost var m1 := St();
      x := ZeroFrame();
      if x == 0 {
        AllocNoPage(m, m1, d, lo, p, hi, all);
        return false, 0;
      }
      AllocTaken(m, m1, d, lo, i, j, hi, all);
      ok := AllocMap(d, i, j, x, m, lo, p, hi);
    }

    /** The zeroed frame x goes in at page p. */
    method AllocMap(d: int, i: int, j: int, x: int, ghost m: Vm, ghost lo: nat, ghost p: nat, ghost hi: nat)
      returns (ok: bool)
      requires lo <= p < hi && p == Vpn(i, j) && 0 <= i < KERNDIR && 0 <= j < NENTRIES
      requires AllocHeld(m, St(), d, lo, i, j, x, all) == true
      modifies this
      ensures ok ==> AllocedTo(m, St(), d, lo, p + 1, all) == true
      ensures !ok ==> AllocStopped(m, St(), d, lo, p, hi, x, all) == true
    {
      ghost var m1 := St();
      ok := MapOne(d, i, j, x, 6);
      if ok {
        AllocMapped(m, m1, St(), d, lo, p, i, j, x, all);
      } else {
        AllocHeldStops(m, m1, d, lo, p, i, j, hi, x, all);
      }
    }

    /** `allocuvm`: the new size, with new zero pages up to it; or 0, with no new page, exactly when the size is
        beyond KERNBASE or the free frames are too few for the pages and the tables they lack. */
    method Allocuvm(d: int, oldsz: nat, newsz: nat) returns (r: nat)
      requires Good(St(), all) && Has(owner, d, Own(d, Dir)) && Vacant(mem, d, Pages(oldsz), Pages(newsz))
      modifies this
      ensures newsz >= KERNBASE || newsz < oldsz ==> St() == old(St()) && r == if newsz >= KERNBASE then 0 else oldsz
      ensures oldsz <= newsz < KERNBASE ==>
                r == if |old(stack)| < AllocNeed(old(mem), d, Pages(oldsz), Pages(newsz)) then 0 else newsz
      ensures oldsz <= newsz < KERNBASE ==>
                AllocEnds(old(St()), St(), d, Pages(oldsz), Pages(newsz),
                          |old(stack)| >= AllocNeed(old(mem), d, Pages(oldsz), Pages(newsz)), all) == true
      ensures oldsz <= newsz < KERNBASE && r == newsz != 0 ==> UserWritable(mem, d, Pages(oldsz), Pages(newsz)) == true
    {
      if newsz >= KERNBASE { return 0; }
      if newsz < oldsz { return oldsz; }
      var ok := AllocLoop(d, oldsz, newsz);
      if ok { AllocRights(old(St()), St(), d, Pages(oldsz), Pages(newsz), all); }
      r := if ok then newsz else 0;
    }

    /** Its loop. */
    method AllocLoop(d: int, oldsz: nat, newsz: nat) returns (ok: bool)
      requires Good(St(), all) && Has(owner, d, Own(d, Dir)) && Vacant(mem, d, Pages(oldsz), Pages(newsz))
      requires oldsz <= newsz < KERNBASE
      modifies this
      ensures AllocEnds(old(St()), St(), d, Pages(oldsz), Pages(newsz), ok, all) == true
    {
      ghost var m := St();
      var p := Pages(oldsz);
      PagesMore(oldsz, newsz);
      AllocStart(m, d, p, all);
      while p * PGSIZE < newsz
        invariant Pages(oldsz) <= p <= Pages(newsz)
        invariant AllocedTo(m, St(), d, Pages(oldsz), p, all) == true
      {
        PagesLess(p, newsz);
        ok := AllocTurn(d, oldsz, newsz, p, m);
        if !ok { return; }
        p := p + 1;
      }
      PagesLess(p, newsz);
      AllocPaid(m, St(), d, Pages(oldsz), p, all);
      ok := true;
    }

    /** A turn of it with its error path. */
    method AllocTurn(d: int, oldsz: nat, newsz: nat, p: nat, ghost m: Vm) returns (ok: bool)
      requires Good(m, all) && Has(m.owner, d, Own(d, Dir)) && Vacant(m.mem, d, Pages(oldsz), Pages(newsz))
      requires oldsz <= newsz < KERNBASE && Pages(oldsz) <= p < Pages(newsz)
      requires AllocedTo(m, St(), d, Pages(oldsz), p, all) == true
      modifies this
      ensures ok ==> AllocedTo(m, St(), d, Pages(oldsz), p + 1, all) == true
      ensures !ok ==> AllocEnds(m, St(), d, Pages(oldsz), Pages(newsz), false, all) == true
    {
      var x;
      ok, x := AllocOne(d, p, m, Pages(oldsz), Pages(newsz));
      if !ok { GiveUp(d, oldsz, newsz, m, p, x); }
    }

    /** The error path: the pages mapped so far, and the frame that was not. */
    method GiveUp(d: int, oldsz: nat, newsz: nat, ghost m: Vm, ghost p: nat, x: int)
      requires Good(m, all) && Has(m.owner, d, Own(d, Dir)) && Vacant(m.mem, d, Pages(oldsz), Pages(newsz))
      requires oldsz < newsz < KERNBASE && Pages(oldsz) <= p < Pages(newsz)
      requires AllocStopped(m, St(), d, Pages(oldsz), p, Pages(newsz), x, all) == true
      modifies this
      ensures AllocEnds(m, St(), d, Pages(oldsz), Pages(newsz), false, all) == true
    {
      ghost var m1 := St();
      var sz := Dealloc(d, newsz, oldsz);
      AllocUndo(m, m1, St(), d, Pages(oldsz), p, Pages(newsz), x, all);
      if x != 0 {
        PutBack(m, St(), d, Pages(oldsz), Pages(newsz), x, all);
        Kfree(x);
      }
    }
  }
}
