/** umalloc.c: the user memory allocator. Addresses are counted in units of sizeof(Header), 8 bytes, from the
    user address 0; a block's header is its first unit. `sbrk` is modelled down to its conversion to int, and so is
    the end of a process that loses the memory it stands on: nothing is written where no page is.
    `P == true` in a contract is P kept as one proof obligation; without it Dafny asks for P conjunct by conjunct. */
module Umalloc {
  import opened Common

  const TWO31 := 0x8000_0000
  const TWO32 := 0x1_0000_0000
  const UNIT := 8

  /** ptr, size and freep are the program's memory, brk the end of the process (in units). The rest is
      bookkeeping: the addresses of free and of live blocks, the block every unit handed to the allocator
      belongs to, the units `sbrk` really gave, and where the process's memory ends: at brk, or at 0 once it is
      gone. */
  datatype Heap = Heap(freep: int, ptr: map<int, int>, size: map<int, int>, brk: int,
                       free: set<int>, live: set<int>, blk: map<int, int>, got: set<int>, top: int)

  // ---- the free list ----

  /** From a free block the link leads to the next one up, or from the highest to the lowest. */
  ghost predicate NextOk(base: int, free: set<int>, ptr: map<int, int>, a: int) {
    && a in ptr && ptr[a] in free
    && (if ptr[a] > a then forall b :: b in free ==> b <= a || b >= ptr[a]
        else ptr[a] == base && forall b :: b in free ==> b <= a)
  }

  /** The list is circular and sorted by address, with one wrap. */
  ghost predicate Linked(base: int, free: set<int>, ptr: map<int, int>) {
    && base in free && (forall a :: a in free ==> base <= a)
    && (forall a {:trigger NextOk(base, free, ptr, a)} :: a in free ==> NextOk(base, free, ptr, a))
  }

  predicate Block(base: int, free: set<int>, live: set<int>, b: int) { (b in free && b != base) || b in live }

  /** The units of block b are marked as its own. */
  ghost predicate Covers(size: map<int, int>, blk: map<int, int>, b: int) {
    b in size && size[b] > 0 && forall u :: b <= u < b + size[b] ==> u in blk && blk[u] == b
  }

  /** Unit u is in the block that it is marked with. */
  predicate InBlock(base: int, free: set<int>, live: set<int>, size: map<int, int>, blk: map<int, int>, u: int) {
    && u in blk && Block(base, free, live, blk[u]) && blk[u] in size
    && blk[u] <= u < blk[u] + size[blk[u]] && base < blk[u]
  }

  /** Blocks and units match. */
  ghost predicate Units(base: int, free: set<int>, live: set<int>, size: map<int, int>, blk: map<int, int>) {
    && base in size && size[base] == 0
    && (forall b {:trigger Covers(size, blk, b)} :: Block(base, free, live, b) ==> Covers(size, blk, b))
    && (forall u {:trigger InBlock(base, free, live, size, blk, u)} ::
          u in blk ==> InBlock(base, free, live, size, blk, u))
    && base !in live && (forall b :: b in live ==> b !in free)
  }

  /** Free block a ends where the next one begins. */
  predicate Touch(h: Heap, a: int) {
    a in h.ptr && a in h.size && h.ptr[a] > a && a + h.size[a] == h.ptr[a]
  }

  /** The free list and the blocks are in order, and free blocks do not touch, save perhaps those in `but`. */
  ghost predicate Ordered(base: int, h: Heap, but: set<int>) {
    && Linked(base, h.free, h.ptr) && Units(base, h.free, h.live, h.size, h.blk) && h.freep in h.free
    && (forall a :: a in h.free && a !in but ==> !Touch(h, a))
  }

  ghost predicate Sound(base: int, h: Heap) { Ordered(base, h, {}) }

  /** The units in free or live blocks are the ones `sbrk` gave, no more and no less. */
  ghost predicate Honest(base: int, h: Heap) {
    && h.blk.Keys == h.got && 0 < base < h.brk == h.top && h.brk * UNIT < TWO31
    && (forall u :: u in h.got ==> base < u < h.brk)
  }

  ghost predicate Inv(base: int, h: Heap) { Sound(base, h) && Honest(base, h) }

  /** No two blocks overlap. */
  lemma BlocksDisjoint(base: int, free: set<int>, live: set<int>, size: map<int, int>, blk: map<int, int>,
                       a: int, b: int, u: int)
    requires Units(base, free, live, size, blk) && Block(base, free, live, a) && Block(base, free, live, b) && a != b
    requires a in size && b in size && a <= u < a + size[a]
    ensures !(b <= u < b + size[b])
  {
    assert Covers(size, blk, a) && Covers(size, blk, b);
    assert u in blk && blk[u] == a;
  }

  /** No two free blocks are adjacent: any two are apart by at least a unit. */
  lemma FreeBlocksApart(base: int, h: Heap, a: int, b: int)
    requires Sound(base, h) && a in h.free && b in h.free && a < b
    ensures a in h.size && a + h.size[a] < b
  {
    assert NextOk(base, h.free, h.ptr, a);
    var c := h.ptr[a];
    assert a != base ==> Covers(h.size, h.blk, a);
    assert Covers(h.size, h.blk, c);
    if a != base && a + h.size[a] > c {
      BlocksDisjoint(base, h.free, h.live, h.size, h.blk, c, a, c);
    }
  }

  // ---- going round the list ----

  /** The blocks still ahead on the way from p to q, both included. */
  ghost function Ahead(free: set<int>, p: int, q: int): set<int> {
    set b | b in free && (if p <= q then p <= b <= q else b >= p || b <= q)
  }

  lemma AheadShrinks(base: int, free: set<int>, ptr: map<int, int>, p: int, q: int)
    requires Linked(base, free, ptr) && p in free && q in free && p != q
    ensures p in ptr && ptr[p] in free && Ahead(free, ptr[p], q) == Ahead(free, p, q) - {p}
  {
    assert NextOk(base, free, ptr, p);
    forall b | b in free ensures b in Ahead(free, ptr[p], q) <==> b in Ahead(free, p, q) && b != p { }
  }

  lemma AheadAll(base: int, free: set<int>, ptr: map<int, int>, q: int)
    requires Linked(base, free, ptr) && q in free
    ensures q in ptr && ptr[q] in free && Ahead(free, ptr[q], q) == free
  {
    assert NextOk(base, free, ptr, q);
    forall b | b in free ensures b in Ahead(free, ptr[q], q) { }
  }

  /** The free block just below address x. */
  ghost predicate Below(free: set<int>, q: int, x: int) {
    q in free && q < x && forall b :: b in free ==> b <= q || b >= x
  }

  lemma {:induction false} BelowExists(free: set<int>, x: int) returns (q: int)
    requires exists a :: a in free && a < x
    ensures Below(free, q, x)
    decreases free
  {
    var a :| a in free && a < x;
    var rest := free - {a};
    if exists b :: b in rest && b < x {
      var r := BelowExists(rest, x);
      q := if r > a then r else a;
      forall b | b in free ensures b <= q || b >= x { if b != a { assert b in rest; } }
    } else {
      q := a;
      forall b | b in free ensures b <= q || b >= x { if b != a { assert b in rest; } }
    }
  }

  /** Where the loop in `free` stops is exactly the block just below. */
  lemma StopIsBelow(base: int, free: set<int>, ptr: map<int, int>, p: int, x: int)
    requires Linked(base, free, ptr) && p in free && base < x && x !in free
    ensures p in ptr
    ensures Below(free, p, x) <==> (p < x < ptr[p]) || (p >= ptr[p] && (x > p || x < ptr[p]))
  {
    assert NextOk(base, free, ptr, p);
  }

  // ---- free, in elementary steps ----

  /** A live block enters the list after p. */
  function Inserted(h: Heap, p: int, bp: int): Heap
    requires p in h.ptr
  {
    h.(freep := p, ptr := h.ptr[bp := h.ptr[p]][p := bp], free := h.free + {bp}, live := h.live - {bp})
  }

  lemma InsertedOrdered(base: int, h: Heap, p: int, bp: int)
    requires Sound(base, h) && bp in h.live && base < bp && Below(h.free, p, bp)
    ensures p in h.ptr && Ordered(base, Inserted(h, p, bp), {p, bp})
  {
    assert NextOk(base, h.free, h.ptr, p);
    var h' := Inserted(h, p, bp);
    InsertedLinked(base, h.free, h.ptr, p, bp);
    InsertedUnits(base, h.free, h.live, h.size, h.blk, bp);
    forall a | a in h'.free && a !in {p, bp} ensures !Touch(h', a) { assert !Touch(h, a); }
  }

  /** A block's units stay its own when it changes from live to free. */
  lemma InsertedUnits(base: int, free: set<int>, live: set<int>, size: map<int, int>, blk: map<int, int>, bp: int)
    requires Units(base, free, live, size, blk) && bp in live && base < bp
    ensures Units(base, free + {bp}, live - {bp}, size, blk)
  {
    var free', live' := free + {bp}, live - {bp};
    forall u | u in blk ensures InBlock(base, free', live', size, blk, u) {
      assert InBlock(base, free, live, size, blk, u);
    }
  }

  lemma InsertedLinked(base: int, free: set<int>, ptr: map<int, int>, p: int, bp: int)
    requires Linked(base, free, ptr) && base < bp && bp !in free && Below(free, p, bp) && p in ptr
    ensures Linked(base, free + {bp}, ptr[bp := ptr[p]][p := bp])
  {
    var free', ptr' := free + {bp}, ptr[bp := ptr[p]][p := bp];
    assert NextOk(base, free, ptr, p);
    forall a | a in free' ensures NextOk(base, free', ptr', a) {
      if a != bp { assert NextOk(base, free, ptr, a); }
    }
  }

  /** Free block a swallows the next one, which it touches. */
  ghost function Joined(h: Heap, a: int): Heap
    requires a in h.ptr && a in h.size && h.ptr[a] in h.ptr && h.ptr[a] in h.size
  {
    var c := h.ptr[a];
    h.(ptr := h.ptr[a := h.ptr[c]], size := h.size[a := h.size[a] + h.size[c]], free := h.free - {c},
       blk := map u | u in h.blk :: if h.blk[u] == c then a else h.blk[u])
  }

  ghost predicate CanJoin(base: int, h: Heap, a: int) {
    && a in h.free && a != base && Touch(h, a) && h.freep != h.ptr[a]
  }

  lemma JoinedLinked(base: int, free: set<int>, ptr: map<int, int>, a: int)
    requires Linked(base, free, ptr) && a in free && a in ptr && ptr[a] > a
    ensures ptr[a] in ptr && Linked(base, free - {ptr[a]}, ptr[a := ptr[ptr[a]]])
  {
    var c := ptr[a];
    assert NextOk(base, free, ptr, a) && NextOk(base, free, ptr, c);
    var free', ptr' := free - {c}, ptr[a := ptr[c]];
    forall b | b in free' ensures NextOk(base, free', ptr', b) { assert NextOk(base, free, ptr, b); }
  }

  lemma JoinedUnits(base: int, h: Heap, a: int)
    requires Units(base, h.free, h.live, h.size, h.blk) && CanJoin(base, h, a) && h.ptr[a] in h.free
    requires h.ptr[a] in h.ptr && h.ptr[a] in h.size && base < a
    ensures var h' := Joined(h, a); Units(base, h'.free, h'.live, h'.size, h'.blk)
  {
    var h', c := Joined(h, a), h.ptr[a];
    assert Covers(h.size, h.blk, a) && Covers(h.size, h.blk, c);
    forall b | Block(base, h'.free, h'.live, b) ensures Covers(h'.size, h'.blk, b) {
      assert Covers(h.size, h.blk, b);
    }
    forall u | u in h'.blk ensures InBlock(base, h'.free, h'.live, h'.size, h'.blk, u) {
      assert InBlock(base, h.free, h.live, h.size, h.blk, u);
    }
  }

  lemma JoinedOrdered(base: int, h: Heap, a: int, but: set<int>)
    requires Ordered(base, h, but + {a}) && CanJoin(base, h, a) && h.ptr[a] !in but
    ensures h.ptr[a] in h.ptr && h.ptr[a] in h.size && Ordered(base, Joined(h, a), but)
  {
    var c := h.ptr[a];
    assert NextOk(base, h.free, h.ptr, a) && NextOk(base, h.free, h.ptr, c);
    assert Covers(h.size, h.blk, a) && Covers(h.size, h.blk, c);
    var h' := Joined(h, a);
    JoinedLinked(base, h.free, h.ptr, a);
    JoinedUnits(base, h, a);
    assert !Touch(h, c);
    forall b | b in h'.free && b !in but ensures !Touch(h', b) { if b != a { assert !Touch(h, b); } }
  }

  /** The state `free` leaves: insert after p, join upwards, join downwards. */
  ghost function Freed(base: int, h: Heap, p: int, bp: int): Heap
    requires Sound(base, h) && bp in h.live && base < bp && Below(h.free, p, bp)
  {
    InsertedOrdered(base, h, p, bp);
    var h1 := Inserted(h, p, bp);
    FreedUp(base, h, p, bp);
    var h2 := if Touch(h1, bp) then Joined(h1, bp) else h1;
    FreedDown(base, h, p, bp);
    if Touch(h2, p) then Joined(h2, p) else h2
  }

  /** After joining upwards only p may still touch its neighbour, and that is bp. */
  lemma FreedUp(base: int, h: Heap, p: int, bp: int)
    requires Sound(base, h) && bp in h.live && base < bp && Below(h.free, p, bp)
    ensures p in h.ptr
    ensures var h1 := Inserted(h, p, bp);
            bp in h1.ptr && h1.ptr[bp] in h1.ptr && bp in h1.size && h1.ptr[bp] in h1.size &&
            var h2 := if Touch(h1, bp) then Joined(h1, bp) else h1;
            Ordered(base, h2, {p}) && p in h2.free && bp in h2.free && p in h2.ptr && h2.ptr[p] == bp && h2.freep == p
  {
    InsertedOrdered(base, h, p, bp);
    var h1 := Inserted(h, p, bp);
    assert NextOk(base, h1.free, h1.ptr, bp) && NextOk(base, h1.free, h1.ptr, p);
    assert NextOk(base, h1.free, h1.ptr, h1.ptr[bp]);
    assert h1.ptr[bp] == base || Covers(h1.size, h1.blk, h1.ptr[bp]);
    assert Covers(h1.size, h1.blk, bp);
    if Touch(h1, bp) {
      assert {p} + {bp} == {p, bp};
      JoinedOrdered(base, h1, bp, {p});
    }
  }

  lemma FreedDown(base: int, h: Heap, p: int, bp: int)
    requires Sound(base, h) && bp in h.live && base < bp && Below(h.free, p, bp)
    requires p in h.ptr && var h1 := Inserted(h, p, bp);
             bp in h1.ptr && h1.ptr[bp] in h1.ptr && bp in h1.size && h1.ptr[bp] in h1.size
    ensures var h1 := Inserted(h, p, bp);
            var h2 := if Touch(h1, bp) then Joined(h1, bp) else h1;
            p in h2.ptr && p in h2.size && h2.ptr[p] in h2.ptr && h2.ptr[p] in h2.size &&
            Sound(base, if Touch(h2, p) then Joined(h2, p) else h2)
  {
    FreedUp(base, h, p, bp);
    var h1 := Inserted(h, p, bp);
    var h2 := if Touch(h1, bp) then Joined(h1, bp) else h1;
    assert NextOk(base, h2.free, h2.ptr, p) && NextOk(base, h2.free, h2.ptr, bp);
    assert p == base || Covers(h2.size, h2.blk, p);
    assert Covers(h2.size, h2.blk, bp);
    if Touch(h2, p) {
      assert {} + {p} == {p};
      JoinedOrdered(base, h2, p, {});
    }
  }

  /** `free` moves units between blocks: the units, and the other live blocks, stay. */
  lemma FreedKeeps(base: int, h: Heap, p: int, bp: int)
    requires Sound(base, h) && bp in h.live && base < bp && Below(h.free, p, bp)
    ensures var h' := Freed(base, h, p, bp);
            && Sound(base, h') && h'.blk.Keys == h.blk.Keys && h'.live == h.live - {bp}
            && (forall b :: b in h'.live ==> b in h.size && b in h'.size && h'.size[b] == h.size[b])
            && bp in h.size && (exists g :: g in h'.free && g in h'.size && h'.size[g] >= h.size[bp])
  {
    InsertedOrdered(base, h, p, bp);
    FreedUp(base, h, p, bp);
    FreedDown(base, h, p, bp);
    var h1 := Inserted(h, p, bp);
    var h2 := if Touch(h1, bp) then Joined(h1, bp) else h1;
    var h3 := Freed(base, h, p, bp);
    assert Covers(h.size, h.blk, bp);
    forall b | b in h3.live ensures b in h.size { assert Covers(h.size, h.blk, b); }
    assert NextOk(base, h1.free, h1.ptr, bp);
    if Touch(h1, bp) { assert Covers(h1.size, h1.blk, h1.ptr[bp]); }
    assert h2.size[bp] >= h.size[bp];
    var g := if Touch(h2, p) then p else bp;
    if Touch(h2, p) { assert p == base || Covers(h2.size, h2.blk, p); }
    assert g in h3.free && h3.size[g] >= h.size[bp];
  }

  /** Heap h' has the links and sizes that the code of `free` leaves, its two joins written out. */
  ghost predicate Spliced(h: Heap, h': Heap, p: int, bp: int) {
    && p in h.ptr && bp in h.size && p in h.size && h.ptr[p] in h.ptr && h.ptr[p] in h.size
    && var nxt := h.ptr[p];
       var up := bp + h.size[bp] == nxt;
       var ptr1 := h.ptr[bp := if up then h.ptr[nxt] else nxt];
       var size1 := if up then h.size[bp := h.size[bp] + h.size[nxt]] else h.size;
       var down := p + size1[p] == bp;
       && h'.freep == p && h'.brk == h.brk && h'.got == h.got && h'.top == h.top
       && h'.ptr == ptr1[p := if down then ptr1[bp] else bp]
       && h'.size == (if down then size1[p := size1[p] + size1[bp]] else size1)
  }

  lemma FreedPointers(base: int, h: Heap, p: int, bp: int)
    requires Sound(base, h) && bp in h.live && base < bp && Below(h.free, p, bp)
    ensures Spliced(h, Freed(base, h, p, bp), p, bp)
  {
    InsertedOrdered(base, h, p, bp);
    FreedUp(base, h, p, bp);
    FreedDown(base, h, p, bp);
    assert NextOk(base, h.free, h.ptr, p) && NextOk(base, h.free, h.ptr, h.ptr[p]);
    assert Covers(h.size, h.blk, bp) && (p == base || Covers(h.size, h.blk, p));
    var nxt := h.ptr[p];
    assert nxt == base || Covers(h.size, h.blk, nxt);
    var h1 := Inserted(h, p, bp);
    var h2 := if Touch(h1, bp) then Joined(h1, bp) else h1;
    var h3 := Freed(base, h, p, bp);
    assert Touch(h1, bp) <==> bp + h.size[bp] == nxt;
    assert Touch(h2, p) <==> p + h.size[p] == bp;
    var ptr1 := h.ptr[bp := if Touch(h1, bp) then h.ptr[nxt] else nxt];
    assert h2.ptr == ptr1[p := bp];
  }

  // ---- malloc, in elementary steps ----

  /** A free block p, after prev on the list, is handed out whole. */
  function Taken(h: Heap, prev: int, p: int): Heap
    requires p in h.ptr
  {
    h.(freep := prev, ptr := h.ptr[prev := h.ptr[p]], free := h.free - {p}, live := h.live + {p})
  }

  ghost predicate OnList(base: int, h: Heap, prev: int, p: int) {
    prev in h.free && prev in h.ptr && h.ptr[prev] == p && p in h.free && p != base && p in h.size && p in h.ptr
  }

  lemma TakenSound(base: int, h: Heap, prev: int, p: int)
    requires Sound(base, h) && OnList(base, h, prev, p)
    ensures Sound(base, Taken(h, prev, p))
  {
    assert NextOk(base, h.free, h.ptr, prev) && NextOk(base, h.free, h.ptr, p);
    JoinedLinked(base, h.free, h.ptr, prev);
    TakenUnits(base, h.free, h.live, h.size, h.blk, p);
    FreeBlocksApart(base, h, prev, p);
    var h' := Taken(h, prev, p);
    forall a | a in h'.free ensures !Touch(h', a) { if a != prev { assert !Touch(h, a); } }
  }

  lemma TakenUnits(base: int, free: set<int>, live: set<int>, size: map<int, int>, blk: map<int, int>, p: int)
    requires Units(base, free, live, size, blk) && p in free && p != base
    ensures Units(base, free - {p}, live + {p}, size, blk)
  {
    var free', live' := free - {p}, live + {p};
    forall u | u in blk ensures InBlock(base, free', live', size, blk, u) {
      assert InBlock(base, free, live, size, blk, u);
    }
  }

  /** The last n units of free block p are handed out. */
  ghost function Carved(h: Heap, prev: int, p: int, n: int): Heap
    requires p in h.size
  {
    var q := p + (h.size[p] - n);
    h.(freep := prev, size := h.size[p := h.size[p] - n][q := n], live := h.live + {q},
       blk := map u | u in h.blk :: if q <= u < q + n then q else h.blk[u])
  }

  lemma CarvedUnits(base: int, h: Heap, p: int, n: int)
    requires Units(base, h.free, h.live, h.size, h.blk) && p in h.free && p != base && p in h.size && 0 < n < h.size[p]
    ensures var q := p + (h.size[p] - n); q !in h.free && q !in h.live && q != base
    ensures var h' := Carved(h, h.freep, p, n); Units(base, h'.free, h'.live, h'.size, h'.blk)
  {
    var q := p + (h.size[p] - n);
    var h' := Carved(h, h.freep, p, n);
    assert Covers(h.size, h.blk, p);
    assert q in h.blk && h.blk[q] == p && InBlock(base, h.free, h.live, h.size, h.blk, q);
    assert !Covers(h.size, h.blk, q);
    forall b | Block(base, h'.free, h'.live, b) ensures Covers(h'.size, h'.blk, b) {
      if b != q { assert Covers(h.size, h.blk, b); }
    }
    forall u | u in h'.blk ensures InBlock(base, h'.free, h'.live, h'.size, h'.blk, u) {
      assert InBlock(base, h.free, h.live, h.size, h.blk, u);
    }
  }

  lemma CarvedSound(base: int, h: Heap, prev: int, p: int, n: int)
    requires Sound(base, h) && OnList(base, h, prev, p) && 0 < n < h.size[p]
    ensures Sound(base, Carved(h, prev, p, n))
    ensures var q := p + (h.size[p] - n); q !in h.live && q > p
  {
    CarvedUnits(base, h, p, n);
    var h' := Carved(h, prev, p, n);
    assert NextOk(base, h.free, h.ptr, p);
    var c := h.ptr[p];
    if c > p { FreeBlocksApart(base, h, p, c); }
    forall a | a in h'.free ensures !Touch(h', a) { if a != p { assert !Touch(h, a); } }
  }

  // ---- sbrk and morecore ----

  /** The argument of `sbrk` as the int that the kernel sees. */
  function AsInt(nu: nat): int {
    var n := (nu * UNIT) % TWO32;
    if n < TWO31 then n else n - TWO32
  }

  /** What `sbrk` does. Refused: -1, and nothing has changed. Emptied: -1 too, but `growproc` has freed every page
      first. Now(brk): the old end, and the process now ends at brk. */
  datatype Grown = Refused | Emptied | Now(brk: int)

  /** `sbrk` and `growproc`; `room` says whether `allocuvm` finds the pages. A negative argument shrinks the process;
      one past its start wraps and changes nothing; one just to its start frees it all and is then taken for a
      failure. */
  function Sbrk(brk: int, nu: nat, room: bool): Grown {
    var n := AsInt(nu);
    if n > 0 then (if brk * UNIT + n >= TWO31 || !room then Refused else Now(brk + n / UNIT))
    else if n == 0 || brk * UNIT + n < 0 then Now(brk)
    else if brk * UNIT + n == 0 then Emptied
    else Now(brk + n / UNIT)
  }

  /** `sbrk` gives what was asked for if and only if the byte count is below 2^31. */
  lemma SbrkGivesIff(brk: int, nu: nat, room: bool)
    requires 0 < nu <= 0x2000_0000 && 0 < brk && brk * UNIT < TWO31 && Sbrk(brk, nu, room).Now?
    ensures nu * UNIT < TWO31 ==> Sbrk(brk, nu, room).brk == brk + nu && (brk + nu) * UNIT < TWO31
    ensures nu * UNIT >= TWO31 ==> Sbrk(brk, nu, room).brk <= brk
  {
  }

  /** What `morecore` asks for, and what it gets. */
  function Ask(nunits: nat): nat { if nunits < 4096 then 4096 else nunits }
  function Asked(brk: int, nunits: nat, room: bool): Grown { Sbrk(brk, Ask(nunits), room) }

  /** A request of 2^31 bytes or more is never refused; it empties the process if and only if, as an int, it cancels
      the size of the process. */
  lemma BigEmptiesIff(brk: int, nunits: nat, room: bool)
    requires nunits * UNIT >= TWO31 && nunits <= 0x2000_0000 && 0 < brk && brk * UNIT < TWO31
    ensures !Asked(brk, nunits, room).Refused?
    ensures Asked(brk, nunits, room).Emptied? <==> brk * UNIT + AsInt(nunits) == 0
  {
    if nunits < 0x2000_0000 { assert AsInt(nunits) == nunits * UNIT - TWO32; }
  }

  /** A smaller request is refused if and only if it would bring the process to 2^31 bytes or there are no pages for
      it; else the process grows by what was asked for. */
  lemma RefusedIff(brk: int, nunits: nat, room: bool)
    requires 0 < nunits <= 0x2000_0000 && 0 < brk && brk * UNIT < TWO31
    ensures Asked(brk, nunits, room).Refused? <==>
              nunits * UNIT < TWO31 && (!room || (brk + nunits) * UNIT >= TWO31 || (brk + 4096) * UNIT >= TWO31)
    ensures nunits * UNIT < TWO31 && !Asked(brk, nunits, room).Refused? ==>
              Asked(brk, nunits, room) == Now(brk + if nunits < 4096 then 4096 else nunits)
  {
    if nunits * UNIT < TWO31 {
      assert AsInt(Ask(nunits)) == Ask(nunits) * UNIT;
    } else {
      BigEmptiesIff(brk, nunits, room);
    }
  }

  /** Unit u is mapped when the process ends at brk: pages are mapped whole. */
  predicate Mapped(brk: int, u: int) { u * UNIT < (brk * UNIT + 4095) / 4096 * 4096 }

  /** The process does not live through `morecore`: its memory, code and all, is gone, or the page that the new
      header goes to, at the old end, is not there. */
  predicate Dies(brk: int, nunits: nat, room: bool) {
    var g := Asked(brk, nunits, room);
    g.Emptied? || (g.Now? && !Mapped(g.brk, brk))
  }

  /** A request of 2^31 bytes or more, in units: `less` is what it takes away. */
  lemma AskedBig(brk: int, nunits: nat, room: bool, less: int)
    requires nunits * UNIT >= TWO31 && nunits <= 0x2000_0000 && 0 < brk && less == 0x2000_0000 - nunits
    ensures Asked(brk, nunits, room) ==
            if less == 0 || less > brk then Now(brk) else if less == brk then Emptied else Now(brk - less)
  {
    if less > 0 { assert AsInt(nunits) == -less * UNIT; }
  }

  /** A page is 512 units. */
  lemma MappedIff(brk: int, less: int)
    requires 0 <= less < brk
    ensures Mapped(brk - less, brk) <==> less < brk % 512
  {
    var q, r := brk / 512, brk % 512;
    assert brk == q * 512 + r;
    var e := brk - less;
    assert e * UNIT + 4095 == (e + 511) * 8 + 7;
    assert (e * UNIT + 4095) / 4096 == (e + 511) / 512;
  }

  /** The process dies exactly of a request of 2^31 bytes or more that finds its end at a page boundary, or takes it
      below one. */
  lemma DiesIff(brk: int, nunits: nat, room: bool)
    requires 0 < nunits <= 0x2000_0000 && 0 < brk && brk * UNIT < TWO31
    ensures var less := 0x2000_0000 - nunits;
            Dies(brk, nunits, room) <==> nunits * UNIT >= TWO31 && (brk % 512 == 0 || brk % 512 <= less <= brk)
  {
    var less := 0x2000_0000 - nunits;
    if nunits * UNIT >= TWO31 {
      AskedBig(brk, nunits, room, less);
      MappedIff(brk, if less < brk then less else 0);
    }
  }

  /** The units of `sbrk`'s memory when the process, after h, ends at brk. */
  ghost function Left(h: Heap, brk: int): set<int> { set u | u in h.got + Interval(h.brk, brk) && u < brk }

  /** The block `morecore` makes at the old end, before it frees it. */
  ghost function Extended(h: Heap, nu: int, brk: int): Heap {
    var hp := h.brk;
    h.(size := h.size[hp := nu], live := h.live + {hp}, brk := brk, top := brk,
       blk := map u | u in h.blk.Keys + Interval(hp, hp + nu) :: if hp <= u < hp + nu then hp else h.blk[u],
       got := Left(h, brk))
  }

  lemma ExtendedUnits(base: int, h: Heap, nu: int, brk: int)
    requires Inv(base, h) && nu > 0
    ensures h.brk !in h.free && h.brk !in h.live
    ensures var h' := Extended(h, nu, brk); Units(base, h'.free, h'.live, h'.size, h'.blk)
  {
    var h', hp := Extended(h, nu, brk), h.brk;
    forall b | Block(base, h.free, h.live, b) ensures b < hp && b in h.size && b + h.size[b] <= hp {
      assert Covers(h.size, h.blk, b);
      assert b in h.blk && b + h.size[b] - 1 in h.blk;
    }
    assert !Block(base, h.free, h.live, hp);
    forall b | Block(base, h'.free, h'.live, b) ensures Covers(h'.size, h'.blk, b) {
      if b != hp { assert Block(base, h.free, h.live, b) && Covers(h.size, h.blk, b); }
    }
    forall u | u in h'.blk ensures InBlock(base, h'.free, h'.live, h'.size, h'.blk, u) {
      if u in h.blk && u < hp { assert InBlock(base, h.free, h.live, h.size, h.blk, u); }
    }
  }

  lemma ExtendedSound(base: int, h: Heap, nu: int, brk: int)
    requires Inv(base, h) && nu > 0
    ensures Sound(base, Extended(h, nu, brk)) && h.brk !in h.live
  {
    ExtendedUnits(base, h, nu, brk);
    var h' := Extended(h, nu, brk);
    forall a | a in h'.free ensures !Touch(h', a) { assert !Touch(h, a); }
  }

  lemma ExtendedHonestIff(base: int, h: Heap, nu: nat, brk: int, room: bool)
    requires Inv(base, h) && 0 < nu <= 0x2000_0000 && Sbrk(h.brk, nu, room) == Now(brk)
    ensures Honest(base, Extended(h, nu, brk)) <==> nu * UNIT < TWO31
  {
    SbrkGivesIff(h.brk, nu, room);
    var h' := Extended(h, nu, brk);
    if nu * UNIT < TWO31 {
      assert h'.blk.Keys == h'.got;
    } else {
      assert h.brk in h'.blk && h.brk !in h'.got;
    }
  }

  // ---- the code ----

  /** Units for nbytes and a header, in 32-bit arithmetic. */
  function UnitsFor(nbytes: nat): nat { ((nbytes + UNIT - 1) % TWO32) / UNIT + 1 }

  /** A block of that many units has room for nbytes if and only if the rounding does not overflow. */
  lemma RoomForIff(nbytes: nat)
    requires nbytes < TWO32
    ensures (UnitsFor(nbytes) - 1) * UNIT >= nbytes <==> nbytes <= TWO32 - UNIT
    ensures UnitsFor(nbytes) * UNIT < TWO31 <==> nbytes <= TWO31 - 2 * UNIT || nbytes > TWO32 - UNIT
    ensures 0 < UnitsFor(nbytes) <= 0x2000_0000
  {
  }

  /** The largest request gets a block of one unit: a header and no bytes. */
  lemma OverflowExample()
    ensures UnitsFor(0xFFFF_FFFF) == 1
  {
  }

  ghost predicate SameLive(h: Heap, h': Heap) {
    forall b :: b in h.live ==> b in h'.live && b in h.size && b in h'.size && h'.size[b] == h.size[b]
  }

  /** Some free block has the units. */
  ghost predicate Fits(h: Heap, nunits: nat) { exists b :: b in h.free && b in h.size && h.size[b] >= nunits }

  /** No block in an honest heap reaches 2^31 bytes. */
  lemma BlocksAreSmall(base: int, h: Heap, b: int)
    requires Inv(base, h) && b in h.free
    ensures b in h.size && h.size[b] * UNIT < TWO31
  {
    if b != base {
      assert Covers(h.size, h.blk, b);
      assert b in h.blk && b + h.size[b] - 1 in h.blk;
    }
  }

  /** Nothing is left. */
  ghost predicate Gone(h: Heap) { h.top == 0 && h.got == {} && h.ptr == map[] && h.size == map[] }

  /** Between turns of `malloc`'s loop: nothing has changed, or the heap has grown and a block g that is large
      enough is still ahead. */
  ghost predicate Searching(base: int, h: Heap, h': Heap, prevp: int, p: int, grown: bool, g: int, nunits: nat,
                            room: bool) {
    && Sound(base, h') && h'.live == h.live && SameLive(h, h')
    && prevp in h'.free && prevp in h'.ptr && p == h'.ptr[prevp] && p in h'.free
    && (!grown ==>
          h' == h &&
          forall b :: b in h.free && b in h.size && h.size[b] >= nunits ==> b in Ahead(h.free, p, h.freep))
    && (grown ==> g in Ahead(h'.free, p, h'.freep) && g in h'.size && h'.size[g] >= nunits)
    && (grown ==> (Honest(base, h') <==> nunits * UNIT < TWO31))
    && (grown ==> !Fits(h, nunits) && !Dies(h.brk, nunits, room) && Asked(h.brk, nunits, room) == Now(h'.brk))
    && (grown ==> h'.top == h'.brk && h'.got == Left(h, h'.brk))
  }

  /** When the search comes round to where it began, no block fits. */
  lemma NoneFits(base: int, h: Heap, p: int, nunits: nat)
    requires Sound(base, h) && p == h.freep && p in h.size && h.size[p] < nunits
    requires forall b :: b in h.free && b in h.size && h.size[b] >= nunits ==> b in Ahead(h.free, p, h.freep)
    ensures !Fits(h, nunits)
  {
  }

  /** No block is large enough for a request of 2^31 bytes or more. */
  lemma BigNeverFits(base: int, h: Heap, nunits: nat)
    requires Inv(base, h) && nunits * UNIT >= TWO31
    ensures !Fits(h, nunits)
  {
    forall b | b in h.free ensures b in h.size && h.size[b] < nunits { BlocksAreSmall(base, h, b); }
  }

  /** A block of n units, nobody's before, has become live; r is the address after its header. */
  ghost predicate Took(base: int, h: Heap, h': Heap, n: nat, r: int) {
    && Sound(base, h') && r - 1 !in h.live && h'.live == h.live + {r - 1} && SameLive(h, h') && base < r
    && r - 1 in h'.size && h'.size[r - 1] == n && h'.blk.Keys == h.blk.Keys && h'.brk == h.brk && h'.got == h.got
    && h'.top == h.top
  }

  /** What `malloc` does to an honest heap. The process dies of it exactly when no block fits and `morecore` cannot be
      lived through. Otherwise it fails exactly when no block fits and `sbrk` refuses, else r is a new live block of
      the units. And the heap is honest after it exactly on requests below 2^31 bytes. */
  ghost predicate Outcome(base: int, h: Heap, h': Heap, nunits: nat, room: bool, r: int, killed: bool) {
    && (killed <==> !Fits(h, nunits) && Dies(h.brk, nunits, room))
    && (Inv(base, h') <==> nunits * UNIT < TWO31)
    && (if killed then r == 0 && Gone(h') else Served(base, h, h', nunits, room, r))
  }

  ghost predicate Served(base: int, h: Heap, h': Heap, nunits: nat, room: bool, r: int) {
    && Sound(base, h') && SameLive(h, h')
    && (r == 0 <==> !Fits(h, nunits) && Asked(h.brk, nunits, room).Refused?)
    && (if r == 0 then h'.live == h.live
        else r - 1 !in h.live && h'.live == h.live + {r - 1} && r - 1 in h'.size && h'.size[r - 1] == nunits)
    && h'.top == h'.brk
    && (if Fits(h, nunits) || r == 0 then h'.brk == h.brk && h'.got == h.got
        else Asked(h.brk, nunits, room) == Now(h'.brk) && h'.got == Left(h, h'.brk))
  }

  lemma LiveHaveSizes(base: int, h: Heap)
    requires Sound(base, h)
    ensures SameLive(h, h)
  {
    forall b | b in h.live ensures b in h.size { assert Covers(h.size, h.blk, b); }
  }

  lemma SearchBegins(base: int, h: Heap, nunits: nat, room: bool)
    requires Inv(base, h)
    ensures h.freep in h.ptr && Searching(base, h, h, h.freep, h.ptr[h.freep], false, base, nunits, room) == true
  {
    AheadAll(base, h.free, h.ptr, h.freep);
    LiveHaveSizes(base, h);
  }

  lemma SearchFails(base: int, h: Heap, nunits: nat, room: bool)
    requires Inv(base, h) && 0 < nunits <= 0x2000_0000 && !Fits(h, nunits) && Asked(h.brk, nunits, room).Refused?
    ensures Outcome(base, h, h, nunits, room, 0, false) == true
  {
    LiveHaveSizes(base, h);
    if nunits * UNIT >= TWO31 { BigEmptiesIff(h.brk, nunits, room); }
  }

  lemma SearchDies(base: int, h: Heap, h': Heap, nunits: nat, room: bool)
    requires Inv(base, h) && 0 < nunits <= 0x2000_0000 && !Fits(h, nunits) && Dies(h.brk, nunits, room) && Gone(h')
    ensures Outcome(base, h, h', nunits, room, 0, true) == true
  {
    DiesIff(h.brk, nunits, room);
  }

  lemma SearchTakes(base: int, h: Heap, h1: Heap, h': Heap, prevp: int, p: int, grown: bool, g: int, nunits: nat,
                    room: bool, r: int)
    requires Inv(base, h) && 0 < nunits <= 0x2000_0000
    requires Searching(base, h, h1, prevp, p, grown, g, nunits, room) && p in h1.size && h1.size[p] >= nunits
    requires Took(base, h1, h', nunits, r)
    ensures Outcome(base, h, h', nunits, room, r, false) == true
  {
    if nunits * UNIT >= TWO31 { BigNeverFits(base, h, nunits); }
  }

  class Allocator {
    const base: int
    var freep: int
    var ptr: map<int, int>
    var size: map<int, int>
    var brk: int
    ghost var free: set<int>
    ghost var live: set<int>
    ghost var blk: map<int, int>
    ghost var got: set<int>
    ghost var top: int

    ghost function St(): Heap
      reads this
    {
      Heap(freep, ptr, size, brk, free, live, blk, got, top)
    }

    /** `free`, given the header: the block joins its free neighbours, other blocks stay. */
    method Free(bp: int)
      requires Sound(base, St()) && bp in live && base < bp
      modifies this
      ensures Sound(base, St()) && live == old(live) - {bp} && blk.Keys == old(blk).Keys
      ensures brk == old(brk) && got == old(got) && top == old(top)
      ensures forall b :: b in live ==> b in old(size) && b in size && size[b] == old(size)[b]
      ensures bp in old(size) && exists g :: g in free && g in size && size[g] >= old(size)[bp]
    {
      ghost var h := St();
      ghost var q := BelowExists(free, bp);
      var p := freep;
      StopIsBelow(base, free, ptr, p, bp);
      while !(p < bp < ptr[p])
        invariant p in free && p in ptr && St() == h
        invariant Below(free, p, bp) <==> (p < bp < ptr[p]) || (p >= ptr[p] && (bp > p || bp < ptr[p]))
        decreases Ahead(free, p, q)
      {
        if p >= ptr[p] && (bp > p || bp < ptr[p]) { break; }
        AheadShrinks(base, free, ptr, p, q);
        StopIsBelow(base, free, ptr, ptr[p], bp);
        p := ptr[p];
      }
      FreedKeeps(base, h, p, bp);
      FreedPointers(base, h, p, bp);
      Splice(p, bp, Freed(base, h, p, bp));
    }

    /** The pointer work of `free`. */
    method Splice(p: int, bp: int, ghost h': Heap)
      requires Spliced(St(), h', p, bp)
      modifies this
      ensures St() == h'
    {
      JoinUp(p, bp);
      JoinDown(p, bp);
      freep := p;
      free, live, blk := h'.free, h'.live, h'.blk;
    }

    method JoinUp(p: int, bp: int)
      requires p in ptr && bp in size && ptr[p] in ptr && ptr[p] in size
      modifies this`ptr, this`size
      ensures var up := bp + old(size)[bp] == old(ptr)[p];
              && ptr == old(ptr)[bp := if up then old(ptr)[old(ptr)[p]] else old(ptr)[p]]
              && size == if up then old(size)[bp := old(size)[bp] + old(size)[old(ptr)[p]]] else old(size)
    {
      if bp + size[bp] == ptr[p] {
        size := size[bp := size[bp] + size[ptr[p]]];
        ptr := ptr[bp := ptr[ptr[p]]];
      } else {
        ptr := ptr[bp := ptr[p]];
      }
    }

    method JoinDown(p: int, bp: int)
      requires p in size && bp in size && bp in ptr
      modifies this`ptr, this`size
      ensures var down := p + old(size)[p] == bp;
              && ptr == old(ptr)[p := if down then old(ptr)[bp] else bp]
              && size == if down then old(size)[p := old(size)[p] + old(size)[bp]] else old(size)
    {
      if p + size[p] == bp {
        size := size[p := size[p] + size[bp]];
        ptr := ptr[p := ptr[bp]];
      } else {
        ptr := ptr[p := bp];
      }
    }

    /** `morecore`: if `sbrk` does not refuse and the process lives, some free block has the units afterwards, and
        they are really there if and only if their byte count fits an int. */
    method Morecore(nunits: nat, room: bool) returns (r: int, killed: bool)
      requires Inv(base, St()) && 0 < nunits <= 0x2000_0000
      modifies this
      ensures killed <==> Dies(old(brk), nunits, room)
      ensures killed ==> r == 0 && Gone(St())
      ensures !killed ==> (r == 0 <==> Asked(old(brk), nunits, room).Refused?)
      ensures !killed && r == 0 ==> St() == old(St())
      ensures r != 0 ==> Asked(old(brk), nunits, room) == Now(brk) && top == brk && got == Left(old(St()), brk)
      ensures r != 0 ==> r == freep && Sound(base, St()) && live == old(live) && SameLive(old(St()), St())
      ensures r != 0 ==> exists g :: g in free && g in size && size[g] >= nunits
      ensures r != 0 ==> (Honest(base, St()) <==> nunits * UNIT < TWO31)
    {
      var nu := Ask(nunits);
      var s := Sbrk(brk, nu, room);
      if s.Refused? { return 0, false; }
      if s.Emptied? || !Mapped(s.brk, brk) {
        ptr, size, got, top := map[], map[], {}, 0;
        return 0, true;
      }
      r := AddCore(nu, s.brk, room);
      killed := false;
    }

    /** The rest of it: the new block's header, and `free`. */
    method AddCore(nu: nat, end: int, room: bool) returns (r: int)
      requires Inv(base, St()) && 0 < nu <= 0x2000_0000 && Sbrk(brk, nu, room) == Now(end)
      modifies this
      ensures brk == top == end && got == Left(old(St()), end)
      ensures r != 0 && r == freep && Sound(base, St()) && live == old(live) && SameLive(old(St()), St())
      ensures exists g :: g in free && g in size && size[g] >= nu
      ensures Honest(base, St()) <==> nu * UNIT < TWO31
    {
      ghost var h := St();
      SbrkGivesIff(brk, nu, room);
      ExtendedSound(base, h, nu, end);
      ExtendedHonestIff(base, h, nu, end, room);
      ghost var h' := Extended(h, nu, end);
      forall b | b in live ensures b in size && b != brk { assert Covers(size, blk, b); }
      var hp := brk;
      size := size[hp := nu];
      brk := end;
      live, blk, got, top := h'.live, h'.blk, h'.got, h'.top;
      Free(hp);
      r := freep;
    }

    /** The end of `malloc`: hand out p, or its last n units. */
    method Take(prevp: int, p: int, n: nat) returns (r: int)
      requires Sound(base, St()) && OnList(base, St(), prevp, p) && 0 < n <= size[p]
      modifies this
      ensures Took(base, old(St()), St(), n, r) == true && freep == prevp
    {
      ghost var h := St();
      forall b | b in live ensures b in size { assert Covers(size, blk, b); }
      if size[p] == n {
        TakenSound(base, h, prevp, p);
        ptr := ptr[prevp := ptr[p]];
        free, live := free - {p}, live + {p};
        freep := prevp;
        return p + 1;
      }
      CarvedSound(base, h, prevp, p, n);
      ghost var h' := Carved(h, prevp, p, n);
      size := size[p := size[p] - n];
      var q := p + size[p];
      size := size[q := n];
      live, blk := h'.live, h'.blk;
      freep := prevp;
      r := q + 1;
    }

    /** Before the first call there is no list. */
    ghost predicate Fresh()
      reads this
    {
      freep == 0 && free == {} && live == {} && blk == map[] && got == {} && 0 < base < brk == top &&
      brk * UNIT < TWO31
    }

    constructor (base: int, brk: int)
      requires 0 < base < brk && brk * UNIT < TWO31
      ensures this.base == base && this.brk == brk && Fresh()
    {
      this.base, this.brk, freep, ptr, size := base, brk, 0, map[], map[];
      free, live, blk, got, top := {}, {}, map[], {}, brk;
    }

    method Start()
      requires Fresh()
      modifies this
      ensures Inv(base, St()) && live == {} && brk == old(brk) && got == {}
      ensures free == {base} && base in size && size[base] == 0
    {
      ptr, size, freep := ptr[base := base], size[base := 0], base;
      free := {base};
      assert NextOk(base, free, ptr, base);
    }

    /** `malloc`: the address after the header of a new live block of exactly the units computed for nbytes, or 0
        exactly when no free block has them and `sbrk` refuses. The search ends, after one `morecore` at most. All
        other live blocks stay. But the process may die of it (see DiesIff), and the heap stays honest if and only if
        the units' byte count is below 2^31. */
    method Malloc(nbytes: nat, room: bool) returns (r: int, killed: bool)
      requires (Fresh() || Inv(base, St())) && nbytes < TWO32
      modifies this
      ensures killed <==> !Fits(old(St()), UnitsFor(nbytes)) && Dies(old(brk), UnitsFor(nbytes), room)
      ensures killed ==> r == 0 && Gone(St())
      ensures !killed ==> Served(base, old(St()), St(), UnitsFor(nbytes), room, r) == true
      ensures Inv(base, St()) <==> UnitsFor(nbytes) * UNIT < TWO31
      ensures !killed ==>
                (r == 0 <==> !Fits(old(St()), UnitsFor(nbytes)) && UnitsFor(nbytes) * UNIT < TWO31 &&
                             (!room || (old(brk) + UnitsFor(nbytes)) * UNIT >= TWO31 ||
                              (old(brk) + 4096) * UNIT >= TWO31))
    {
      var nunits := ((nbytes + UNIT - 1) % TWO32) / UNIT + 1;
      RoomForIff(nbytes);
      RefusedIff(brk, UnitsFor(nbytes), room);
      if freep == 0 { Start(); }
      r, killed := Search(nunits, room);
    }

    /** The loop of `malloc`. */
    method Search(nunits: nat, room: bool) returns (r: int, killed: bool)
      requires Inv(base, St()) && 0 < nunits <= 0x2000_0000
      modifies this
      ensures Outcome(base, old(St()), St(), nunits, room, r, killed) == true
    {
      ghost var h := St();
      SearchBegins(base, h, nunits, room);
      var prevp := freep;
      var p := ptr[prevp];
      ghost var grown, g := false, base;
      killed := false;
      while true
        invariant Searching(base, h, St(), prevp, p, grown, g, nunits, room) == true && !killed
        decreases if grown then 0 else 1, Ahead(free, p, freep)
      {
        assert NextOk(base, free, ptr, p) && (p == base || Covers(size, blk, p));
        if size[p] >= nunits {
          ghost var h1 := St();
          r := Take(prevp, p, nunits);
          SearchTakes(base, h, h1, St(), prevp, p, grown, g, nunits, room, r);
          return;
        }
        if p == freep {
          if !grown { NoneFits(base, h, p, nunits); }
          p, killed := Morecore(nunits, room);
          if killed {
            SearchDies(base, h, St(), nunits, room);
            return 0, true;
          }
          if p == 0 {
            SearchFails(base, h, nunits, room);
            return 0, false;
          }
          g :| g in free && g in size && size[g] >= nunits;
          grown := true;
          AheadAll(base, free, ptr, freep);
        } else {
          AheadShrinks(base, free, ptr, p, freep);
        }
        prevp := p;
        p := ptr[p];
      }
    }
  }

  /** A run that makes up memory: after a request of 40000 bytes the process ends inside a page; a request of 2^31
      bytes then gets a block of 2^28 + 1 units that `sbrk` never gave. Its header lies in the mapped rest of that
      page, so writing it does not fault. */
  method MadeUpMemory() returns (a: Allocator, r: int)
    ensures fresh(a) && Sound(a.base, a.St()) && !Inv(a.base, a.St())
    ensures r != 0 && r - 1 in a.live && r - 1 in a.size && a.size[r - 1] == 0x1000_0001
  {
    ExampleNumbers();
    a := new Allocator(1, 1024);
    var killed;
    r, killed := a.Malloc(40000, true);
    r, killed := a.Malloc(0x8000_0000, true);
  }

  /** Two that end the process: a request that cancels its size, and one of 2^31 bytes at a page boundary. */
  method LostMemory() returns (a: Allocator, r: int, killed: bool, ghost before: Heap)
    ensures fresh(a) && Inv(a.base, before) && r - 1 in before.live && killed && Gone(a.St())
  {
    ExampleNumbers();
    a := new Allocator(1, 1024);
    r, killed := a.Malloc(40000, true);
    before := a.St();
    BigNeverFits(1, before, 536864887);
    var r2;
    r2, killed := a.Malloc(4294919088, true);
  }

  method FaultsAtHeader() returns (a: Allocator, killed: bool)
    ensures fresh(a) && killed && Gone(a.St())
  {
    ExampleNumbers();
    a := new Allocator(1, 1024);
    var r;
    r, killed := a.Malloc(0x8000_0000, true);
  }

  lemma ExampleNumbers()
    ensures UnitsFor(40000) == 5001 && Asked(1024, 5001, true) == Now(6025) && !Dies(1024, 5001, true)
    ensures UnitsFor(0x8000_0000) == 0x1000_0001 && Asked(6025, 0x1000_0001, true) == Now(6025)
    ensures !Dies(6025, 0x1000_0001, true) && Dies(1024, 0x1000_0001, true)
    ensures UnitsFor(4294919088) == 536864887 && Asked(6025, 536864887, true) == Emptied
  {
  }
}
