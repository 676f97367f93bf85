/** What the block layer of fs.c keeps: which blocks are in use, who owns them, what a file holds.
    Blocks are their 512 bytes; the free map is its bytes and their bits; addresses inside an indirect block are its
    little-endian words.
    `P == true` in a contract is P kept as one proof obligation; without it Dafny asks for P conjunct by conjunct. */
module FsSpec {

  const BSIZE: nat := 512
  const BPB: nat := 4096
  const NDIRECT: nat := 12
  const NINDIRECT: nat := 128
  const MAXFILE: nat := 140
  /** Address slots of an inode: 12 direct, the indirect block, 128 entries of the indirect block. */
  const NSLOTS: nat := 141
  const IPB: nat := 8
  const U32: int := 0x1_0000_0000

  /** Layout facts of the superblock; `datastart` is the first block after the free map. */
  datatype Super = Super(size: nat, inodestart: nat, bmapstart: nat, datastart: nat)

  datatype Inode = Inode(size: nat, addrs: seq<int>)

  /** Position of an address: slot k of inode i. */
  datatype Slot = Slot(i: int, k: int)

  function IBlock(sb: Super, i: nat): nat { i / IPB + sb.inodestart }

  function BBlock(sb: Super, b: nat): nat { b / BPB + sb.bmapstart }

  // ---- little-endian words ----

  function Word(blk: seq<int>, j: int): int {
    if |blk| == BSIZE && 0 <= j < NINDIRECT
    then blk[4 * j] + 256 * blk[4 * j + 1] + 65536 * blk[4 * j + 2] + 16777216 * blk[4 * j + 3]
    else 0
  }

  function SetWord(blk: seq<int>, j: nat, w: nat): (r: seq<int>)
    requires |blk| == BSIZE && j < NINDIRECT
    ensures |r| == BSIZE
  {
    blk[4 * j := w % 256][4 * j + 1 := w / 256 % 256][4 * j + 2 := w / 65536 % 256][4 * j + 3 := w / 16777216]
  }

  lemma WordRoundTrip(blk: seq<int>, j: nat, w: nat, i: nat)
    requires |blk| == BSIZE && j < NINDIRECT && i < NINDIRECT
    ensures Word(SetWord(blk, j, w), i) == if i == j then w else Word(blk, i)
  {
    var r := SetWord(blk, j, w);
    if i == j {
      assert r[4 * j] == w % 256 && r[4 * j + 1] == w / 256 % 256;
      assert r[4 * j + 2] == w / 65536 % 256 && r[4 * j + 3] == w / 16777216;
      BytesOfWord(w);
    } else {
      assert r[4 * i] == blk[4 * i] && r[4 * i + 1] == blk[4 * i + 1];
      assert r[4 * i + 2] == blk[4 * i + 2] && r[4 * i + 3] == blk[4 * i + 3];
    }
  }

  lemma BytesOfWord(w: nat)
    ensures w % 256 + 256 * (w / 256 % 256) + 65536 * (w / 65536 % 256) + 16777216 * (w / 16777216) == w
  {
    var a := w / 256;
    assert a / 256 == w / 65536 && a / 65536 == w / 16777216;
  }

  function Zeros(): (r: seq<int>)
    ensures |r| == BSIZE && forall i :: 0 <= i < BSIZE ==> r[i] == 0
  {
    seq(BSIZE, i => 0)
  }

  // ---- free map ----

  /** A byte of the free map, as the set of positions of its one bits: `x & (1 << k)` is `k in x`. */
  type Bits = set<int>

  predicate MapOk(sb: Super, bm: seq<seq<Bits>>) {
    && |bm| * BPB >= sb.size
    && forall m :: 0 <= m < |bm| ==> |bm[m]| == BSIZE
  }

  /** The bit of block b. */
  predicate Used(bm: seq<seq<Bits>>, b: int) {
    0 <= b && b / BPB < |bm| && b % BPB / 8 < |bm[b / BPB]| && b % 8 in bm[b / BPB][b % BPB / 8]
  }

  function SetBit(bm: seq<seq<Bits>>, b: nat): seq<seq<Bits>>
    requires b / BPB < |bm| && |bm[b / BPB]| == BSIZE
  {
    var blk, y := bm[b / BPB], b % BPB / 8;
    bm[b / BPB := blk[y := blk[y] + {b % 8}]]
  }

  function ClearBit(bm: seq<seq<Bits>>, b: nat): seq<seq<Bits>>
    requires b / BPB < |bm| && |bm[b / BPB]| == BSIZE
  {
    var blk, y := bm[b / BPB], b % BPB / 8;
    bm[b / BPB := blk[y := blk[y] - {b % 8}]]
  }

  /** Marking a block changes its own bit and no other; so does freeing it. */
  lemma MarkBit(sb: Super, bm: seq<seq<Bits>>, b: nat, c: int)
    requires MapOk(sb, bm) && b < sb.size
    ensures MapOk(sb, SetBit(bm, b))
    ensures Used(SetBit(bm, b), c) <==> c == b || Used(bm, c)
  {
    SameBit(b, c);
  }

  lemma FreeBit(sb: Super, bm: seq<seq<Bits>>, b: nat, c: int)
    requires MapOk(sb, bm) && b < sb.size
    ensures MapOk(sb, ClearBit(bm, b))
    ensures Used(ClearBit(bm, b), c) <==> c != b && Used(bm, c)
  {
    SameBit(b, c);
  }

  lemma SameBit(b: nat, c: int)
    ensures 0 <= c && c / BPB == b / BPB && c % BPB / 8 == b % BPB / 8 && c % 8 == b % 8 <==> c == b
  {
  }

  /** The free ones among the first n blocks. */
  ghost function FreeSet(bm: seq<seq<Bits>>, n: nat): set<int> { set c | 0 <= c < n && !Used(bm, c) }

  ghost function FreeCount(bm: seq<seq<Bits>>, n: nat): nat { |FreeSet(bm, n)| }

  lemma FreeNone(bm: seq<seq<Bits>>, n: nat)
    requires forall c :: 0 <= c < n ==> Used(bm, c)
    ensures FreeCount(bm, n) == 0
  {
    assert FreeSet(bm, n) == {};
  }

  /** Taking a free block leaves one less. */
  lemma FreeTaken(sb: Super, bm: seq<seq<Bits>>, b: nat)
    requires MapOk(sb, bm) && b < sb.size && !Used(bm, b)
    ensures FreeCount(SetBit(bm, b), sb.size) == FreeCount(bm, sb.size) - 1
  {
    forall c ensures c in FreeSet(SetBit(bm, b), sb.size) <==> c in FreeSet(bm, sb.size) && c != b {
      MarkBit(sb, bm, b, c);
    }
    assert FreeSet(SetBit(bm, b), sb.size) == FreeSet(bm, sb.size) - {b};
  }

  // ---- addresses and contents ----

  /** The block number held in slot k; entries of an absent indirect block read as 0. */
  function SlotAddr(store: seq<seq<int>>, ino: Inode, k: int): int {
    if |ino.addrs| != NDIRECT + 1 || k < 0 then 0
    else if k <= NDIRECT then ino.addrs[k]
    else if 0 < ino.addrs[NDIRECT] < |store| then Word(store[ino.addrs[NDIRECT]], k - NDIRECT - 1)
    else 0
  }

  /** The slot of the n-th block of a file. */
  function FileSlot(n: int): int {
    if n < NDIRECT then n else n + 1
  }

  /** Byte p of a file; an unmapped block reads as zeros. */
  function ByteAt(store: seq<seq<int>>, ino: Inode, p: int): int {
    var a := SlotAddr(store, ino, FileSlot(p / BSIZE));
    if 0 < a < |store| && 0 <= p && p % BSIZE < |store[a]| then store[a][p % BSIZE] else 0
  }

  /** The byte string a file stands for. */
  function Contents(store: seq<seq<int>>, ino: Inode): (r: seq<int>)
    ensures |r| == ino.size && forall p :: 0 <= p < ino.size ==> r[p] == ByteAt(store, ino, p)
  {
    seq(ino.size, p => ByteAt(store, ino, p))
  }

  // ---- ownership ----

  /** Free map, block contents and inodes, with the inverse of the address slots. */
  datatype FsState = FsState(bm: seq<seq<Bits>>, store: seq<seq<int>>, inodes: seq<Inode>, owner: map<int, Slot>)

  /** The address in slot k of inode i. */
  function Addr(s: FsState, i: int, k: int): int {
    if 0 <= i < |s.inodes| then SlotAddr(s.store, s.inodes[i], k) else 0
  }

  ghost predicate Shape(sb: Super, s: FsState) {
    && MapOk(sb, s.bm) && |s.store| == sb.size && 0 < sb.datastart <= sb.size < U32
    && (forall b :: 0 <= b < sb.size ==> |s.store[b]| == BSIZE)
    && (forall i :: 0 <= i < |s.inodes| ==> |s.inodes[i].addrs| == NDIRECT + 1 && s.inodes[i].size <= MAXFILE * BSIZE)
  }

  /** `owner` inverts the address slots: every used data block has exactly one slot, and every address
      is a used data block that knows its slot. */
  ghost predicate Owned(sb: Super, s: FsState) {
    && (forall a :: a in s.owner ==>
          && sb.datastart <= a < sb.size && Used(s.bm, a)
          && 0 <= s.owner[a].i < |s.inodes| && 0 <= s.owner[a].k < NSLOTS
          && Addr(s, s.owner[a].i, s.owner[a].k) == a)
    && (forall i, k :: 0 <= k < NSLOTS && Addr(s, i, k) != 0 ==>
          Addr(s, i, k) in s.owner && s.owner[Addr(s, i, k)] == Slot(i, k))
    && (forall a :: sb.datastart <= a < sb.size && Used(s.bm, a) ==> a in s.owner)
    && (forall a :: 0 <= a < sb.datastart ==> Used(s.bm, a))
  }

  ghost predicate FsInv(sb: Super, s: FsState) {
    Shape(sb, s) && Owned(sb, s)
  }

  /** Ownership in words: an address in use occurs in one place only, is marked used, and lies in the
      data area; and a used data block occurs somewhere. */
  lemma OwnedExactlyOnce(sb: Super, s: FsState, i: nat, k: nat, j: nat, m: nat, a: int)
    requires FsInv(sb, s) && k < NSLOTS && m < NSLOTS
    ensures Addr(s, i, k) == Addr(s, j, m) != 0 ==> i == j && k == m
    ensures Addr(s, i, k) != 0 ==> Used(s.bm, Addr(s, i, k)) && sb.datastart <= Addr(s, i, k) < sb.size
    ensures sb.datastart <= a < sb.size && Used(s.bm, a) ==>
              exists i', k' :: 0 <= k' < NSLOTS && Addr(s, i', k') == a
  {
  }

  /** Byte p of file i. */
  function FileByte(s: FsState, i: int, p: int): int {
    if 0 <= i < |s.inodes| then ByteAt(s.store, s.inodes[i], p) else 0
  }

  /** No file changes its bytes or its size. */
  ghost predicate SameFiles(s: FsState, t: FsState) {
    && |s.inodes| == |t.inodes|
    && (forall i :: 0 <= i < |s.inodes| ==> s.inodes[i].size == t.inodes[i].size)
    && forall i, p :: FileByte(s, i, p) == FileByte(t, i, p)
  }

  /** Only slot (i, k) changes; it becomes a. */
  ghost predicate OneNewAddr(s: FsState, t: FsState, i: int, k: int, a: int) {
    forall j, m :: Addr(t, j, m) == if j == i && m == k then a else Addr(s, j, m)
  }

  // ---- bmap: a free block goes into an empty slot ----

  /** After balloc and storing the number in the inode (a direct slot or the indirect slot itself). */
  function WithInodeSlot(s: FsState, i: int, k: int, a: int): FsState
    requires 0 <= i < |s.inodes| && |s.inodes[i].addrs| == NDIRECT + 1 && 0 <= k <= NDIRECT
    requires 0 <= a < |s.store| && a / BPB < |s.bm| && |s.bm[a / BPB]| == BSIZE
  {
    FsState(SetBit(s.bm, a), s.store[a := Zeros()],
            s.inodes[i := s.inodes[i].(addrs := s.inodes[i].addrs[k := a])], s.owner[a := Slot(i, k)])
  }

  /** After balloc and storing the number in the indirect block. */
  function WithEntry(s: FsState, i: int, k: int, a: int): FsState
    requires 0 <= i < |s.inodes| && |s.inodes[i].addrs| == NDIRECT + 1 && NDIRECT < k < NSLOTS
    requires 0 <= a < |s.store| && a / BPB < |s.bm| && |s.bm[a / BPB]| == BSIZE
    requires 0 <= s.inodes[i].addrs[NDIRECT] < |s.store| && |s.store[s.inodes[i].addrs[NDIRECT]]| == BSIZE
  {
    var x := s.inodes[i].addrs[NDIRECT];
    FsState(SetBit(s.bm, a), s.store[a := Zeros()][x := SetWord(s.store[x], k - NDIRECT - 1, a)],
            s.inodes, s.owner[a := Slot(i, k)])
  }

  lemma InodeSlotAddr(sb: Super, s: FsState, i: nat, k: nat, a: nat, j: int, m: int)
    requires FsInv(sb, s) && i < |s.inodes| && k <= NDIRECT && Addr(s, i, k) == 0
    requires a < sb.size && !Used(s.bm, a)
    ensures Addr(WithInodeSlot(s, i, k, a), j, m) == if j == i && m == k then a else Addr(s, j, m)
  {
    if 0 <= j < |s.inodes| && m > NDIRECT {
      assert Addr(s, j, NDIRECT) == s.inodes[j].addrs[NDIRECT];
    }
  }

  lemma EntryAddr(sb: Super, s: FsState, i: nat, k: nat, a: nat, j: int, m: int)
    requires FsInv(sb, s) && i < |s.inodes| && NDIRECT < k < NSLOTS && Addr(s, i, k) == 0
    requires Addr(s, i, NDIRECT) != 0 && a < sb.size && !Used(s.bm, a)
    ensures Addr(WithEntry(s, i, k, a), j, m) == if j == i && m == k then a else Addr(s, j, m)
  {
    var x := s.inodes[i].addrs[NDIRECT];
    assert Addr(s, i, NDIRECT) == x;
    if 0 <= j < |s.inodes| && m > NDIRECT {
      assert Addr(s, j, NDIRECT) == s.inodes[j].addrs[NDIRECT];
      if 0 <= m - NDIRECT - 1 < NINDIRECT {
        WordRoundTrip(s.store[x], k - NDIRECT - 1, a, m - NDIRECT - 1);
      }
    }
  }

  /** Allocation keeps ownership exact. */
  lemma AllocKeepsOwned(sb: Super, s: FsState, t: FsState, i: nat, k: nat, a: nat)
    requires FsInv(sb, s) && i < |s.inodes| == |t.inodes| && k < NSLOTS && Addr(s, i, k) == 0
    requires a < sb.size && !Used(s.bm, a)
    requires t.bm == SetBit(s.bm, a) && t.owner == s.owner[a := Slot(i, k)] && OneNewAddr(s, t, i, k, a)
    ensures Owned(sb, t) && MapOk(sb, t.bm)
  {
    MarkBit(sb, s.bm, a, a);
    forall c
      ensures Used(t.bm, c) <==> c == a || Used(s.bm, c)
    {
      MarkBit(sb, s.bm, a, c);
    }
  }

  /** A zeroed block in an empty slot changes no file's bytes. */
  lemma AllocKeepsByte(sb: Super, s: FsState, t: FsState, i: nat, k: nat, a: nat, j: int, p: int)
    requires FsInv(sb, s) && i < |s.inodes| == |t.inodes| && k < NSLOTS && Addr(s, i, k) == 0
    requires a < sb.size && !Used(s.bm, a) && OneNewAddr(s, t, i, k, a)
    requires |t.store| == |s.store| && t.store[a] == Zeros()
    requires forall b :: b in s.owner && s.owner[b].k != NDIRECT ==> t.store[b] == s.store[b]
    ensures FileByte(s, j, p) == FileByte(t, j, p)
  {
    if 0 <= j < |s.inodes| && 0 <= p {
      var m := FileSlot(p / BSIZE);
      var b := Addr(s, j, m);
      assert Addr(t, j, m) == if j == i && m == k then a else b;
      if m >= NSLOTS {
        assert b == 0;
      }
    }
  }

  lemma InodeSlotKeeps(sb: Super, s: FsState, i: nat, k: nat, a: nat)
    requires FsInv(sb, s) && i < |s.inodes| && k <= NDIRECT && Addr(s, i, k) == 0
    requires a < sb.size && !Used(s.bm, a)
    ensures FsInv(sb, WithInodeSlot(s, i, k, a)) && OneNewAddr(s, WithInodeSlot(s, i, k, a), i, k, a)
    ensures SameFiles(s, WithInodeSlot(s, i, k, a))
  {
    var t := WithInodeSlot(s, i, k, a);
    forall j, m
      ensures Addr(t, j, m) == if j == i && m == k then a else Addr(s, j, m)
    {
      InodeSlotAddr(sb, s, i, k, a, j, m);
    }
    AllocKeepsOwned(sb, s, t, i, k, a);
    forall j, p
      ensures FileByte(s, j, p) == FileByte(t, j, p)
    {
      AllocKeepsByte(sb, s, t, i, k, a, j, p);
    }
  }

  lemma EntryKeeps(sb: Super, s: FsState, i: nat, k: nat, a: nat)
    requires FsInv(sb, s) && i < |s.inodes| && NDIRECT < k < NSLOTS && Addr(s, i, k) == 0
    requires Addr(s, i, NDIRECT) != 0 && a < sb.size && !Used(s.bm, a)
    ensures FsInv(sb, WithEntry(s, i, k, a)) && OneNewAddr(s, WithEntry(s, i, k, a), i, k, a)
    ensures SameFiles(s, WithEntry(s, i, k, a))
  {
    var t := WithEntry(s, i, k, a);
    forall j, m
      ensures Addr(t, j, m) == if j == i && m == k then a else Addr(s, j, m)
    {
      EntryAddr(sb, s, i, k, a, j, m);
    }
    AllocKeepsOwned(sb, s, t, i, k, a);
    forall b | b in s.owner && s.owner[b].k != NDIRECT
      ensures t.store[b] == s.store[b]
    {
      assert Addr(s, i, NDIRECT) != b;
    }
    forall j, p
      ensures FileByte(s, j, p) == FileByte(t, j, p)
    {
      AllocKeepsByte(sb, s, t, i, k, a, j, p);
    }
  }

  // ---- writei: new bytes in a mapped block ----

  function WithBlock(s: FsState, a: int, blk: seq<int>): FsState
    requires 0 <= a < |s.store|
  {
    s.(store := s.store[a := blk])
  }

  lemma WithBlockAt(sb: Super, s: FsState, i: nat, n: nat, blk: seq<int>, j: int, m: int, p: int)
    requires FsInv(sb, s) && i < |s.inodes| && n < MAXFILE && Addr(s, i, FileSlot(n)) != 0 && |blk| == BSIZE
    ensures var t := WithBlock(s, Addr(s, i, FileSlot(n)), blk);
            && Addr(t, j, m) == Addr(s, j, m)
            && FileByte(t, j, p) == if j == i && 0 <= p && p / BSIZE == n then blk[p % BSIZE] else FileByte(s, j, p)
  {
    var a := Addr(s, i, FileSlot(n));
    var t := WithBlock(s, a, blk);
    if 0 <= j < |s.inodes| {
      assert Addr(s, j, NDIRECT) == s.inodes[j].addrs[NDIRECT] != a;
      assert forall m' :: Addr(t, j, m') == Addr(s, j, m');
      if 0 <= p {
        var q := FileSlot(p / BSIZE);
        assert q < NSLOTS && Addr(s, j, q) == a ==> j == i && q == FileSlot(n);
        assert q >= NSLOTS ==> Addr(s, j, q) == 0;
      }
    }
  }

  /** Writing a block of file i replaces the bytes of that block and nothing else anywhere. */
  lemma WithBlockKeeps(sb: Super, s: FsState, i: nat, n: nat, blk: seq<int>)
    requires FsInv(sb, s) && i < |s.inodes| && n < MAXFILE && Addr(s, i, FileSlot(n)) != 0 && |blk| == BSIZE
    ensures var t := WithBlock(s, Addr(s, i, FileSlot(n)), blk);
            && FsInv(sb, t)
            && (forall j, m :: Addr(t, j, m) == Addr(s, j, m))
            && (forall j, p :: FileByte(t, j, p) ==
                  if j == i && 0 <= p && p / BSIZE == n then blk[p % BSIZE] else FileByte(s, j, p))
  {
    var t := WithBlock(s, Addr(s, i, FileSlot(n)), blk);
    forall j, m
      ensures Addr(t, j, m) == Addr(s, j, m)
    {
      WithBlockAt(sb, s, i, n, blk, j, m, 0);
    }
    forall j, p
      ensures FileByte(t, j, p) == if j == i && 0 <= p && p / BSIZE == n then blk[p % BSIZE] else FileByte(s, j, p)
    {
      WithBlockAt(sb, s, i, n, blk, j, 0, p);
    }
  }

  /** In file i, offsets off + lo to off + hi hold src[lo..hi]; every other byte of every file is as before. */
  ghost predicate Written(s: FsState, t: FsState, i: int, off: int, src: seq<int>, lo: int, hi: int)
    requires 0 <= lo <= hi <= |src|
  {
    forall j, p :: FileByte(t, j, p) == (if j == i && off + lo <= p < off + hi then src[p - off] else FileByte(s, j, p))
  }

  /** r is the byte string o with the first n bytes of src written at offset off. */
  ghost predicate Splices(r: seq<int>, o: seq<int>, off: nat, src: seq<int>, n: nat)
    requires n <= |src|
  {
    && (n == 0 || off <= |o|)
    && |r| == (if n > 0 && off + n > |o| then off + n else |o|)
    && forall p :: 0 <= p < |r| ==> r[p] == if off <= p < off + n then src[p - off] else o[p]
  }

  /** Splicing in the words of slices: old[..off] + src + old[off + n..]. */
  lemma SplicesIsConcat(r: seq<int>, o: seq<int>, off: nat, src: seq<int>)
    requires off <= |o|
    ensures Splices(r, o, off, src, |src|) <==>
              r == o[..off] + src + (if off + |src| <= |o| then o[off + |src|..] else [])
  {
  }

  /** Chunk after chunk is the same as all at once. */
  lemma SplicesStep(q: seq<int>, r: seq<int>, o: seq<int>, off: nat, src: seq<int>, done: nat, chunk: seq<int>)
    requires done + |chunk| <= |src| && chunk == src[done..done + |chunk|] && chunk != []
    requires Splices(r, o, off, src, done) && off + done <= |r| && Splices(q, r, off + done, chunk, |chunk|)
    ensures Splices(q, o, off, src, done + |chunk|)
  {
  }

  // ---- growth over several bmap calls ----

  /** Addresses only appear, and only in file i; sizes stay. */
  ghost predicate Extends(s: FsState, t: FsState, i: int) {
    && |s.inodes| == |t.inodes|
    && (forall j :: 0 <= j < |s.inodes| ==> s.inodes[j].size == t.inodes[j].size)
    && (forall j, m :: Addr(t, j, m) == Addr(s, j, m) || (Addr(s, j, m) == 0 && j == i))
  }

  /** Blocks touched by n bytes at offset off. */
  function Span(off: nat, n: nat): nat {
    if n == 0 then 0 else (off + n - 1) / BSIZE - off / BSIZE + 1
  }

  // ---- the loop of writei ----

  /** Position after tot of n bytes from offset off, which is in block b0: c blocks done, and unless all is, the next
      byte is the first of block b0 + c (or the one at off). */
  ghost predicate PosOk(off: nat, n: nat, tot: nat, b0: nat, c: nat) {
    && b0 * BSIZE <= off < (b0 + 1) * BSIZE && tot <= n && off + n <= MAXFILE * BSIZE
    && (tot == 0 ==> c == 0)
    && (tot > 0 ==> c > 0 && (b0 + c - 1) * BSIZE < off + tot <= (b0 + c) * BSIZE)
    && (0 < tot < n ==> off + tot == (b0 + c) * BSIZE)
  }

  /** In terms of division. */
  lemma PosBlock(off: nat, n: nat, tot: nat, b0: nat, c: nat)
    requires PosOk(off, n, tot, b0, c)
    ensures b0 == off / BSIZE && c == Span(off, tot) <= Span(off, n)
    ensures tot < n ==> (off + tot) / BSIZE == b0 + c < MAXFILE && c < Span(off, n)
    ensures tot < n && c > 0 ==> (off + tot) % BSIZE == 0
  {
  }

  /** Bytes the next iteration moves. */
  function ChunkSize(off: nat, tot: nat, n: nat): nat
    requires tot < n
  {
    var o := (off + tot) % BSIZE;
    if n - tot < BSIZE - o then n - tot else BSIZE - o
  }

  /** The next iteration moves the m bytes that are left or fit in block bn. */
  lemma PosNext(off: nat, n: nat, tot: nat, b0: nat, c: nat, bn: nat, m: nat)
    requires PosOk(off, n, tot, b0, c) && tot < n && bn == (off + tot) / BSIZE && m == ChunkSize(off, tot, n)
    ensures bn == b0 + c < MAXFILE && 0 < m && tot + m <= n && PosOk(off, n, tot + m, b0, c + 1)
    ensures InBlock(bn, off + tot, m)
  {
    PosBlock(off, n, tot, b0, c);
    assert off + tot == bn * BSIZE + (off + tot) % BSIZE;
  }

  /** m bytes from position `at` on are all in block bn. */
  predicate InBlock(bn: nat, at: nat, m: nat) { bn * BSIZE <= at < (bn + 1) * BSIZE && at + m <= (bn + 1) * BSIZE }

  lemma InBlockIs(bn: nat, at: nat, m: nat)
    requires InBlock(bn, at, m)
    ensures bn == at / BSIZE && at % BSIZE + m <= BSIZE
  {
  }

  /** One iteration: src[lo..hi] is now in block bn of file i. */
  ghost predicate ChunkDone(s: FsState, t: FsState, i: nat, bn: nat, off: nat, src: seq<int>, lo: nat, hi: nat)
    requires lo <= hi <= |src|
  {
    && Extends(s, t, i) && Written(s, t, i, off, src, lo, hi)
    && Addr(t, i, FileSlot(bn)) != 0
    && (if bn >= NDIRECT then Addr(t, i, NDIRECT) != 0 else Addr(t, i, NDIRECT) == Addr(s, i, NDIRECT))
    && (Addr(s, i, FileSlot(bn)) != 0 ==> t.inodes == s.inodes)
  }

  /** The c blocks of file i from the b-th on are mapped. */
  ghost predicate AllMapped(s: FsState, i: int, b: int, c: nat) {
    forall n :: b <= n < b + c ==> Addr(s, i, FileSlot(n)) != 0
  }

  /** After tot bytes, in c blocks from block b0 on. */
  ghost predicate Progress(s: FsState, t: FsState, i: nat, b0: nat, off: nat, src: seq<int>, tot: nat, c: nat)
    requires tot <= |src|
  {
    && Extends(s, t, i) && Written(s, t, i, off, src, 0, tot)
    && AllMapped(t, i, b0, c) && (AllMapped(s, i, b0, c) ==> t.inodes == s.inodes)
  }

  // ---- what a write logs ----

  /** The blocks one iteration may add to the log: its data block, a free-map block for each block it
      allocates, and the indirect block if it changes for the first time. */
  function ChunkCost(s: FsState, i: nat, bn: nat, indLogged: bool): nat {
    if Addr(s, i, FileSlot(bn)) != 0 then 1
    else if bn < NDIRECT then 2
    else (if Addr(s, i, NDIRECT) == 0 then 3 else 2) + (if indLogged then 0 else 1)
  }

  /** Does the iteration change the indirect block? */
  predicate LogsIndirect(s: FsState, i: nat, bn: nat) {
    bn >= NDIRECT && Addr(s, i, FileSlot(bn)) == 0
  }

  /** 1 when the indirect block was allocated between s and t. */
  function GainedIndirect(s: FsState, t: FsState, i: int): nat {
    if Addr(s, i, NDIRECT) == 0 && Addr(t, i, NDIRECT) != 0 then 1 else 0
  }

  /** 1 when there is a first block and it was mapped when the write began. */
  function FirstMapped(s: FsState, i: int, b0: int, c: nat): nat {
    if c > 0 && Addr(s, i, FileSlot(b0)) != 0 then 1 else 0
  }

  /** What c iterations may have added to the log: one data block each, a free-map block for each data block
      except a first one already mapped, and twice one more for the indirect block. */
  ghost predicate Costs(s: FsState, t: FsState, i: nat, b0: nat, c: nat, count: nat, indLogged: bool) {
    count + FirstMapped(s, i, b0, c) <= 2 * c + GainedIndirect(s, t, i) + (if indLogged then 1 else 0)
  }

  // ---- what a write takes from the free blocks ----

  /** What `bmap` must allocate for block bn: the block, and perhaps the indirect block. */
  function Lack(s: FsState, i: int, bn: int): nat {
    if Addr(s, i, FileSlot(bn)) != 0 then 0 else if bn >= NDIRECT && Addr(s, i, NDIRECT) == 0 then 2 else 1
  }

  /** The same once the blocks from b0 up to it are there: only the first of the indirect ones finds no indirect
      block. */
  function LackNext(s: FsState, i: int, b0: int, bn: int): nat {
    if Addr(s, i, FileSlot(bn)) != 0 then 0
    else if bn == (if b0 < NDIRECT then NDIRECT else b0) && Addr(s, i, NDIRECT) == 0 then 2
    else 1
  }

  predicate IsHole(s: FsState, i: int, n: int) { Addr(s, i, FileSlot(n)) == 0 }

  /** The unmapped ones among the c blocks from b0 on. */
  ghost function Holes(s: FsState, i: int, b0: int, c: nat): set<int> {
    set n | b0 <= n < b0 + c && IsHole(s, i, n)
  }

  /** What the c blocks from b0 on lack: one block for each that is unmapped, and one for the indirect block if it is
      absent and they reach it. */
  ghost function Lacks(s: FsState, i: int, b0: int, c: nat): nat {
    |Holes(s, i, b0, c)| + if c > 0 && b0 + c > NDIRECT && Addr(s, i, NDIRECT) == 0 then 1 else 0
  }

  lemma LacksNone(s: FsState, i: int, b0: int)
    ensures Lacks(s, i, b0, 0) == 0
  {
    assert Holes(s, i, b0, 0) == {};
  }

  /** Block by block: it is what `bmap` allocates for each, with the blocks before it mapped. */
  lemma LacksNext(s: FsState, i: int, b0: int, c: nat, n: int)
    requires n == b0 + c && 0 <= b0
    ensures Lacks(s, i, b0, c + 1) == Lacks(s, i, b0, c) + LackNext(s, i, b0, n)
  {
    assert Holes(s, i, b0, c + 1) == Holes(s, i, b0, c) + (if IsHole(s, i, n) then {n} else {});
    if n >= NDIRECT && Addr(s, i, NDIRECT) == 0 { NoEntries(s, i, n); }
  }

  lemma {:induction false} LacksGrow(s: FsState, i: int, b0: int, c: nat, c': nat)
    requires c <= c' && 0 <= b0
    ensures Lacks(s, i, b0, c) <= Lacks(s, i, b0, c')
  {
    if c < c' {
      LacksGrow(s, i, b0, c, c' - 1);
      LacksNext(s, i, b0, c' - 1, b0 + c' - 1);
    }
  }

  /** After s, the c blocks from b0 on have been mapped, later ones are as they were, and exactly what was lacking has
      been taken from the free blocks. */
  ghost predicate Spent(size: nat, s: FsState, t: FsState, i: int, b0: int, c: nat) {
    && FreeCount(s.bm, size) == FreeCount(t.bm, size) + Lacks(s, i, b0, c)
    && (forall n {:trigger Addr(t, i, FileSlot(n))} :: b0 + c <= n < MAXFILE ==>
          Addr(t, i, FileSlot(n)) == Addr(s, i, FileSlot(n)))
    && (Addr(t, i, NDIRECT) != 0 <==> Addr(s, i, NDIRECT) != 0 || (c > 0 && b0 + c > NDIRECT))
  }

  /** Block bn has been mapped, with what it needs and nothing else. */
  ghost predicate Took(size: nat, s: FsState, t: FsState, i: int, bn: int) {
    && FreeCount(s.bm, size) == FreeCount(t.bm, size) + Lack(s, i, bn)
    && (forall n {:trigger Addr(t, i, FileSlot(n))} :: 0 <= n && n != bn ==>
          Addr(t, i, FileSlot(n)) == Addr(s, i, FileSlot(n)))
    && (if bn >= NDIRECT then Addr(t, i, NDIRECT) != 0 else Addr(t, i, NDIRECT) == Addr(s, i, NDIRECT))
  }

  /** An absent indirect block has no entries. */
  lemma NoEntries(s: FsState, i: int, bn: int)
    requires bn >= NDIRECT && Addr(s, i, NDIRECT) == 0
    ensures Addr(s, i, FileSlot(bn)) == 0
  {
  }

  lemma LackIs(size: nat, s: FsState, t: FsState, i: int, b0: int, c: nat)
    requires Spent(size, s, t, i, b0, c) && 0 <= b0 && b0 + c < MAXFILE
    ensures Lack(t, i, b0 + c) == LackNext(s, i, b0, b0 + c)
  {
  }

  lemma SpentStep(size: nat, s: FsState, t: FsState, u: FsState, i: int, b0: int, c: nat, bn: int)
    requires Spent(size, s, t, i, b0, c) && 0 <= b0 && bn == b0 + c < MAXFILE && Took(size, t, u, i, bn)
    ensures Spent(size, s, u, i, b0, c + 1)
  {
    LackIs(size, s, t, i, b0, c);
    LacksNext(s, i, b0, c, bn);
  }

  lemma SpentSame(size: nat, s: FsState, t: FsState, u: FsState, i: int, b0: int, c: nat)
    requires Spent(size, s, t, i, b0, c) && u.bm == t.bm && forall m :: Addr(u, i, m) == Addr(t, i, m)
    ensures Spent(size, s, u, i, b0, c)
  {
  }

  lemma TookSame(size: nat, s: FsState, t: FsState, u: FsState, i: int, bn: int)
    requires Took(size, s, t, i, bn) && u.bm == t.bm && forall m :: Addr(u, i, m) == Addr(t, i, m)
    ensures Took(size, s, u, i, bn)
  {
  }

  /** A second write, from b1 on, goes on where the first, of the c blocks from b0 on, has ended: with the next block,
      or once more with the last one. */
  ghost predicate GoesOn(t: FsState, i: int, b0: int, c: nat, b1: int) {
    b1 == b0 + c || (c > 0 && b1 == b0 + c - 1 && Addr(t, i, FileSlot(b1)) != 0)
  }

  lemma {:induction false} LacksTogether(size: nat, s: FsState, t: FsState, i: int, b0: int, c: nat, b1: int, j: nat)
    requires Spent(size, s, t, i, b0, c) && GoesOn(t, i, b0, c, b1) && 0 <= b0 && b1 + j <= MAXFILE
    requires j > 0 || b1 == b0 + c
    ensures 0 <= b1 + j - b0 && Lacks(s, i, b0, c) + Lacks(t, i, b1, j) == Lacks(s, i, b0, b1 + j - b0)
  {
    if j == 0 {
      LacksNone(t, i, b1);
    } else {
      var n := b1 + j - 1;
      LacksNext(t, i, b1, j - 1, n);
      if j == 1 && b1 < b0 + c {
        LacksNone(t, i, b1);
      } else {
        LacksTogether(size, s, t, i, b0, c, b1, j - 1);
        assert Addr(t, i, FileSlot(n)) == Addr(s, i, FileSlot(n));
        assert LackNext(t, i, b1, n) == LackNext(s, i, b0, n);
        LacksNext(s, i, b0, n - b0, n);
      }
    }
  }

  lemma SpentTogether(size: nat, s: FsState, t: FsState, u: FsState, i: int, b0: int, c: nat, b1: int, j: nat)
    requires Spent(size, s, t, i, b0, c) && GoesOn(t, i, b0, c, b1) && 0 <= b0 && b1 + j <= MAXFILE && j > 0
    requires Spent(size, t, u, i, b1, j)
    ensures 0 <= b1 + j - b0 && Spent(size, s, u, i, b0, b1 + j - b0)
  {
    LacksTogether(size, s, t, i, b0, c, b1, j);
    forall n | b1 + j <= n < MAXFILE ensures Addr(u, i, FileSlot(n)) == Addr(s, i, FileSlot(n)) {
      assert Addr(u, i, FileSlot(n)) == Addr(t, i, FileSlot(n));
    }
  }

  // ---- the invariant of the loop ----

  /** How far a write has come: blocks done, and what was logged for them. */
  datatype WritePos = WritePos(c: nat, count: nat, indLogged: bool)

  /** The invariant of the loop in `writei`, begun in state s, after tot bytes. */
  ghost predicate WriteInv(s: FsState, t: FsState, i: nat, b0: nat, off: nat, src: seq<int>, tot: nat, w: WritePos)
  {
    && PosOk(off, |src|, tot, b0, w.c)
    && Progress(s, t, i, b0, off, src, tot, w.c) == true
    && Costs(s, t, i, b0, w.c, w.count, w.indLogged)
  }

  /** The position after an iteration for block bn, begun in state t. */
  function NextPos(t: FsState, i: nat, bn: nat, w: WritePos): WritePos {
    WritePos(w.c + 1, w.count + ChunkCost(t, i, bn, w.indLogged), w.indLogged || LogsIndirect(t, i, bn))
  }

  lemma WriteStart(size: nat, s: FsState, i: nat, b0: nat, off: nat, src: seq<int>)
    requires PosOk(off, |src|, 0, b0, 0)
    ensures WriteInv(s, s, i, b0, off, src, 0, WritePos(0, 0, false)) && Spent(size, s, s, i, b0, 0)
  {
    assert Progress(s, s, i, b0, off, src, 0, 0);
    LacksNone(s, i, b0);
  }

  lemma WriteInvStep(s: FsState, t: FsState, u: FsState, i: nat, b0: nat, off: nat, src: seq<int>, tot: nat,
                     w: WritePos, m: nat, bn: nat)
    requires WriteInv(s, t, i, b0, off, src, tot, w) == true && bn == b0 + w.c < MAXFILE
    requires tot + m <= |src| && PosOk(off, |src|, tot + m, b0, w.c + 1)
    requires ChunkDone(t, u, i, bn, off, src, tot, tot + m) == true
    ensures WriteInv(s, u, i, b0, off, src, tot + m, NextPos(t, i, bn, w)) == true
  {
  }

  // ---- sizes and whole files ----

  /** Only the size of file i changes. */
  function WithSize(s: FsState, i: int, size: nat): FsState
    requires 0 <= i < |s.inodes|
  {
    s.(inodes := s.inodes[i := s.inodes[i].(size := size)])
  }

  function GrownTo(s: FsState, i: int, size: nat): FsState
    requires 0 <= i < |s.inodes|
  {
    if size > s.inodes[i].size then WithSize(s, i, size) else s
  }

  lemma WithSizeKeeps(sb: Super, s: FsState, i: nat, size: nat)
    requires FsInv(sb, s) && i < |s.inodes| && size <= MAXFILE * BSIZE
    ensures FsInv(sb, WithSize(s, i, size))
    ensures forall j, m :: Addr(WithSize(s, i, size), j, m) == Addr(s, j, m)
    ensures forall j, p :: FileByte(WithSize(s, i, size), j, p) == FileByte(s, j, p)
  {
    var t := WithSize(s, i, size);
    forall j, m
      ensures Addr(t, j, m) == Addr(s, j, m)
    {
    }
    forall j, p
      ensures FileByte(t, j, p) == FileByte(s, j, p)
    {
      assert 0 <= j < |s.inodes| ==> Addr(t, j, FileSlot(p / BSIZE)) == Addr(s, j, FileSlot(p / BSIZE));
    }
  }

  /** Bytes written in place of old ones, and a size that covers them, make the spliced string. */
  lemma WrittenSplices(s: FsState, t: FsState, i: nat, off: nat, src: seq<int>)
    requires i < |s.inodes| == |t.inodes| && off <= s.inodes[i].size && Written(s, t, i, off, src, 0, |src|)
    requires t.inodes[i].size == if off + |src| > s.inodes[i].size then off + |src| else s.inodes[i].size
    ensures Splices(Contents(t.store, t.inodes[i]), Contents(s.store, s.inodes[i]), off, src, |src|)
  {
    var a, b := Contents(t.store, t.inodes[i]), Contents(s.store, s.inodes[i]);
    forall p | 0 <= p < |a|
      ensures a[p] == if off <= p < off + |src| then src[p - off] else b[p]
    {
      assert a[p] == FileByte(t, i, p);
      assert p < s.inodes[i].size ==> b[p] == FileByte(s, i, p);
    }
  }

  lemma WrittenElsewhere(s: FsState, t: FsState, i: nat, off: nat, src: seq<int>, j: nat)
    requires j < |s.inodes| == |t.inodes| && j != i && Written(s, t, i, off, src, 0, |src|)
    requires t.inodes[j].size == s.inodes[j].size
    ensures Contents(t.store, t.inodes[j]) == Contents(s.store, s.inodes[j])
  {
    forall p | 0 <= p < s.inodes[j].size
      ensures Contents(t.store, t.inodes[j])[p] == Contents(s.store, s.inodes[j])[p]
    {
      assert Contents(t.store, t.inodes[j])[p] == FileByte(t, j, p);
      assert Contents(s.store, s.inodes[j])[p] == FileByte(s, j, p);
    }
  }

  /** Every block below the size is mapped. */
  ghost predicate Dense(s: FsState, i: int) {
    0 <= i < |s.inodes| && forall n :: 0 <= n && n * BSIZE < s.inodes[i].size ==> Addr(s, i, FileSlot(n)) != 0
  }

  /** dst is the first bytes of the k at offset off, and no file has changed; nothing has without holes. */
  ghost predicate ReadSoFar(s0: FsState, s: FsState, i: int, off: nat, k: nat, dst: seq<int>) {
    && |dst| <= k && SameFiles(s0, s) && (Dense(s0, i) ==> s == s0)
    && (forall q :: 0 <= q < |dst| ==> dst[q] == FileByte(s0, i, off + q))
  }

  lemma ReadOn(s0: FsState, s1: FsState, s2: FsState, i: int, off: nat, k: nat, dst: seq<int>, at: nat, bytes: seq<int>)
    requires ReadSoFar(s0, s1, i, off, k, dst) && SameFiles(s1, s2) && (Dense(s0, i) ==> s2 == s1)
    requires |dst| + |bytes| <= k && at == off + |dst|
    requires forall q :: 0 <= q < |bytes| ==> bytes[q] == FileByte(s1, i, at + q)
    ensures ReadSoFar(s0, s2, i, off, k, dst + bytes) == true
  {
    forall q | 0 <= q < |dst + bytes| ensures (dst + bytes)[q] == FileByte(s0, i, off + q) {
      if q >= |dst| { assert bytes[q - |dst|] == FileByte(s1, i, at + (q - |dst|)); }
    }
  }

  /** A write that starts at or before the end leaves no hole, and in a file without holes it allocates only
      when it also grows the file. */
  lemma WriteKeepsDense(s: FsState, t: FsState, i: nat, off: nat, n: nat, c: nat)
    requires Dense(s, i) && off <= s.inodes[i].size && i < |t.inodes| && c == Span(off, n)
    requires Extends(s, t, i) && AllMapped(t, i, off / BSIZE, c)
    ensures Dense(t, i)
    ensures Dense(WithSize(t, i, if off + n > t.inodes[i].size then off + n else t.inodes[i].size), i)
    ensures off + n <= s.inodes[i].size ==> AllMapped(s, i, off / BSIZE, c)
    ensures n > 0 && off % BSIZE != 0 ==> FirstMapped(s, i, off / BSIZE, c) == 1
  {
  }

  /** The effect of a `writei`: src is spliced in, other files stay, no hole appears, and exactly the lacking blocks
      have been taken (b0 is the first block the write touches, `all` how many there are). */
  ghost predicate WriteDone(size: nat, s: FsState, u: FsState, i: nat, off: nat, src: seq<int>, b0: nat, all: nat) {
    && i < |u.inodes| == |s.inodes|
    && Splices(Contents(u.store, u.inodes[i]), Contents(s.store, s.inodes[i]), off, src, |src|)
    && (forall j :: 0 <= j < |u.inodes| && j != i ==>
          Contents(u.store, u.inodes[j]) == Contents(s.store, s.inodes[j]))
    && (Dense(s, i) ==> Dense(u, i))
    && Spent(size, s, u, i, b0, all)
  }

  /** From the loop invariant at the end of `writei`, through the size update, to the effect on every file. */
  lemma WriteFinished(size: nat, s: FsState, t: FsState, u: FsState, i: nat, off: nat, src: seq<int>, w: WritePos,
                      b0: nat, all: nat)
    requires i < |s.inodes| && off <= s.inodes[i].size
    requires WriteInv(s, t, i, b0, off, src, |src|, w) == true && i < |t.inodes| && Spent(size, s, t, i, b0, w.c)
    requires PosOk(off, |src|, |src|, b0, all)
    requires u == GrownTo(t, i, off + |src|)
    ensures WriteDone(size, s, u, i, off, src, b0, all)
    ensures Dense(s, i) && off + |src| <= s.inodes[i].size ==> t.inodes == s.inodes
    ensures w.count <= 2 * all + 2 - FirstMapped(s, i, b0, all)
  {
    assert w.c == all;
    assert forall j, p :: FileByte(u, j, p) == FileByte(t, j, p);
    assert Written(s, u, i, off, src, 0, |src|);
    WrittenSplices(s, u, i, off, src);
    forall j | 0 <= j < |u.inodes| && j != i
      ensures Contents(u.store, u.inodes[j]) == Contents(s.store, s.inodes[j])
    {
      WrittenElsewhere(s, u, i, off, src, j);
    }
    if Dense(s, i) { WriteStaysDense(s, t, i, off, |src|, b0, all); }
    SpentSame(size, s, t, u, i, b0, w.c);
  }

  lemma WriteStaysDense(s: FsState, t: FsState, i: nat, off: nat, n: nat, b0: nat, all: nat)
    requires Dense(s, i) && off <= s.inodes[i].size && i < |t.inodes| && PosOk(off, n, n, b0, all)
    requires Extends(s, t, i) && AllMapped(t, i, b0, all)
    ensures Dense(t, i)
    ensures Dense(WithSize(t, i, if off + n > t.inodes[i].size then off + n else t.inodes[i].size), i)
    ensures off + n <= s.inodes[i].size ==> AllMapped(s, i, b0, all)
  {
    PosBlock(off, n, n, b0, all);
    WriteKeepsDense(s, t, i, off, n, all);
  }

  lemma PosOf(off: nat, n: nat)
    requires off + n <= MAXFILE * BSIZE
    ensures PosOk(off, n, n, off / BSIZE, Span(off, n))
  {
  }

  // ---- itrunc ----

  /** Slot k of inode i has been freed and emptied. */
  function WithoutSlot(s: FsState, i: int, k: int): FsState
    requires 0 <= i < |s.inodes| && |s.inodes[i].addrs| == NDIRECT + 1 && 0 <= k <= NDIRECT
    requires var a := s.inodes[i].addrs[k]; 0 <= a && a / BPB < |s.bm| && |s.bm[a / BPB]| == BSIZE
  {
    var a := s.inodes[i].addrs[k];
    FsState(ClearBit(s.bm, a), s.store, s.inodes[i := s.inodes[i].(addrs := s.inodes[i].addrs[k := 0])], s.owner - {a})
  }

  lemma WithoutSlotKeeps(sb: Super, s: FsState, i: nat, k: nat)
    requires FsInv(sb, s) && i < |s.inodes| && k < NDIRECT && Addr(s, i, k) != 0
    ensures FsInv(sb, WithoutSlot(s, i, k))
    ensures OneNewAddr(s, WithoutSlot(s, i, k), i, k, 0)
  {
    var a := s.inodes[i].addrs[k];
    assert a == Addr(s, i, k);
    var t := WithoutSlot(s, i, k);
    FreeBit(sb, s.bm, a, a);
    forall c
      ensures Used(t.bm, c) <==> c != a && Used(s.bm, c)
    {
      FreeBit(sb, s.bm, a, c);
    }
    forall j, m
      ensures Addr(t, j, m) == if j == i && m == k then 0 else Addr(s, j, m)
    {
    }
  }

  /** Block c is an entry of the indirect block of i among the first j, or the indirect block when `all`. */
  predicate FreedSoFar(s: FsState, i: int, j: int, all: bool, c: int) {
    c in s.owner && s.owner[c].i == i && (NDIRECT < s.owner[c].k <= NDIRECT + j || (all && s.owner[c].k == NDIRECT))
  }

  /** The free map while the entries of an indirect block are being freed. */
  ghost predicate FreeingMap(sb: Super, s: FsState, bm: seq<seq<Bits>>, i: int, j: int, all: bool) {
    MapOk(sb, bm) && forall c :: Used(bm, c) <==> Used(s.bm, c) && !FreedSoFar(s, i, j, all, c)
  }

  lemma FreeingStep(sb: Super, s: FsState, bm: seq<seq<Bits>>, i: nat, j: nat, a: int)
    requires FsInv(sb, s) && i < |s.inodes| && j < NINDIRECT && FreeingMap(sb, s, bm, i, j, false)
    requires a == Addr(s, i, NDIRECT + 1 + j)
    ensures a != 0 ==> 0 <= a < sb.size && Used(bm, a) && FreeingMap(sb, s, ClearBit(bm, a), i, j + 1, false)
    ensures a == 0 ==> FreeingMap(sb, s, bm, i, j + 1, false)
  {
    if a != 0 {
      FreeBit(sb, bm, a, a);
      forall c
        ensures Used(ClearBit(bm, a), c) <==> Used(s.bm, c) && !FreedSoFar(s, i, j + 1, false, c)
      {
        FreeBit(sb, bm, a, c);
      }
    } else {
      forall c
        ensures FreedSoFar(s, i, j + 1, false, c) <==> FreedSoFar(s, i, j, false, c)
      {
      }
    }
  }

  /** The indirect block and all its entries are gone. */
  function WithoutIndirect(s: FsState, bm: seq<seq<Bits>>, i: int): FsState
    requires 0 <= i < |s.inodes| && |s.inodes[i].addrs| == NDIRECT + 1
  {
    FsState(bm, s.store, s.inodes[i := s.inodes[i].(addrs := s.inodes[i].addrs[NDIRECT := 0])],
            map a | a in s.owner && !FreedSoFar(s, i, NINDIRECT, true, a) :: s.owner[a])
  }

  lemma WithoutIndirectKeeps(sb: Super, s: FsState, bm: seq<seq<Bits>>, i: nat)
    requires FsInv(sb, s) && i < |s.inodes| && FreeingMap(sb, s, bm, i, NINDIRECT, true)
    ensures FsInv(sb, WithoutIndirect(s, bm, i))
    ensures forall j, m :: Addr(WithoutIndirect(s, bm, i), j, m) == if j == i && m >= NDIRECT then 0 else Addr(s, j, m)
  {
    var t := WithoutIndirect(s, bm, i);
    forall j, m
      ensures Addr(t, j, m) == if j == i && m >= NDIRECT then 0 else Addr(s, j, m)
    {
    }
  }

  /** File j keeps its bytes when its addresses and the blocks behind them stay. */
  lemma SameAddrSameBytes(s: FsState, t: FsState, j: int, p: int)
    requires |s.inodes| == |t.inodes| && s.store == t.store && forall m :: Addr(t, j, m) == Addr(s, j, m)
    ensures FileByte(t, j, p) == FileByte(s, j, p)
  {
    assert Addr(t, j, FileSlot(p / BSIZE)) == Addr(s, j, FileSlot(p / BSIZE));
  }
}
