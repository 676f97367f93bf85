/** The block layer of fs.c as mutable state: free map, blocks, inodes, and the log entries of the current
    operation. A false first result is a panic: the machine stops and nothing is promised about the
    half-done update.
    `P == true` in a contract is P kept as one proof obligation; without it Dafny asks for P conjunct by conjunct. */
module FsCode {
  import opened FsSpec
  import opened FsImage
  import LogSpec

  /** The largest chunk `filewrite` hands to one `writei`. */
  const MAXWRITE: nat := (LogSpec.MAXOPBLOCKS - 1 - 1 - 2) / 2 * 512

  /** Addresses appear only in the slots block bn of file i needs, no file's bytes change, blocks gained were free. */
  ghost predicate Grew(s: FsState, t: FsState, i: nat, bn: nat) {
    && SameFiles(s, t) && Extends(s, t, i)
    && (forall m :: Addr(t, i, m) != Addr(s, i, m) ==> m == FileSlot(bn) || (m == NDIRECT && bn >= NDIRECT))
    && (forall a :: a in s.owner ==> a in t.owner && t.owner[a] == s.owner[a])
    && (forall a :: a in t.owner && a !in s.owner ==> !Used(s.bm, a))
  }

  /** One allocation: slot k of inode i now holds a, which was free. */
  ghost predicate SlotFilled(s: FsState, t: FsState, i: nat, k: nat, a: int) {
    && OneNewAddr(s, t, i, k, a) && SameFiles(s, t)
    && a !in s.owner && t.owner == s.owner[a := Slot(i, k)] && !Used(s.bm, a)
  }

  lemma GrewOne(s: FsState, t: FsState, i: nat, bn: nat, k: nat, a: int)
    requires SlotFilled(s, t, i, k, a) && Addr(s, i, k) == 0
    requires k == FileSlot(bn) || (k == NDIRECT && bn >= NDIRECT)
    ensures Grew(s, t, i, bn)
  {
  }

  lemma GrewTook(size: nat, s: FsState, t: FsState, i: nat, bn: nat)
    requires Grew(s, t, i, bn) && Addr(t, i, FileSlot(bn)) != 0
    requires FreeCount(s.bm, size) == FreeCount(t.bm, size) + Lack(s, i, bn)
    ensures Took(size, s, t, i, bn)
  {
    if bn >= NDIRECT && Addr(t, i, NDIRECT) == 0 { NoEntries(t, i, bn); }
  }

  lemma GrewTwice(sb: Super, s: FsState, t: FsState, u: FsState, i: nat, bn: nat, x: int, a: int)
    requires NDIRECT <= bn && FsInv(sb, s) == true
    requires SlotFilled(s, t, i, NDIRECT, x) && Addr(s, i, NDIRECT) == 0
    requires SlotFilled(t, u, i, bn + 1, a) && Addr(t, i, bn + 1) == 0 && Addr(s, i, bn + 1) == 0
    requires sb.datastart <= a < sb.size
    ensures Grew(s, u, i, bn)
  {
  }

  /** The next block cannot be had: the write lacks more than there is. */
  lemma OutOfBlocks(size: nat, s: FsState, t: FsState, i: nat, b0: nat, c: nat, bn: nat, all: nat)
    requires Spent(size, s, t, i, b0, c) && bn == b0 + c < MAXFILE && c < all
    requires FreeCount(t.bm, size) < Lack(t, i, bn)
    ensures FreeCount(s.bm, size) < Lacks(s, i, b0, all)
  {
    LackIs(size, s, t, i, b0, c);
    LacksNext(s, i, b0, c, bn);
    LacksGrow(s, i, b0, c + 1, all);
  }

  /** The contents of the files other than i. */
  function AllBut(store: seq<seq<int>>, inodes: seq<Inode>, i: nat): seq<seq<int>> {
    seq(|inodes|, j requires 0 <= j < |inodes| => if j == i then [] else Contents(store, inodes[j]))
  }

  lemma WriteDoneElsewhere(size: nat, s: FsState, u: FsState, i: nat, off: nat, src: seq<int>, b0: nat, all: nat)
    requires WriteDone(size, s, u, i, off, src, b0, all)
    ensures AllBut(u.store, u.inodes, i) == AllBut(s.store, s.inodes, i)
  {
    var a, b := AllBut(u.store, u.inodes, i), AllBut(s.store, s.inodes, i);
    forall j | 0 <= j < |a| ensures a[j] == b[j] {}
  }

  /** The blocks in the first k direct slots of file i, and no others, have become free. */
  ghost predicate DirectFreed(s: FsState, t: FsState, i: nat, k: nat) {
    && (forall c :: Used(t.bm, c) <==> Used(s.bm, c) && !(c in s.owner && s.owner[c].i == i && s.owner[c].k < k))
    && (forall c :: c in t.owner <==> c in s.owner && !(s.owner[c].i == i && s.owner[c].k < k))
    && (forall c :: c in t.owner ==> t.owner[c] == s.owner[c])
  }

  /** Two chunks, one after the other, in a file without holes. */
  lemma ChunkGoesOn(t: FsState, i: nat, off: nat, done: nat, n: nat)
    requires Dense(t, i) && n > 0 && (done > 0 ==> off + done <= t.inodes[i].size)
    ensures GoesOn(t, i, off / BSIZE, Span(off, done), (off + done) / BSIZE)
    ensures (off + done) / BSIZE + Span(off + done, n) - off / BSIZE == Span(off, done + n)
    ensures Span(off + done, n) > 0
  {
    if done > 0 && (off + done) % BSIZE != 0 {
      var b := (off + done) / BSIZE;
      assert b * BSIZE < t.inodes[i].size;
    }
  }

  lemma ChunksTogether(size: nat, s: FsState, t: FsState, u: FsState, i: nat, off: nat, done: nat, n: nat)
    requires Spent(size, s, t, i, off / BSIZE, Span(off, done)) && Dense(t, i) && n > 0
    requires (done > 0 ==> off + done <= t.inodes[i].size) && off + done + n <= MAXFILE * BSIZE
    requires Spent(size, t, u, i, (off + done) / BSIZE, Span(off + done, n))
    ensures Spent(size, s, u, i, off / BSIZE, Span(off, done + n))
  {
    ChunkGoesOn(t, i, off, done, n);
    SpentTogether(size, s, t, u, i, off / BSIZE, Span(off, done), (off + done) / BSIZE, Span(off + done, n));
  }

  lemma ChunkTooFew(size: nat, s: FsState, t: FsState, i: nat, off: nat, done: nat, n: nat, all: nat)
    requires Spent(size, s, t, i, off / BSIZE, Span(off, done)) && Dense(t, i) && n > 0 && done + n <= all
    requires (done > 0 ==> off + done <= t.inodes[i].size) && off + done + n <= MAXFILE * BSIZE
    requires FreeCount(t.bm, size) < Lacks(t, i, (off + done) / BSIZE, Span(off + done, n))
    ensures FreeCount(s.bm, size) < Lacks(s, i, off / BSIZE, Span(off, all))
  {
    ChunkGoesOn(t, i, off, done, n);
    LacksTogether(size, s, t, i, off / BSIZE, Span(off, done), (off + done) / BSIZE, Span(off + done, n));
    LacksGrow(s, i, off / BSIZE, Span(off, done + n), Span(off, all));
  }

  /** The outcome of a write of src at off: refused, or the contents spliced. */
  ghost predicate OpResult(o: seq<int>, c: seq<int>, off: nat, src: seq<int>, r: int) {
    if off > |o| || (off + |src|) % U32 < off || off + |src| > MAXFILE * BSIZE then r == -1 && c == o
    else r == |src| && Splices(c, o, off, src, |src|)
  }

  /** After `done` bytes another chunk, of `written` bytes, made the contents c. */
  ghost predicate Advances(c: seq<int>, c0: seq<int>, off: nat, src: seq<int>, done: nat, written: nat) {
    && done + written <= |src| && Splices(c, c0, off, src, done + written)
    && (written == 0 ==> off + done > |c| || off + |src| > MAXFILE * BSIZE)
  }

  /** The size of the chunk after `done` of n bytes, and whether `writei` refuses it. */
  function ChunkLen(n: nat, done: nat): nat
    requires done < n
  {
    if n - done > MAXWRITE then MAXWRITE else n - done
  }

  predicate ChunkRefused(size: nat, at: nat, n: nat) { at > size || at + n > MAXFILE * BSIZE }

  /** The whole chunks in so many bytes. */
  function FullChunks(room: nat): nat {
    if room < MAXWRITE then 0 else FullChunks(room - MAXWRITE) + MAXWRITE
  }

  lemma {:induction false} FullChunksIs(room: nat, done: nat)
    requires done == FullChunks(done)
    ensures FullChunks(room) <= room
    ensures done + MAXWRITE <= room ==> done + MAXWRITE <= FullChunks(room)
    ensures done <= room < done + MAXWRITE ==> done == FullChunks(room)
    ensures FullChunks(done + MAXWRITE) == done + MAXWRITE
    decreases room
  {
    if room >= MAXWRITE {
      if done >= MAXWRITE { FullChunksIs(room - MAXWRITE, done - MAXWRITE); } else { FullChunksIs(room - MAXWRITE, 0); }
    }
  }

  /** What `filewrite` writes of n bytes: all of them, or none past the end of the file, or the chunks that fit below
      the largest size. */
  function Accepted(size: nat, off: nat, n: nat): nat {
    if off > size then 0
    else if off + n <= MAXFILE * BSIZE then n
    else if off > MAXFILE * BSIZE then 0 else FullChunks(MAXFILE * BSIZE - off)
  }

  /** Before a chunk: `done` is a number of whole chunks, all accepted; and so is this one unless it is refused. */
  lemma AcceptedChunk(size: nat, off: nat, n: nat, done: nat, size': nat)
    requires done < n && done == FullChunks(done) && size <= MAXFILE * BSIZE && size' <= MAXFILE * BSIZE
    requires if done == 0 then size' == size else off <= size && off + done <= size'
    ensures ChunkRefused(size', off + done, ChunkLen(n, done)) ==> done == Accepted(size, off, n)
    ensures !ChunkRefused(size', off + done, ChunkLen(n, done)) ==>
              && done + ChunkLen(n, done) <= Accepted(size, off, n)
              && (done + ChunkLen(n, done) == FullChunks(done + ChunkLen(n, done)) || done + ChunkLen(n, done) == n)
  {
    if off <= size && off + done <= MAXFILE * BSIZE { FullChunksIs(MAXFILE * BSIZE - off, done); }
  }

  /** One chunk: refused without effect, or written exactly when there are the blocks it lacks. */
  ghost predicate ChunkOutcome(size: nat, s: FsState, u: FsState, i: nat, at: nat, n: nat, ok: bool, written: nat)
    requires i < |s.inodes|
  {
    if ChunkRefused(s.inodes[i].size, at, n) then ok && written == 0 && u == s
    else
      && (ok <==> FreeCount(s.bm, size) >= Lacks(s, i, at / BSIZE, Span(at, n)))
      && (ok ==> written == n && Spent(size, s, u, i, at / BSIZE, Span(at, n)))
  }

  /** In the loop of `filewrite`, begun in state s0 with contents c0: the first `done` bytes of src are in, they are
      accepted whole chunks, and exactly what they lacked has been taken. */
  ghost predicate FileWriting(size: nat, s0: FsState, s: FsState, i: nat, off: nat, c0: seq<int>, src: seq<int>,
                              done: nat)
    requires i < |s.inodes|
  {
    && done <= |src| && Splices(Contents(s.store, s.inodes[i]), c0, off, src, done) && |c0| <= MAXFILE * BSIZE
    && (done == FullChunks(done) || done == |src|) && done <= Accepted(|c0|, off, |src|)
    && Spent(size, s0, s, i, off / BSIZE, Span(off, done))
  }

  lemma NextAllowed(size: nat, s0: FsState, s: FsState, i: nat, off: nat, c0: seq<int>, src: seq<int>, done: nat)
    requires i < |s.inodes| && FileWriting(size, s0, s, i, off, c0, src, done) && off < U32
    ensures done <= |src| && off + done < U32 && Splices(Contents(s.store, s.inodes[i]), c0, off, src, done) == true
  {
    if off <= |c0| { FullChunksIs(MAXFILE * BSIZE - off, 0); }
  }

  lemma FileWritten(size: nat, s0: FsState, s: FsState, i: nat, off: nat, c0: seq<int>, src: seq<int>, done: nat)
    requires i < |s.inodes| && FileWriting(size, s0, s, i, off, c0, src, done)
    requires done < |src| ==> done == Accepted(|c0|, off, |src|)
    ensures done == Accepted(|c0|, off, |src|) <= |src|
    ensures Splices(Contents(s.store, s.inodes[i]), c0, off, src, done) == true
    ensures FreeCount(s0.bm, size) >= Lacks(s0, i, off / BSIZE, Span(off, Accepted(|c0|, off, |src|)))
  {
    if off <= |c0| { FullChunksIs(MAXFILE * BSIZE - off, 0); }
  }

  lemma ChunkCounted(size: nat, s0: FsState, s: FsState, u: FsState, i: nat, off: nat, c0: seq<int>, src: seq<int>,
                     done: nat, n: nat, written: nat)
    requires i < |s.inodes| && i < |u.inodes| && s.inodes[i].size <= MAXFILE * BSIZE && Dense(s, i)
    requires FileWriting(size, s0, s, i, off, c0, src, done) && done < |src| && n == ChunkLen(|src|, done)
    requires ChunkOutcome(size, s, u, i, off + done, n, true, written)
    requires Advances(Contents(u.store, u.inodes[i]), c0, off, src, done, written)
    ensures done + written <= |src| && FileWriting(size, s0, u, i, off, c0, src, done + written) == true
    ensures written == 0 ==> done == Accepted(|c0|, off, |src|)
  {
    AcceptedChunk(|c0|, off, |src|, done, s.inodes[i].size);
    if !ChunkRefused(s.inodes[i].size, off + done, n) { ChunkSpent(size, s0, s, u, i, off, done, n); }
  }

  lemma ChunkSpent(size: nat, s0: FsState, s: FsState, u: FsState, i: nat, off: nat, done: nat, n: nat)
    requires i < |s.inodes| && Dense(s, i) && n > 0 && !ChunkRefused(s.inodes[i].size, off + done, n)
    requires Spent(size, s0, s, i, off / BSIZE, Span(off, done))
    requires Spent(size, s, u, i, (off + done) / BSIZE, Span(off + done, n))
    ensures Spent(size, s0, u, i, off / BSIZE, Span(off, done + n)) == true
  {
    ChunksTogether(size, s0, s, u, i, off, done, n);
  }

  lemma ChunkFails(size: nat, s0: FsState, s: FsState, u: FsState, i: nat, off: nat, c0: seq<int>, src: seq<int>,
                   done: nat, n: nat, written: nat)
    requires i < |s.inodes| && s.inodes[i].size <= MAXFILE * BSIZE && Dense(s, i)
    requires FileWriting(size, s0, s, i, off, c0, src, done) && done < |src| && n == ChunkLen(|src|, done)
    requires ChunkOutcome(size, s, u, i, off + done, n, false, written)
    ensures FreeCount(s0.bm, size) < Lacks(s0, i, off / BSIZE, Span(off, Accepted(|c0|, off, |src|)))
  {
    AcceptedChunk(|c0|, off, |src|, done, s.inodes[i].size);
    ChunkTooFew(size, s0, s, i, off, done, n, Accepted(|c0|, off, |src|));
  }

  lemma OpAdvances(c: seq<int>, m: seq<int>, c0: seq<int>, off: nat, src: seq<int>, done: nat, n: nat, r: int)
    requires 0 < n <= MAXWRITE && done + n <= |src| && off + done < U32 && Splices(m, c0, off, src, done)
    requires OpResult(m, c, off + done, src[done..done + n], r) && |m| <= MAXFILE * BSIZE
    ensures Advances(c, c0, off, src, done, if r >= 0 then n else 0)
  {
    if r >= 0 { SplicesStep(c, m, c0, off, src, done, src[done..done + n]); }
  }

  function EmptyInode(): Inode { Inode(0, seq(NDIRECT + 1, k => 0)) }

  /** The free map with the blocks before the data area marked. */
  function FirstMap(sb: Super): seq<seq<Bits>> {
    seq(sb.size / BPB + 1, m => seq(BSIZE, y => set k | 0 <= k < 8 && IsReserved(sb, m, y, k)))
  }

  /** Bit k of byte y of block m of the map is for a block before the data area. */
  predicate IsReserved(sb: Super, m: int, y: int, k: int) { m * BPB + y * 8 + k < sb.datastart }

  lemma BitIs(c: nat)
    ensures c == c / BPB * BPB + c % BPB / 8 * 8 + c % 8 && 0 <= c % BPB / 8 < BSIZE
  {
    var m, r := c / 4096, c % 4096;
    assert c == m * 4096 + r && 0 <= r < 4096;
    assert r == r / 8 * 8 + r % 8 && c % 8 == r % 8;
  }

  lemma FirstMapBit(sb: Super, c: nat)
    requires c < sb.size
    ensures Used(FirstMap(sb), c) <==> c < sb.datastart
  {
    var m, y, k := c / BPB, c % BPB / 8, c % 8;
    BitIs(c);
    assert m < |FirstMap(sb)|;
    assert k in FirstMap(sb)[m][y] <==> IsReserved(sb, m, y, k);
  }

  lemma FirstMapOk(sb: Super)
    ensures MapOk(sb, FirstMap(sb))
    ensures forall c :: 0 <= c < sb.size ==> (Used(FirstMap(sb), c) <==> c < sb.datastart)
  {
    forall c | 0 <= c < sb.size ensures Used(FirstMap(sb), c) <==> c < sb.datastart {
      FirstMapBit(sb, c);
    }
  }

  class Fs {
    const sb: Super
    var bm: seq<seq<Bits>>
    var store: seq<seq<int>>
    /** In-memory inodes, and the copies in the inode blocks. */
    var inodes: seq<Inode>
    var dinodes: seq<Inode>
    /** The blocks in the log header, and how many (`log.lh.n`). */
    var logged: set<int>
    var nlog: nat
    ghost var owner: map<int, Slot>

    ghost function St(): FsState
      reads this
    {
      FsState(bm, store, inodes, owner)
    }

    /** The disk. */
    ghost function Im(): Image
      reads this
    {
      Image(bm, store, dinodes)
    }

    ghost predicate Valid()
      reads this
    {
      FsInv(sb, St()) && |dinodes| == |inodes|
    }

    /** An empty file system with n inodes, as `mkfs` begins one: the blocks before the data area are in use. */
    constructor (sb: Super, n: nat)
      requires 0 < sb.datastart <= sb.size < U32
      ensures this.sb == sb && Valid() && |inodes| == n && nlog == 0 && logged == {}
      ensures forall i :: 0 <= i < n ==> inodes[i].size == 0
      ensures forall i, m :: Addr(St(), i, m) == 0
      ensures forall c :: 0 <= c < sb.size ==> (Used(bm, c) <==> c < sb.datastart)
    {
      this.sb := sb;
      bm := FirstMap(sb);
      store := seq(sb.size, b => Zeros());
      inodes := seq(n, i => EmptyInode());
      dinodes := seq(n, i => EmptyInode());
      logged, nlog, owner := {}, 0, map[];
      new;
      FirstMapOk(sb);
      assert forall i, m :: Addr(St(), i, m) == 0;
    }

    /** How many blocks are free. */
    ghost function FreeBlocks(): nat
      reads this
    {
      FreeCount(bm, sb.size)
    }

    /** Inode i has an indirect block and this operation has logged it. */
    ghost predicate IndLogged(i: nat)
      reads this
    {
      Addr(St(), i, NDIRECT) != 0 && Addr(St(), i, NDIRECT) in logged
    }

    /** `log_write`: a block already in the header is absorbed. */
    method LogWrite(b: int)
      modifies this`logged, this`nlog
      ensures logged == old(logged) + {b}
      ensures nlog == old(nlog) + (if b in old(logged) then 0 else 1)
      ensures nlog - |logged| == old(nlog - |logged|)
    {
      if b !in logged {
        nlog := nlog + 1;
        logged := logged + {b};
      }
      assert logged == old(logged) + {b};
    }

    /** Zero a block. */
    method Bzero(b: nat)
      requires b < |store|
      modifies this`store, this`logged, this`nlog
      ensures store == old(store)[b := Zeros()]
      ensures logged == old(logged) + {b} && nlog <= old(nlog) + 1
    {
      store := store[b := Zeros()];
      LogWrite(b);
    }

    /** First-fit allocation of a zeroed block; fails only when every block is in use. */
    method Balloc() returns (ok: bool, b: nat)
      requires MapOk(sb, bm) && |store| == sb.size
      modifies this`bm, this`store, this`logged, this`nlog
      ensures !ok ==> bm == old(bm) && forall c :: 0 <= c < sb.size ==> Used(bm, c)
      ensures ok ==> b < sb.size && !Used(old(bm), b) && forall c :: 0 <= c < b ==> Used(old(bm), c)
      ensures ok ==> bm == SetBit(old(bm), b) && store == old(store)[b := Zeros()]
      ensures ok ==> logged == old(logged) + {BBlock(sb, b), b} && nlog <= old(nlog) + 2
    {
      var base := 0;
      while base < sb.size
        invariant base % BPB == 0 && bm == old(bm) && store == old(store) && logged == old(logged) && nlog == old(nlog)
        invariant forall c :: 0 <= c < base && c < sb.size ==> Used(bm, c)
      {
        var blk := bm[base / BPB];
        var bi := 0;
        while bi < BPB && base + bi < sb.size
          invariant bi <= BPB && bm == old(bm) && store == old(store) && logged == old(logged) && nlog == old(nlog)
          invariant forall c :: 0 <= c < base + bi && c < sb.size ==> Used(bm, c)
        {
          BitPosition(base, bi);
          if bi % 8 !in blk[bi / 8] {
            bm := bm[base / BPB := blk[bi / 8 := blk[bi / 8] + {bi % 8}]];
            LogWrite(BBlock(sb, base + bi));
            Bzero(base + bi);
            return true, base + bi;
          }
          bi := bi + 1;
        }
        base := base + BPB;
      }
      return false, 0;
    }

    /** The count before and after `balloc`. */
    lemma CountAlloc(bm0: seq<seq<Bits>>, ok: bool, b: nat)
      requires MapOk(sb, bm0)
      requires if ok then b < sb.size && !Used(bm0, b) else forall c :: 0 <= c < sb.size ==> Used(bm0, c)
      ensures ok <==> FreeCount(bm0, sb.size) > 0
      ensures ok ==> FreeCount(SetBit(bm0, b), sb.size) == FreeCount(bm0, sb.size) - 1
    {
      if ok { FreeTaken(sb, bm0, b); } else { FreeNone(bm0, sb.size); }
    }

    /** `balloc`, with what it does to the number of free blocks. */
    method CountedAlloc() returns (ok: bool, b: nat)
      requires MapOk(sb, bm) && |store| == sb.size
      modifies this`bm, this`store, this`logged, this`nlog
      ensures ok <==> old(FreeBlocks()) > 0
      ensures ok ==> FreeBlocks() == old(FreeBlocks()) - 1
      ensures !ok ==> bm == old(bm) && forall c :: 0 <= c < sb.size ==> Used(bm, c)
      ensures ok ==> b < sb.size && !Used(old(bm), b)
      ensures ok ==> bm == SetBit(old(bm), b) && store == old(store)[b := Zeros()]
      ensures ok ==> logged == old(logged) + {BBlock(sb, b), b} && nlog <= old(nlog) + 2
      ensures ok ==> Recorded(sb, old(Im()), old(logged), Im(), logged) == true
    {
      ok, b := Balloc();
      CountAlloc(old(bm), ok, b);
      if ok { AllocRecorded(sb, old(Im()), old(logged), b); }
    }

    /** Free a block; fails (panic) exactly when it is already free. */
    method Bfree(b: nat) returns (ok: bool)
      requires MapOk(sb, bm) && b < sb.size
      modifies this`bm, this`logged, this`nlog
      ensures ok <==> Used(old(bm), b)
      ensures ok ==> bm == ClearBit(old(bm), b)
      ensures ok ==> logged == old(logged) + {BBlock(sb, b)} && nlog <= old(nlog) + 1
      ensures Recorded(sb, old(Im()), old(logged), Im(), logged) == true
    {
      var blk, bi := bm[b / BPB], b % BPB;
      BitPosition(b - bi, bi);
      if bi % 8 !in blk[bi / 8] {
        return false;
      }
      bm := bm[b / BPB := blk[bi / 8 := blk[bi / 8] - {bi % 8}]];
      LogWrite(BBlock(sb, b));
      BitsRecorded(sb, old(Im()), old(logged), b, bm);
      ok := true;
    }

    lemma BitPosition(base: nat, bi: nat)
      requires base % BPB == 0 && bi < BPB
      ensures (base + bi) / BPB == base / BPB && (base + bi) % BPB == bi && (base + bi) % 8 == bi % 8
    {
    }

    /** `iupdate`: copy the in-memory inode to its block. */
    method Iupdate(i: nat)
      requires i < |inodes| == |dinodes|
      modifies this`dinodes, this`logged, this`nlog
      ensures dinodes == old(dinodes)[i := inodes[i]]
      ensures logged == old(logged) + {IBlock(sb, i)} && nlog <= old(nlog) + 1
      ensures Recorded(sb, old(Im()), old(logged), Im(), logged) == true
    {
      dinodes := dinodes[i := inodes[i]];
      LogWrite(IBlock(sb, i));
      InodeRecorded(sb, old(Im()), old(logged), i, inodes[i]);
    }

    /** Allocate into an empty slot of the inode itself. */
    method FillInodeSlot(i: nat, k: nat) returns (ok: bool, a: nat)
      requires Valid() && i < |inodes| && k <= NDIRECT && Addr(St(), i, k) == 0
      modifies this`bm, this`store, this`inodes, this`owner, this`logged, this`nlog
      ensures !ok ==> forall c :: 0 <= c < sb.size ==> Used(bm, c)
      ensures ok ==> Valid() && a != 0 && SlotFilled(old(St()), St(), i, k, a) && store[a] == Zeros()
      ensures ok ==> old(logged) + {a} <= logged && nlog <= old(nlog) + 2
      ensures ok <==> old(FreeBlocks()) > 0
      ensures ok ==> FreeBlocks() == old(FreeBlocks()) - 1
      ensures ok ==> Recorded(sb, old(Im()), old(logged), Im(), logged) == true
    {
      ok, a := CountedAlloc();
      if ok {
        InodeSlotKeeps(sb, old(St()), i, k, a);
        inodes := inodes[i := inodes[i].(addrs := inodes[i].addrs[k := a])];
        owner := owner[a := Slot(i, k)];
      }
    }

    /** Allocate a block and enter it as word j of block x. */
    method AllocEntry(x: nat, j: nat) returns (ok: bool, a: nat)
      requires MapOk(sb, bm) && |store| == sb.size && x < |store| && Used(bm, x) && |store[x]| == BSIZE && j < NINDIRECT
      modifies this`bm, this`store, this`logged, this`nlog
      ensures !ok ==> forall c :: 0 <= c < sb.size ==> Used(bm, c)
      ensures ok <==> old(FreeBlocks()) > 0
      ensures ok ==> FreeBlocks() == old(FreeBlocks()) - 1 && a < sb.size && !Used(old(bm), a)
      ensures ok ==> bm == SetBit(old(bm), a) && store == old(store)[a := Zeros()][x := SetWord(old(store[x]), j, a)]
      ensures ok ==> old(logged) + {a, x} <= logged
      ensures ok ==> nlog <= old(nlog) + 2 + (if x in old(logged) then 0 else 1)
      ensures ok ==> Recorded(sb, old(Im()), old(logged), Im(), logged) == true
    {
      var blk := store[x];
      ok, a := CountedAlloc();
      if ok {
        DataOn(sb, old(Im()), old(logged), Im(), logged, x, SetWord(blk, j, a));
        store := store[x := SetWord(blk, j, a)];
        LogWrite(x);
      }
    }

    /** Allocate into an empty entry of the indirect block. */
    method FillEntry(i: nat, k: nat) returns (ok: bool, a: nat)
      requires Valid() && i < |inodes| && NDIRECT < k < NSLOTS
      requires Addr(St(), i, k) == 0 && Addr(St(), i, NDIRECT) != 0
      modifies this`bm, this`store, this`owner, this`logged, this`nlog
      ensures !ok ==> forall c :: 0 <= c < sb.size ==> Used(bm, c)
      ensures ok ==> Valid() && a != 0 && SlotFilled(old(St()), St(), i, k, a)
      ensures ok ==> old(logged) + {a, Addr(St(), i, NDIRECT)} <= logged
      ensures ok ==> nlog <= old(nlog) + 2 + (if old(Addr(St(), i, NDIRECT) in logged) then 0 else 1)
      ensures ok <==> old(FreeBlocks()) > 0
      ensures ok ==> FreeBlocks() == old(FreeBlocks()) - 1
      ensures ok ==> Recorded(sb, old(Im()), old(logged), Im(), logged) == true
    {
      var x := inodes[i].addrs[NDIRECT];
      assert Addr(St(), i, NDIRECT) == x;
      ok, a := AllocEntry(x, k - NDIRECT - 1);
      if ok {
        EntryKeeps(sb, old(St()), i, k, a);
        owner := owner[a := Slot(i, k)];
      }
    }

    /** The indirect half of `bmap`: load the indirect block, then the entry, allocating as needed. */
    method BmapIndirect(i: nat, bn: nat) returns (ok: bool, addr: int)
      requires Valid() && i < |inodes| && NDIRECT <= bn < MAXFILE
      modifies this`bm, this`store, this`inodes, this`owner, this`logged, this`nlog
      ensures !ok ==> forall c :: 0 <= c < sb.size ==> Used(bm, c)
      ensures ok ==> Valid() && addr == Addr(St(), i, bn + 1) != 0 && Grew(old(St()), St(), i, bn)
      ensures old(Addr(St(), i, bn + 1)) != 0 ==> ok && St() == old(St()) && logged == old(logged) && nlog == old(nlog)
      ensures ok && old(Addr(St(), i, bn + 1)) == 0 ==> old(logged) + {addr, Addr(St(), i, NDIRECT)} <= logged
      ensures ok && old(Addr(St(), i, bn + 1)) == 0 ==>
                nlog <= old(nlog) + ChunkCost(old(St()), i, bn, old(IndLogged(i)))
      ensures ok <==> old(FreeBlocks()) >= Lack(old(St()), i, bn)
      ensures ok ==> FreeBlocks() == old(FreeBlocks()) - Lack(old(St()), i, bn)
      ensures ok ==> Recorded(sb, old(Im()), old(logged), Im(), logged) == true
    {
      addr := 0;
      var x: int := inodes[i].addrs[NDIRECT];
      assert x == Addr(St(), i, NDIRECT);
      if x == 0 {
        ok, x := FillInodeSlot(i, NDIRECT);
        if !ok {
          return;
        }
      }
      ghost var s1, d1, l1 := St(), Im(), logged;
      assert x == Addr(St(), i, NDIRECT);
      addr := Word(store[x], bn - NDIRECT);
      assert addr == Addr(St(), i, bn + 1);
      ok := true;
      if addr == 0 {
        ok, addr := FillEntry(i, bn + 1);
        if ok {
          RecordedThen(sb, old(Im()), old(logged), d1, l1, Im(), logged);
          if old(Addr(St(), i, NDIRECT)) == 0 {
            GrewTwice(sb, old(St()), s1, St(), i, bn, x, addr);
          } else {
            GrewOne(old(St()), St(), i, bn, bn + 1, addr);
          }
        }
      }
    }

    /** The disk block of the bn-th block of inode i, allocating it (and the indirect block) if necessary. */
    method Bmap(i: nat, bn: nat) returns (ok: bool, addr: int)
      requires Valid() && i < |inodes| && bn < MAXFILE
      modifies this`bm, this`store, this`inodes, this`owner, this`logged, this`nlog
      ensures !ok ==> forall c :: 0 <= c < sb.size ==> Used(bm, c)
      ensures ok ==> Valid() && addr == Addr(St(), i, FileSlot(bn)) != 0 && Grew(old(St()), St(), i, bn)
      ensures old(Addr(St(), i, FileSlot(bn))) != 0 ==>
                ok && St() == old(St()) && logged == old(logged) && nlog == old(nlog)
      ensures ok && old(Addr(St(), i, FileSlot(bn))) == 0 ==> old(logged) + {addr} <= logged
      ensures ok && LogsIndirect(old(St()), i, bn) ==> IndLogged(i)
      ensures ok && old(Addr(St(), i, FileSlot(bn))) == 0 ==>
                nlog <= old(nlog) + ChunkCost(old(St()), i, bn, old(IndLogged(i)))
      ensures ok <==> old(FreeBlocks()) >= Lack(old(St()), i, bn)
      ensures ok ==> FreeBlocks() == old(FreeBlocks()) - Lack(old(St()), i, bn)
      ensures ok ==> Recorded(sb, old(Im()), old(logged), Im(), logged) == true
    {
      if bn < NDIRECT {
        addr := inodes[i].addrs[bn];
        assert addr == Addr(St(), i, bn);
        ok := true;
        if addr == 0 {
          ok, addr := FillInodeSlot(i, bn);
        }
      } else {
        ok, addr := BmapIndirect(i, bn);
      }
    }

    /** One iteration of `writei`'s loop after `bmap`: src[lo..hi] goes to offset off + lo of file i. */
    method PutBytes(i: nat, a: int, off: nat, src: seq<int>, lo: nat, hi: nat)
      requires Valid() && i < |inodes| && (off + lo) / BSIZE < MAXFILE && lo <= hi <= |src|
      requires a == Addr(St(), i, FileSlot((off + lo) / BSIZE)) != 0 && (off + lo) % BSIZE + hi - lo <= BSIZE
      modifies this`store, this`logged, this`nlog
      ensures Valid() && logged == old(logged) + {a} && nlog == old(nlog) + (if a in old(logged) then 0 else 1)
      ensures forall j, m :: Addr(St(), j, m) == old(Addr(St(), j, m))
      ensures Written(old(St()), St(), i, off, src, lo, hi)
      ensures Recorded(sb, old(Im()), old(logged), Im(), logged) == true
    {
      var bn, o := (off + lo) / BSIZE, (off + lo) % BSIZE;
      var blk := store[a];
      var blk' := blk[..o] + src[lo..hi] + blk[o + hi - lo..];
      WithBlockKeeps(sb, St(), i, bn, blk');
      store := store[a := blk'];
      LogWrite(a);
      DataRecorded(sb, old(Im()), old(logged), a, blk');
      assert St() == WithBlock(old(St()), a, blk');
      forall j, p
        ensures FileByte(St(), j, p) ==
                  if j == i && off + lo <= p < off + hi then src[p - off] else old(FileByte(St(), j, p))
      {
        if j == i && 0 <= p && p / BSIZE == bn {
          assert old(FileByte(St(), j, p)) == blk[p % BSIZE];
        }
      }
    }

    /** One whole iteration of `writei`: map the block, then store the bytes. `indLogged` says whether the
        operation has logged the indirect block of i before. */
    method WriteChunk(i: nat, bn: nat, off: nat, src: seq<int>, lo: nat, hi: nat, ghost indLogged: bool)
        returns (ok: bool)
      requires Valid() && i < |inodes| && lo <= hi <= |src| && bn < MAXFILE && InBlock(bn, off + lo, hi - lo)
      requires indLogged ==> IndLogged(i)
      modifies this`bm, this`store, this`inodes, this`owner, this`logged, this`nlog
      ensures !ok ==> forall c :: 0 <= c < sb.size ==> Used(bm, c)
      ensures ok <==> FreeCount(old(bm), sb.size) >= Lack(old(St()), i, bn)
      ensures ok ==> Valid() == true && i < |inodes|
      ensures ok ==> ChunkDone(old(St()), St(), i, bn, off, src, lo, hi) == true
      ensures ok ==> Took(sb.size, old(St()), St(), i, bn) == true
      ensures ok ==> nlog <= old(nlog) + ChunkCost(old(St()), i, bn, indLogged)
      ensures ok && (indLogged || LogsIndirect(old(St()), i, bn)) ==> IndLogged(i)
      ensures ok ==> Recorded(sb, old(Im()), old(logged), Im(), logged) == true
    {
      var addr;
      InBlockIs(bn, off + lo, hi - lo);
      ok, addr := Bmap(i, bn);
      if ok {
        GrewTook(sb.size, old(St()), St(), i, bn);
        ghost var t, d1, l1 := St(), Im(), logged;
        PutBytes(i, addr, off, src, lo, hi);
        RecordedThen(sb, old(Im()), old(logged), d1, l1, Im(), logged);
        TookSame(sb.size, old(St()), t, St(), i, bn);
      }
    }

    /** Where the next iteration writes, and how much. */
    method NextChunk(off: nat, tot: nat, n: nat, ghost b0: nat, ghost c: nat, ghost all: nat) returns (bn: nat, m: nat)
      requires PosOk(off, n, tot, b0, c) && tot < n && PosOk(off, n, n, b0, all)
      ensures bn == b0 + c < MAXFILE && 0 < m && tot + m <= n && InBlock(bn, off + tot, m)
      ensures PosOk(off, n, tot + m, b0, c + 1) && c < all
    {
      bn, m := (off + tot) / BSIZE, ChunkSize(off, tot, n);
      PosNext(off, n, tot, b0, c, bn, m);
    }

    /** In the loop of `writei`, begun in state s0 with n0 log entries: src goes to offset off, in block b0; tot bytes
        are done, up to position w. */
    ghost predicate Writing(s0: FsState, n0: nat, i: nat, b0: nat, off: nat, src: seq<int>, tot: nat, w: WritePos)
      reads this
    {
      && Valid() && i < |inodes| && tot <= |src| && WriteInv(s0, St(), i, b0, off, src, tot, w)
      && nlog <= n0 + w.count && (w.indLogged ==> IndLogged(i))
    }

    /** And exactly what was lacking has been taken. */
    ghost predicate WritingOn(s0: FsState, n0: nat, i: nat, b0: nat, off: nat, src: seq<int>, tot: nat, w: WritePos)
      reads this
    {
      Writing(s0, n0, i, b0, off, src, tot, w) && Spent(sb.size, s0, St(), i, b0, w.c)
    }

    lemma WritingParts(s0: FsState, n0: nat, i: nat, b0: nat, off: nat, src: seq<int>, tot: nat, w: WritePos)
      requires WritingOn(s0, n0, i, b0, off, src, tot, w)
      ensures Valid() == true && i < |inodes| && tot <= |src| && WriteInv(s0, St(), i, b0, off, src, tot, w) == true
      ensures Spent(sb.size, s0, St(), i, b0, w.c) == true && nlog <= n0 + w.count
    {
    }

    /** One iteration: the next block, bn, gets the next m bytes; `all` is how many blocks the write touches. */
    method WriteIteration(i: nat, src: seq<int>, off: nat, tot: nat, ghost b0: nat, ghost all: nat, ghost s0: FsState,
                          ghost n0: nat, ghost w: WritePos)
        returns (ok: bool, m: nat, bn: nat, ghost w': WritePos)
      requires Writing(s0, n0, i, b0, off, src, tot, w) == true && tot < |src| && PosOk(off, |src|, |src|, b0, all)
      modifies this`bm, this`store, this`inodes, this`owner, this`logged, this`nlog
      ensures bn == b0 + w.c < MAXFILE && w.c < all
      ensures !ok ==> forall c :: 0 <= c < sb.size ==> Used(bm, c)
      ensures ok <==> FreeCount(old(bm), sb.size) >= Lack(old(St()), i, bn)
      ensures ok ==> 0 < m && tot + m <= |src| && Writing(s0, n0, i, b0, off, src, tot + m, w') == true
      ensures ok ==> w'.c == w.c + 1 && Took(sb.size, old(St()), St(), i, bn) == true
      ensures ok ==> Recorded(sb, old(Im()), old(logged), Im(), logged) == true
    {
      ghost var s1 := St();
      bn, m := NextChunk(off, tot, |src|, b0, w.c, all);
      w' := NextPos(s1, i, bn, w);
      ok := WriteChunk(i, bn, off, src, tot, tot + m, w.indLogged);
      if ok {
        WriteInvStep(s0, s1, St(), i, b0, off, src, tot, w, m, bn);
      }
    }

    /** The same, with what it takes from the free blocks. */
    method CountedIteration(i: nat, src: seq<int>, off: nat, tot: nat, ghost b0: nat, ghost all: nat, ghost s0: FsState,
                            ghost n0: nat, ghost w: WritePos)
        returns (ok: bool, m: nat, ghost w': WritePos)
      requires WritingOn(s0, n0, i, b0, off, src, tot, w) == true && tot < |src| && PosOk(off, |src|, |src|, b0, all)
      modifies this`bm, this`store, this`inodes, this`owner, this`logged, this`nlog
      ensures !ok ==> forall c :: 0 <= c < sb.size ==> Used(bm, c)
      ensures !ok ==> FreeCount(s0.bm, sb.size) < Lacks(s0, i, b0, all)
      ensures ok ==> 0 < m && tot + m <= |src| && WritingOn(s0, n0, i, b0, off, src, tot + m, w') == true
      ensures ok ==> Recorded(sb, old(Im()), old(logged), Im(), logged) == true
    {
      ghost var s1 := St();
      var bn;
      ok, m, bn, w' := WriteIteration(i, src, off, tot, b0, all, s0, n0, w);
      if ok {
        SpentStep(sb.size, s0, s1, St(), i, b0, w.c, bn);
      } else {
        OutOfBlocks(sb.size, s0, s1, i, b0, w.c, bn, all);
      }
    }

    /** The loop of `writei`: src goes to offset off of file i, block by block. */
    method WriteLoop(i: nat, src: seq<int>, off: nat, ghost b0: nat, ghost all: nat)
        returns (ok: bool, ghost w: WritePos)
      requires Valid() && i < |inodes| && PosOk(off, |src|, |src|, b0, all)
      modifies this`bm, this`store, this`inodes, this`owner, this`logged, this`nlog
      ensures !ok ==> forall c :: 0 <= c < sb.size ==> Used(bm, c)
      ensures !ok ==> old(FreeBlocks()) < Lacks(old(St()), i, b0, all)
      ensures ok ==> WritingOn(old(St()), old(nlog), i, b0, off, src, |src|, w) == true
      ensures ok ==> Recorded(sb, old(Im()), old(logged), Im(), logged) == true
    {
      ghost var s0, n0 := St(), nlog;
      w := WritePos(0, 0, false);
      WriteStart(sb.size, s0, i, b0, off, src);
      ok := true;
      var tot := 0;
      while tot < |src|
        invariant tot <= |src| && WritingOn(s0, n0, i, b0, off, src, tot, w) == true
        invariant Recorded(sb, old(Im()), old(logged), Im(), logged) == true
      {
        ghost var d1, l1 := Im(), logged;
        var m;
        ok, m, w := CountedIteration(i, src, off, tot, b0, all, s0, n0, w);
        if !ok {
          return;
        }
        RecordedThen(sb, old(Im()), old(logged), d1, l1, Im(), logged);
        tot := tot + m;
      }
    }

    /** What the size update at the end of `writei` leaves. */
    method GrowTo(i: nat, size: nat)
      requires Valid() && i < |inodes| && size <= MAXFILE * BSIZE
      modifies this`inodes, this`dinodes, this`logged, this`nlog
      ensures Valid() == true
      ensures St() == GrownTo(old(St()), i, size)
      ensures dinodes == (if size > old(inodes[i].size) then old(dinodes)[i := inodes[i]] else old(dinodes))
      ensures nlog <= old(nlog) + 1
      ensures Recorded(sb, old(Im()), old(logged), Im(), logged) == true
    {
      if size > inodes[i].size {
        WithSizeKeeps(sb, St(), i, size);
        inodes := inodes[i := inodes[i].(size := size)];
        Iupdate(i);
      }
    }

    /** Does `writei` refuse the request? The sum is taken in 32 bits. */
    predicate WriteRefused(i: nat, off: nat, n: nat)
      reads this
      requires i < |inodes|
    {
      off > inodes[i].size || (off + n) % U32 < off || off + n > MAXFILE * BSIZE
    }

    /** Write src at offset off of file i. It is refused, or fails exactly when fewer blocks are free than it lacks, or
        does what WriteDone says. */
    method Writei(i: nat, src: seq<int>, off: nat) returns (ok: bool, r: int)
      requires Valid() && i < |inodes| && off < U32 && |src| < U32
      modifies this
      ensures old(WriteRefused(i, off, |src|)) ==> ok && r == -1 && unchanged(this)
      ensures ok <==> old(WriteRefused(i, off, |src|)) ||
                      old(FreeBlocks()) >= Lacks(old(St()), i, off / BSIZE, Span(off, |src|))
      ensures !ok ==> forall c :: 0 <= c < sb.size ==> Used(bm, c)
      ensures ok && !old(WriteRefused(i, off, |src|)) ==>
                && r == |src| && Valid() == true
                && WriteDone(sb.size, old(St()), St(), i, off, src, off / BSIZE, Span(off, |src|)) == true
                && nlog <= old(nlog) + 2 * Span(off, |src|) + 3 -
                           FirstMapped(old(St()), i, off / BSIZE, Span(off, |src|))
      ensures ok && old(Dense(St(), i) && dinodes[i] == inodes[i]) ==> dinodes[i] == inodes[i]
      ensures ok ==> forall j :: 0 <= j < |inodes| && j != i ==> dinodes[j] == old(dinodes[j])
      ensures ok ==> Recorded(sb, old(Im()), old(logged), Im(), logged) == true
    {
      if off > inodes[i].size || (off + |src|) % U32 < off {
        return true, -1;
      }
      if off + |src| > MAXFILE * BSIZE {
        return true, -1;
      }
      PosOf(off, |src|);
      ok, r := WriteIn(i, src, off, off / BSIZE, Span(off, |src|));
    }

    /** The rest of `writei`, for a request that is not refused and touches the `all` blocks from b0 on. */
    method WriteIn(i: nat, src: seq<int>, off: nat, ghost b0: nat, ghost all: nat) returns (ok: bool, r: int)
      requires Valid() && i < |inodes| && off <= inodes[i].size && PosOk(off, |src|, |src|, b0, all)
      modifies this
      ensures ok <==> old(FreeBlocks()) >= Lacks(old(St()), i, b0, all)
      ensures !ok ==> forall c :: 0 <= c < sb.size ==> Used(bm, c)
      ensures ok ==> r == |src| && Valid() == true && WriteDone(sb.size, old(St()), St(), i, off, src, b0, all) == true
      ensures ok && old(Dense(St(), i) && dinodes[i] == inodes[i]) ==> dinodes[i] == inodes[i]
      ensures ok ==> forall j :: 0 <= j < |inodes| && j != i ==> dinodes[j] == old(dinodes[j])
      ensures ok ==> nlog <= old(nlog) + 2 * all + 3 - FirstMapped(old(St()), i, b0, all)
      ensures ok ==> Recorded(sb, old(Im()), old(logged), Im(), logged) == true
    {
      ghost var w;
      ok, w := WriteLoop(i, src, off, b0, all);
      if !ok {
        return false, 0;
      }
      ghost var d1, l1 := Im(), logged;
      FinishWrite(i, src, off, b0, all, old(St()), old(nlog), w);
      RecordedThen(sb, old(Im()), old(logged), d1, l1, Im(), logged);
      r := |src|;
    }

    /** The size update after the loop, and what the write has done by then. */
    method FinishWrite(i: nat, src: seq<int>, off: nat, ghost b0: nat, ghost all: nat, ghost s0: FsState,
                       ghost n0: nat, ghost w: WritePos)
      requires WritingOn(s0, n0, i, b0, off, src, |src|, w) == true && PosOk(off, |src|, |src|, b0, all)
      requires i < |s0.inodes| && off <= s0.inodes[i].size
      modifies this`inodes, this`dinodes, this`logged, this`nlog
      ensures Valid() == true && WriteDone(sb.size, s0, St(), i, off, src, b0, all) == true
      ensures Dense(s0, i) && i < |old(dinodes)| && old(dinodes)[i] == s0.inodes[i] ==> dinodes[i] == inodes[i]
      ensures |dinodes| == |inodes| == |old(dinodes)|
      ensures forall j :: 0 <= j < |inodes| && j != i ==> dinodes[j] == old(dinodes[j])
      ensures nlog <= n0 + 2 * all + 3 - FirstMapped(s0, i, b0, all)
      ensures Recorded(sb, old(Im()), old(logged), Im(), logged) == true
    {
      ghost var t := St();
      WritingParts(s0, n0, i, b0, off, src, |src|, w);
      GrowTo(i, off + |src|);
      WriteFinished(sb.size, s0, t, St(), i, off, src, w, b0, all);
    }

    /** One iteration of `readi`: m bytes at offset `at` of file i, all in block bn. */
    method ReadChunk(i: nat, bn: nat, at: nat, m: nat) returns (ok: bool, bytes: seq<int>)
      requires Valid() && i < |inodes| && bn < MAXFILE && InBlock(bn, at, m)
      modifies this`bm, this`store, this`inodes, this`owner, this`logged, this`nlog
      ensures ok ==> Valid() == true && i < |inodes| && SameFiles(old(St()), St()) == true
      ensures ok ==> |bytes| == m && forall q :: 0 <= q < m ==> bytes[q] == old(FileByte(St(), i, at + q))
      ensures !ok ==> forall c :: 0 <= c < sb.size ==> Used(bm, c)
      ensures ok <==> FreeCount(old(bm), sb.size) >= Lack(old(St()), i, bn)
      ensures ok ==> Took(sb.size, old(St()), St(), i, bn) == true
      ensures old(Addr(St(), i, FileSlot(bn))) != 0 ==> ok && St() == old(St()) && nlog == old(nlog)
      ensures ok ==> Recorded(sb, old(Im()), old(logged), Im(), logged) == true
    {
      var addr;
      InBlockIs(bn, at, m);
      ok, addr := Bmap(i, bn);
      bytes := [];
      if ok {
        GrewTook(sb.size, old(St()), St(), i, bn);
        bytes := store[addr][at % BSIZE..at % BSIZE + m];
        forall q | 0 <= q < m
          ensures bytes[q] == old(FileByte(St(), i, at + q))
        {
          assert (at + q) / BSIZE == bn && (at + q) % BSIZE == at % BSIZE + q;
          assert FileByte(St(), i, at + q) == store[addr][at % BSIZE + q];
        }
      }
    }

    /** In the loop of `readi`, begun in state s0 with n0 log entries, in block b0: c blocks are done, and exactly what
        they lacked has been taken. */
    ghost predicate Reading(s0: FsState, n0: nat, i: nat, b0: nat, off: nat, k: nat, dst: seq<int>, c: nat)
      reads this
    {
      && Valid() && i < |inodes| && ReadSoFar(s0, St(), i, off, k, dst) && PosOk(off, k, |dst|, b0, c)
      && Spent(sb.size, s0, St(), i, b0, c) && (Dense(s0, i) ==> nlog == n0)
    }

    /** One turn of the loop: dst grows by the bytes that follow. */
    method ReadStep(i: nat, off: nat, k: nat, dst: seq<int>, ghost s0: FsState, ghost n0: nat, ghost b0: nat,
                    ghost c: nat, ghost all: nat)
        returns (ok: bool, more: seq<int>)
      requires Reading(s0, n0, i, b0, off, k, dst, c) == true && |dst| < k && PosOk(off, k, k, b0, all)
      requires i < |s0.inodes| && off + k <= s0.inodes[i].size
      modifies this`bm, this`store, this`inodes, this`owner, this`logged, this`nlog
      ensures !ok ==> forall x :: 0 <= x < sb.size ==> Used(bm, x)
      ensures !ok ==> FreeCount(s0.bm, sb.size) < Lacks(s0, i, b0, all)
      ensures ok ==> |dst| < |more| <= k && Reading(s0, n0, i, b0, off, k, more, c + 1) == true
      ensures Dense(s0, i) ==> ok
      ensures ok ==> Recorded(sb, old(Im()), old(logged), Im(), logged) == true
    {
      ghost var s1 := St();
      var bn, m := NextChunk(off, |dst|, k, b0, c, all);
      assert Dense(s0, i) ==> Addr(s0, i, FileSlot(bn)) != 0;
      var at := off + |dst|;
      var bytes;
      ok, bytes := ReadChunk(i, bn, at, m);
      more := dst + bytes;
      if ok {
        ReadOn(s0, s1, St(), i, off, k, dst, at, bytes);
        SpentStep(sb.size, s0, s1, St(), i, b0, c, bn);
      } else {
        OutOfBlocks(sb.size, s0, s1, i, b0, c, bn, all);
      }
    }

    /** The loop. */
    method ReadLoop(i: nat, off: nat, k: nat, ghost b0: nat, ghost all: nat) returns (ok: bool, dst: seq<int>)
      requires Valid() && i < |inodes| && off + k <= inodes[i].size && PosOk(off, k, k, b0, all)
      modifies this`bm, this`store, this`inodes, this`owner, this`logged, this`nlog
      ensures !ok ==> forall c :: 0 <= c < sb.size ==> Used(bm, c)
      ensures !ok ==> FreeCount(old(bm), sb.size) < Lacks(old(St()), i, b0, all)
      ensures ok ==> |dst| == k && Reading(old(St()), old(nlog), i, b0, off, k, dst, all) == true
      ensures old(Dense(St(), i)) ==> ok
      ensures ok ==> Recorded(sb, old(Im()), old(logged), Im(), logged) == true
    {
      ghost var s0, n0, c := St(), nlog, 0;
      dst, ok := [], true;
      while |dst| < k
        invariant |dst| <= k && ok && Reading(s0, n0, i, b0, off, k, dst, c) == true
        invariant Recorded(sb, old(Im()), old(logged), Im(), logged) == true
        decreases k - |dst|
      {
        ghost var d1, l1 := Im(), logged;
        ok, dst := ReadStep(i, off, k, dst, s0, n0, b0, c, all);
        if !ok {
          return;
        }
        RecordedThen(sb, old(Im()), old(logged), d1, l1, Im(), logged);
        c := c + 1;
      }
      assert c == all;
    }

    /** Read n bytes from offset off of file i, as many as there are. It is refused, or fails exactly when fewer blocks
        are free than the holes in that range lack (`readi` fills them). */
    method Readi(i: nat, off: nat, n: nat) returns (ok: bool, r: int, dst: seq<int>)
      requires Valid() && i < |inodes| && off < U32 && n < U32
      modifies this`bm, this`store, this`inodes, this`owner, this`logged, this`nlog
      ensures off > old(inodes[i].size) || (off + n) % U32 < off ==> ok && r == -1 && dst == [] && unchanged(this)
      ensures !ok ==> forall c :: 0 <= c < sb.size ==> Used(bm, c)
      ensures !(off > old(inodes[i].size) || (off + n) % U32 < off) ==>
                var k := if off + n > old(inodes[i].size) then old(inodes[i].size) - off else n;
                && (ok <==> FreeCount(old(bm), sb.size) >= Lacks(old(St()), i, off / BSIZE, Span(off, k)))
                && (ok ==>
                      && r == |dst| == k
                      && (forall q :: 0 <= q < k ==> dst[q] == old(Contents(store, inodes[i]))[off + q])
                      && Valid() == true && SameFiles(old(St()), St()) == true)
      ensures old(Dense(St(), i)) ==> ok && St() == old(St()) && nlog == old(nlog)
      ensures ok ==> Recorded(sb, old(Im()), old(logged), Im(), logged) == true
    {
      dst := [];
      if off > inodes[i].size || (off + n) % U32 < off {
        return true, -1, [];
      }
      var k := if off + n > inodes[i].size then inodes[i].size - off else n;
      PosOf(off, k);
      ok, dst := ReadLoop(i, off, k, off / BSIZE, Span(off, k));
      r := if ok then k else 0;
    }

    /** Free and empty direct slot k of file i. */
    method FreeOne(i: nat, k: nat) returns (ok: bool)
      requires Valid() && i < |inodes| && k < NDIRECT
      modifies this`bm, this`inodes, this`owner, this`logged, this`nlog
      ensures ok && Valid() && |inodes| == old(|inodes|)
      ensures OneNewAddr(old(St()), St(), i, k, 0)
      ensures forall j :: 0 <= j < |inodes| ==> inodes[j].size == old(inodes[j].size)
      ensures forall c :: Used(bm, c) <==> Used(old(bm), c) && (c == 0 || c != old(Addr(St(), i, k)))
      ensures owner == old(owner) - {old(Addr(St(), i, k))}
      ensures Recorded(sb, old(Im()), old(logged), Im(), logged) == true
    {
      ghost var s := St();
      var a := inodes[i].addrs[k];
      assert a == Addr(s, i, k);
      ok := true;
      if a != 0 {
        WithoutSlotKeeps(sb, s, i, k);
        ok := Bfree(a);
        forall c
          ensures Used(bm, c) <==> c != a && Used(s.bm, c)
        {
          FreeBit(sb, s.bm, a, c);
        }
        inodes := inodes[i := inodes[i].(addrs := inodes[i].addrs[k := 0])];
        owner := owner - {a};
      }
    }

    /** Free the direct blocks of file i. */
    method FreeDirect(i: nat) returns (ok: bool)
      requires Valid() && i < |inodes|
      modifies this`bm, this`inodes, this`owner, this`logged, this`nlog
      ensures ok && Valid() && |inodes| == old(|inodes|)
      ensures forall j, m :: Addr(St(), j, m) == if j == i && 0 <= m < NDIRECT then 0 else old(Addr(St(), j, m))
      ensures forall j :: 0 <= j < |inodes| ==> inodes[j].size == old(inodes[j].size)
      ensures DirectFreed(old(St()), St(), i, NDIRECT)
      ensures Recorded(sb, old(Im()), old(logged), Im(), logged) == true
    {
      ok := true;
      var k := 0;
      while k < NDIRECT
        invariant k <= NDIRECT && ok && Valid() && |inodes| == old(|inodes|)
        invariant forall j, m :: Addr(St(), j, m) == if j == i && 0 <= m < k then 0 else old(Addr(St(), j, m))
        invariant forall j :: 0 <= j < |inodes| ==> inodes[j].size == old(inodes[j].size)
        invariant DirectFreed(old(St()), St(), i, k)
        invariant Recorded(sb, old(Im()), old(logged), Im(), logged) == true
      {
        ghost var d1, l1 := Im(), logged;
        ok := FreeOne(i, k);
        RecordedThen(sb, old(Im()), old(logged), d1, l1, Im(), logged);
        k := k + 1;
      }
    }

    /** Free the entries of the indirect block of file i, then the block itself. */
    method FreeIndirect(i: nat) returns (ok: bool)
      requires Valid() && i < |inodes|
      modifies this`bm, this`inodes, this`owner, this`logged, this`nlog
      ensures ok && Valid() && |inodes| == old(|inodes|)
      ensures forall j, m :: Addr(St(), j, m) == if j == i && m >= NDIRECT then 0 else old(Addr(St(), j, m))
      ensures forall j :: 0 <= j < |inodes| ==> inodes[j].size == old(inodes[j].size)
      ensures forall c :: Used(bm, c) <==>
                Used(old(bm), c) && !(c in old(owner) && old(owner)[c].i == i && old(owner)[c].k >= NDIRECT)
      ensures Recorded(sb, old(Im()), old(logged), Im(), logged) == true
    {
      ok := true;
      ghost var s := St();
      var x := inodes[i].addrs[NDIRECT];
      assert x == Addr(s, i, NDIRECT);
      if x != 0 {
        var blk := store[x];
        var j := 0;
        while j < NINDIRECT
          invariant j <= NINDIRECT && ok && St() == s.(bm := bm) && FreeingMap(sb, s, bm, i, j, false)
          invariant Recorded(sb, old(Im()), old(logged), Im(), logged) == true
        {
          var a := Word(blk, j);
          ghost var d1, l1 := Im(), logged;
          assert a == Addr(s, i, NDIRECT + 1 + j);
          FreeingStep(sb, s, bm, i, j, a);
          if a != 0 {
            ok := Bfree(a);
            RecordedThen(sb, old(Im()), old(logged), d1, l1, Im(), logged);
          }
          j := j + 1;
        }
        ghost var bm1, d1, l1 := bm, Im(), logged;
        ok := Bfree(x);
        RecordedThen(sb, old(Im()), old(logged), d1, l1, Im(), logged);
        forall c
          ensures Used(bm, c) <==> Used(s.bm, c) && !FreedSoFar(s, i, NINDIRECT, true, c)
        {
          FreeBit(sb, bm1, x, c);
        }
        FreeBit(sb, bm1, x, x);
        WithoutIndirectKeeps(sb, s, bm, i);
        inodes := inodes[i := inodes[i].(addrs := inodes[i].addrs[NDIRECT := 0])];
        owner := WithoutIndirect(s, bm, i).owner;
      }
    }

    /** Discard the contents of file i: its blocks, exactly those, become free; no "freeing free block". */
    method Itrunc(i: nat) returns (ok: bool)
      requires Valid() && i < |inodes|
      modifies this
      ensures ok && Valid() && |inodes| == old(|inodes|) && inodes[i].size == 0 && dinodes[i] == inodes[i]
      ensures forall m :: Addr(St(), i, m) == 0
      ensures forall j, m :: j != i ==> Addr(St(), j, m) == old(Addr(St(), j, m))
      ensures forall j, p :: j != i ==> FileByte(St(), j, p) == old(FileByte(St(), j, p))
      ensures forall j :: 0 <= j < |inodes| && j != i ==>
                inodes[j].size == old(inodes[j].size) && dinodes[j] == old(dinodes[j])
      ensures forall c :: Used(bm, c) <==> Used(old(bm), c) && !(c in old(owner) && old(owner)[c].i == i)
      ensures Recorded(sb, old(Im()), old(logged), Im(), logged) == true
    {
      ok := FreeDirect(i);
      ghost var d1, l1 := Im(), logged;
      ok := FreeIndirect(i);
      ghost var d2, l2 := Im(), logged;
      WithSizeKeeps(sb, St(), i, 0);
      inodes := inodes[i := inodes[i].(size := 0)];
      Iupdate(i);
      RecordedThen(sb, d1, l1, d2, l2, Im(), logged);
      RecordedThen(sb, old(Im()), old(logged), d1, l1, Im(), logged);
      forall j, p | j != i
        ensures FileByte(St(), j, p) == old(FileByte(St(), j, p))
      {
        SameAddrSameBytes(old(St()), St(), j, p);
      }
    }

    /** An unaligned chunk touches one more block than an aligned one, but then its first block exists. */
    lemma SpanBound(off: nat, n: nat)
      requires 0 < n <= MAXWRITE
      ensures Span(off, n) <= if off % BSIZE == 0 then 3 else 4
    {
    }

    lemma OpBound(s: FsState, i: nat, off: nat, n: nat)
      requires Dense(s, i) && off <= s.inodes[i].size && n <= MAXWRITE
      ensures 2 * Span(off, n) + 3 - FirstMapped(s, i, off / BSIZE, Span(off, n)) <= LogSpec.MAXOPBLOCKS
    {
      if n > 0 {
        SpanBound(off, n);
        assert off % BSIZE != 0 ==> Addr(s, i, FileSlot(off / BSIZE)) != 0;
      }
    }

    /** Ready for `filewrite`: file i has no holes and its disk copy is current. */
    ghost predicate Settled(i: nat)
      reads this
    {
      Valid() && i < |inodes| && Dense(St(), i) && dinodes[i] == inodes[i]
    }

    /** Files other than i. */
    ghost function Others(i: nat): seq<seq<int>>
      reads this
    {
      AllBut(store, inodes, i)
    }

    /** What an operation on file i, begun with image d0 and the log entries l0, n0 of them, has kept: file i is
        settled, the other files are as they were, no more than an operation's allowance is logged, and all it changed
        is. */
    ghost predicate OpKept(i: nat, others: seq<seq<int>>, n0: nat, d0: Image, l0: set<int>)
      reads this
    {
      && Settled(i) && Others(i) == others && nlog <= n0 + LogSpec.MAXOPBLOCKS
      && Recorded(sb, d0, l0, Im(), logged)
    }

    /** One iteration of `filewrite`, its own log operation: at most MAXOPBLOCKS blocks enter the log. */
    method WriteOp(i: nat, src: seq<int>, off: nat) returns (ok: bool, r: int)
      requires Settled(i) && off < U32 && |src| <= MAXWRITE
      modifies this
      ensures ok ==> OpKept(i, old(Others(i)), old(nlog), old(Im()), old(logged)) == true
      ensures !ok ==> forall c :: 0 <= c < sb.size ==> Used(bm, c)
      ensures old(WriteRefused(i, off, |src|)) ==> ok && r == -1 && unchanged(this)
      ensures ChunkOutcome(sb.size, old(St()), St(), i, off, |src|, ok, if r < 0 then 0 else r) == true
      ensures ok ==> OpResult(old(Contents(store, inodes[i])), Contents(store, inodes[i]), off, src, r) == true
    {
      ghost var s0 := St();
      ok, r := Writei(i, src, off);
      if ok && !old(WriteRefused(i, off, |src|)) {
        WriteDoneElsewhere(sb.size, s0, St(), i, off, src, off / BSIZE, Span(off, |src|));
        OpBound(s0, i, off, |src|);
      }
      assert old(WriteRefused(i, off, |src|)) <==> ChunkRefused(s0.inodes[i].size, off, |src|);
    }

    /** One pass of `filewrite`'s loop after `done` bytes; c0 is the file before the call. */
    method FilewriteStep(i: nat, src: seq<int>, off: nat, done: nat, ghost c0: seq<int>)
        returns (ok: bool, written: nat)
      requires Settled(i) && off + done < U32 && done < |src|
      requires Splices(Contents(store, inodes[i]), c0, off, src, done)
      modifies this
      ensures !ok ==> forall c :: 0 <= c < sb.size ==> Used(bm, c)
      ensures ok ==> OpKept(i, old(Others(i)), old(nlog), old(Im()), old(logged)) == true
      ensures ok ==> Advances(Contents(store, inodes[i]), c0, off, src, done, written) == true
      ensures ChunkOutcome(sb.size, old(St()), St(), i, off + done, ChunkLen(|src|, done), ok, written) == true
    {
      var n1 := ChunkLen(|src|, done);
      ghost var mid := Contents(store, inodes[i]);
      var chunk := src[done..done + n1];
      assert |chunk| == n1;
      var r;
      ok, r := WriteOp(i, chunk, off + done);
      written := if r < 0 then 0 else r;
      if ok { OpAdvances(Contents(store, inodes[i]), mid, c0, off, src, done, n1, r); }
    }

    /** In the loop of `filewrite`, begun with image d0 and the log entries l0: see FileWriting; and the other files are
        as at its start, and all that has changed is logged. */
    ghost predicate Going(s0: FsState, d0: Image, l0: set<int>, others: seq<seq<int>>, i: nat, off: nat, c0: seq<int>,
                          src: seq<int>, done: nat)
      reads this
    {
      && Settled(i) && Others(i) == others && FileWriting(sb.size, s0, St(), i, off, c0, src, done)
      && Recorded(sb, d0, l0, Im(), logged)
    }

    /** The loop has ended after `done` bytes: at the end or at a chunk that is refused; or because fewer blocks were
        free than the accepted bytes lack. */
    ghost predicate Ended(s0: FsState, d0: Image, l0: set<int>, others: seq<seq<int>>, i: nat, off: nat, c0: seq<int>,
                          src: seq<int>, ok: bool, done: nat)
      reads this
    {
      if ok then
        Going(s0, d0, l0, others, i, off, c0, src, done) && (done < |src| ==> done == Accepted(|c0|, off, |src|))
      else
        && (forall c :: 0 <= c < sb.size ==> Used(bm, c))
        && FreeCount(s0.bm, sb.size) < Lacks(s0, i, off / BSIZE, Span(off, Accepted(|c0|, off, |src|)))
    }

    /** One pass, with what the chunks so far have taken from the free blocks since state s0. */
    method CountedStep(i: nat, src: seq<int>, off: nat, done: nat, ghost c0: seq<int>, ghost s0: FsState,
                       ghost d0: Image, ghost l0: set<int>, ghost others: seq<seq<int>>)
        returns (ok: bool, written: nat)
      requires Going(s0, d0, l0, others, i, off, c0, src, done) == true && off < U32 && done < |src|
      modifies this
      ensures if ok && written > 0
              then done + written <= |src| && Going(s0, d0, l0, others, i, off, c0, src, done + written) == true
              else Ended(s0, d0, l0, others, i, off, c0, src, ok, done) == true
    {
      ghost var s1, d1, l1 := St(), Im(), logged;
      NextAllowed(sb.size, s0, s1, i, off, c0, src, done);
      ok, written := FilewriteStep(i, src, off, done, c0);
      if ok {
        RecordedThen(sb, d0, l0, d1, l1, Im(), logged);
        ChunkCounted(sb.size, s0, s1, St(), i, off, c0, src, done, ChunkLen(|src|, done), written);
      } else {
        ChunkFails(sb.size, s0, s1, St(), i, off, c0, src, done, ChunkLen(|src|, done), written);
      }
    }

    /** The loop of `filewrite`. */
    method FilewriteLoop(i: nat, src: seq<int>, off: nat, ghost c0: seq<int>, ghost s0: FsState, ghost d0: Image,
                         ghost l0: set<int>, ghost others: seq<seq<int>>)
        returns (ok: bool, done: nat)
      requires Going(s0, d0, l0, others, i, off, c0, src, 0) == true && off < U32
      modifies this
      ensures Ended(s0, d0, l0, others, i, off, c0, src, ok, done) == true
    {
      done, ok := 0, true;
      while done < |src|
        invariant done <= |src| && ok && Going(s0, d0, l0, others, i, off, c0, src, done) == true
      {
        var written;
        ok, written := CountedStep(i, src, off, done, c0, s0, d0, l0, others);
        if !ok || written == 0 {
          return;
        }
        done := done + written;
      }
    }

    /** `filewrite` on an inode: chunk after chunk from offset off; `done` bytes were written. It fails exactly when
        fewer blocks are free than the accepted bytes lack. */
    method Filewrite(i: nat, src: seq<int>, off: nat) returns (ok: bool, r: int, done: nat)
      requires Settled(i) && off < U32
      modifies this
      ensures !ok ==> forall c :: 0 <= c < sb.size ==> Used(bm, c)
      ensures ok <==> FreeCount(old(bm), sb.size) >=
                        Lacks(old(St()), i, off / BSIZE, Span(off, Accepted(old(inodes[i].size), off, |src|)))
      ensures ok ==> Settled(i) == true && Others(i) == old(Others(i))
      ensures ok ==> done == Accepted(old(inodes[i].size), off, |src|) <= |src|
      ensures ok ==> r == (if done == |src| then |src| else -1)
      ensures ok ==> Splices(Contents(store, inodes[i]), old(Contents(store, inodes[i])), off, src, done) == true
      ensures ok ==> Recorded(sb, old(Im()), old(logged), Im(), logged) == true
    {
      ghost var c0, s0, others := Contents(store, inodes[i]), St(), Others(i);
      ok, done := FilewriteLoop(i, src, off, c0, s0, Im(), logged, others);
      r := if done == |src| then |src| else -1;
      if ok { FileWritten(sb.size, s0, St(), i, off, c0, src, done); }
    }
  }
}
