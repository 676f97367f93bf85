/** The disk as the log sees it, block by block: which block holds which inodes, which part of the free map, which data;
    and what it means that a transaction has recorded every change. */
module FsImage {
  import opened FsSpec

  /** What fs.c keeps on disk. */
  datatype Image = Image(bm: seq<seq<Bits>>, store: seq<seq<int>>, dinodes: seq<Inode>)

  /** What is in one block: its bytes as data, as part of the free map, as inodes. */
  datatype Block = Block(data: seq<int>, bits: seq<Bits>, inodes: seq<Inode>)

  function At<T>(s: seq<T>, k: int, none: T): T { if 0 <= k < |s| then s[k] else none }

  /** The inodes from 8 * k on, up to eight of them. */
  function InodesIn(dinodes: seq<Inode>, k: int): seq<Inode> {
    if 0 <= k && 8 * k + 8 <= |dinodes| then dinodes[8 * k..8 * k + 8]
    else if 0 <= k && 8 * k <= |dinodes| then dinodes[8 * k..]
    else []
  }

  function BlockAt(sb: Super, d: Image, b: int): Block {
    Block(At(d.store, b, []), At(d.bm, b - sb.bmapstart, []), InodesIn(d.dinodes, b - sb.inodestart))
  }

  predicate SameShape(d: Image, e: Image) {
    |d.bm| == |e.bm| && |d.store| == |e.store| && |d.dinodes| == |e.dinodes|
  }

  /** From image d, with the blocks l in the transaction, to image e with l': none has left it, and every block outside
      is as it was. */
  ghost predicate Recorded(sb: Super, d: Image, l: set<int>, e: Image, l': set<int>) {
    && SameShape(d, e) && l <= l'
    && forall b {:trigger BlockAt(sb, e, b)} :: b !in l' ==> BlockAt(sb, e, b) == BlockAt(sb, d, b)
  }

  lemma RecordedThen(sb: Super, d: Image, l: set<int>, e: Image, l': set<int>, f: Image, l'': set<int>)
    requires Recorded(sb, d, l, e, l') && Recorded(sb, e, l', f, l'')
    ensures Recorded(sb, d, l, f, l'')
  {
    forall b | b !in l'' ensures BlockAt(sb, f, b) == BlockAt(sb, d, b) {
      assert BlockAt(sb, f, b) == BlockAt(sb, e, b);
    }
  }

  /** Every changed inode, map block and data block is in its block of the transaction: inode j shares block
      inodestart + j / 8 with the others of its group of eight, the bit of block c is in block bmapstart + c / 4096. */
  ghost predicate ChangesIn(sb: Super, d: Image, e: Image, l: set<int>)
    requires SameShape(d, e)
  {
    && (forall j :: 0 <= j < |d.dinodes| && d.dinodes[j] != e.dinodes[j] ==> IBlock(sb, j) in l)
    && (forall m :: 0 <= m < |d.bm| && d.bm[m] != e.bm[m] ==> sb.bmapstart + m in l)
    && (forall b :: 0 <= b < |d.store| && d.store[b] != e.store[b] ==> b in l)
  }

  lemma RecordedIff(sb: Super, d: Image, l: set<int>, e: Image, l': set<int>)
    requires SameShape(d, e) && l <= l'
    ensures Recorded(sb, d, l, e, l') <==> ChangesIn(sb, d, e, l')
  {
    if Recorded(sb, d, l, e, l') { RecordedChanges(sb, d, l, e, l'); }
    if ChangesIn(sb, d, e, l') { ChangesRecorded(sb, d, l, e, l'); }
  }

  lemma RecordedChanges(sb: Super, d: Image, l: set<int>, e: Image, l': set<int>)
    requires Recorded(sb, d, l, e, l')
    ensures ChangesIn(sb, d, e, l') == true
  {
    forall j | 0 <= j < |d.dinodes| && d.dinodes[j] != e.dinodes[j] ensures IBlock(sb, j) in l' {
      InodeInBlock(sb, d, j);
      InodeInBlock(sb, e, j);
      assert BlockAt(sb, e, IBlock(sb, j)) != BlockAt(sb, d, IBlock(sb, j));
    }
    forall m | 0 <= m < |d.bm| && d.bm[m] != e.bm[m] ensures sb.bmapstart + m in l' {
      assert BlockAt(sb, e, sb.bmapstart + m).bits == e.bm[m];
    }
    forall b | 0 <= b < |d.store| && d.store[b] != e.store[b] ensures b in l' {
      assert BlockAt(sb, e, b).data == e.store[b];
    }
  }

  lemma ChangesRecorded(sb: Super, d: Image, l: set<int>, e: Image, l': set<int>)
    requires SameShape(d, e) && l <= l' && ChangesIn(sb, d, e, l')
    ensures Recorded(sb, d, l, e, l') == true
  {
    forall b | b !in l' ensures BlockAt(sb, e, b) == BlockAt(sb, d, b) {
      SameInodesIn(d.dinodes, e.dinodes, sb, l', b);
    }
  }

  lemma SameInodesIn(s: seq<Inode>, t: seq<Inode>, sb: Super, l: set<int>, b: int)
    requires |s| == |t| && b !in l && forall j :: 0 <= j < |s| && s[j] != t[j] ==> IBlock(sb, j) in l
    ensures InodesIn(s, b - sb.inodestart) == InodesIn(t, b - sb.inodestart)
  {
    var k := b - sb.inodestart;
    forall q | 0 <= q < |InodesIn(s, k)| ensures InodesIn(s, k)[q] == InodesIn(t, k)[q] {
      assert IBlock(sb, 8 * k + q) == b;
    }
  }

  lemma InodeInBlock(sb: Super, d: Image, j: nat)
    requires j < |d.dinodes|
    ensures var inodes := BlockAt(sb, d, IBlock(sb, j)).inodes; j % 8 < |inodes| && inodes[j % 8] == d.dinodes[j]
  {
  }

  /** So committing the recorded blocks commits everything: the disk that has them from e and all others from d is e. */
  lemma CommitIsWhole(sb: Super, d: Image, l: set<int>, e: Image, l': set<int>, disk: Image)
    requires Recorded(sb, d, l, e, l') && SameShape(d, disk)
    requires forall b {:trigger BlockAt(sb, disk, b)} ::
               BlockAt(sb, disk, b) == if b in l' then BlockAt(sb, e, b) else BlockAt(sb, d, b)
    ensures disk == e
  {
    forall b ensures BlockAt(sb, disk, b) == BlockAt(sb, e, b) {}
    forall j | 0 <= j < |e.dinodes| ensures disk.dinodes[j] == e.dinodes[j] {
      InodeInBlock(sb, disk, j);
      InodeInBlock(sb, e, j);
    }
    forall m | 0 <= m < |e.bm| ensures disk.bm[m] == e.bm[m] {
      assert BlockAt(sb, disk, sb.bmapstart + m).bits == disk.bm[m];
    }
    forall b | 0 <= b < |e.store| ensures disk.store[b] == e.store[b] {
      assert BlockAt(sb, disk, b).data == disk.store[b];
    }
  }

  // ---- single changes ----

  lemma DataRecorded(sb: Super, d: Image, l: set<int>, b: nat, blk: seq<int>)
    requires b < |d.store|
    ensures Recorded(sb, d, l, d.(store := d.store[b := blk]), l + {b})
  {
  }

  /** The same after other recorded changes. */
  lemma DataOn(sb: Super, d: Image, l: set<int>, e: Image, l': set<int>, b: nat, blk: seq<int>)
    requires Recorded(sb, d, l, e, l') && b < |e.store|
    ensures Recorded(sb, d, l, e.(store := e.store[b := blk]), l' + {b}) == true
  {
    DataRecorded(sb, e, l', b, blk);
    RecordedThen(sb, d, l, e, l', e.(store := e.store[b := blk]), l' + {b});
  }

  /** A bit of block b of the disk is in block BBlock(b). */
  lemma BitsRecorded(sb: Super, d: Image, l: set<int>, b: nat, bm: seq<seq<Bits>>)
    requires b / BPB < |d.bm| == |bm| && bm == d.bm[b / BPB := bm[b / BPB]]
    ensures Recorded(sb, d, l, d.(bm := bm), l + {BBlock(sb, b)})
  {
  }

  /** Allocating block b: its bit, then its zeroes. */
  lemma AllocRecorded(sb: Super, d: Image, l: set<int>, b: nat)
    requires MapOk(sb, d.bm) && b < sb.size && b / BPB < |d.bm| && b < |d.store|
    ensures var e := d.(bm := SetBit(d.bm, b), store := d.store[b := Zeros()]);
            Recorded(sb, d, l, e, l + {BBlock(sb, b), b}) == true
  {
    var e := d.(bm := SetBit(d.bm, b));
    BitsRecorded(sb, d, l, b, e.bm);
    DataOn(sb, d, l, e, l + {BBlock(sb, b)}, b, Zeros());
    assert l + {BBlock(sb, b)} + {b} == l + {BBlock(sb, b), b};
  }

  lemma InodeRecorded(sb: Super, d: Image, l: set<int>, i: nat, ino: Inode)
    requires i < |d.dinodes|
    ensures Recorded(sb, d, l, d.(dinodes := d.dinodes[i := ino]), l + {IBlock(sb, i)})
  {
    RecordedIff(sb, d, l, d.(dinodes := d.dinodes[i := ino]), l + {IBlock(sb, i)});
  }
}
