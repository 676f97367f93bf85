/** log.c as mutable state: the in-memory header, the cached blocks and the disk they share.
    `trace` records every disk image in the order the block writes produce them, so a contract about
    `trace` is a contract about a crash after any one write. */
module LogCode {
  import opened LogSpec

  class Log {
    const l: Layout
    var disk: Disk
    /** Contents of the valid buffers, and which of them carry B_DIRTY. */
    var cache: map<int, Block>
    var dirty: set<int>
    /** `log.lh`, `log.outstanding`, `log.committing`. */
    var n: nat
    var block: array<int>
    var outstanding: nat
    var committing: bool
    ghost var trace: seq<Disk>

    ghost predicate Valid()
      reads this, block
    {
      && LayoutOk(l) && |disk| == l.total && |disk[l.start].words| == NWORDS
      && block.Length == LOGSIZE && n <= LOGSIZE
      && (forall b :: b in cache ==> 0 <= b < l.total)
      && (forall b :: b in dirty ==> b in cache && Home(l, b))
      && (forall b :: b in cache && b !in dirty ==> cache[b] == disk[b])
    }

    /** Block numbers of the pending transaction. */
    ghost function Header(): seq<int>
      reads this, block
      requires n <= block.Length
    {
      block[..n]
    }

    /** Boot: nothing cached, header not read yet. */
    constructor (layout: Layout, image: Disk)
      requires LogOk(layout, image)
      ensures Valid() && l == layout && disk == image && cache == map[] && dirty == {}
      ensures n == 0 && outstanding == 0 && !committing && trace == [] && fresh(block)
    {
      l := layout;
      disk := image;
      cache, dirty := map[], {};
      n, outstanding, committing, trace := 0, 0, false, [];
      block := new int[LOGSIZE];
    }

    /** `bread`: any clean buffers may be recycled to make room; a dirty one never is. */
    method Bread(b: int) returns (data: Block)
      requires Valid() && 0 <= b < l.total
      modifies this`cache
      ensures Valid()
      ensures data == View(disk, old(cache), b) && b in cache && cache[b] == data
      ensures forall x :: 0 <= x < l.total ==> View(disk, cache, x) == View(disk, old(cache), x)
    {
      data := View(disk, cache, b);
      assert {} <= cache.Keys - dirty;
      var victims: set<int> :| victims <= cache.Keys - dirty;
      cache := (cache - victims)[b := data];
    }

    /** `bwrite`: one synchronous block write; iderw clears B_DIRTY. */
    method Bwrite(b: int, data: Block)
      requires Valid() && 0 <= b < l.total && (b == l.start ==> |data.words| == NWORDS)
      modifies this`disk, this`cache, this`dirty, this`trace
      ensures Valid()
      ensures disk == old(disk)[b := data] && trace == old(trace) + [disk]
      ensures dirty == old(dirty) - {b}
      ensures forall x :: 0 <= x < l.total && x != b ==> View(disk, cache, x) == old(View(disk, cache, x))
    {
      disk := disk[b := data];
      cache := cache[b := data];
      dirty := dirty - {b};
      trace := trace + [disk];
    }

    /** One iteration of `write_log`. */
    method CopyToLog(tail: nat)
      requires Valid() && tail < n && tail + 1 < l.size && Home(l, block[tail])
      modifies this`disk, this`cache, this`dirty, this`trace
      ensures Valid() && dirty == old(dirty)
      ensures disk == old(disk)[l.start + tail + 1 := old(View(disk, cache, block[tail]))]
      ensures trace == old(trace) + [disk]
      ensures forall x :: Home(l, x) ==> View(disk, cache, x) == old(View(disk, cache, x))
    {
      var to := Bread(l.start + tail + 1);
      var from := Bread(block[tail]);
      Bwrite(l.start + tail + 1, from);
    }

    /** Copy the newest contents of each logged block into its log slot. */
    method WriteLog()
      requires Valid() && TransOk(l, Header())
      modifies this`disk, this`cache, this`dirty, this`trace
      ensures Valid() && dirty == old(dirty)
      ensures var vals := old(Views(disk, cache, Header()));
              && disk == LogFilled(l, old(disk), vals, n)
              && trace == old(trace) + FillImages(l, old(disk), vals, n)
    {
      ghost var lh := Header();
      ghost var vals := Views(disk, cache, lh);
      var tail := 0;
      while tail < n
        invariant tail <= n
        invariant Valid() && dirty == old(dirty)
        invariant disk == LogFilled(l, old(disk), vals, tail)
        invariant trace == old(trace) + FillImages(l, old(disk), vals, tail)
        invariant forall x :: Home(l, x) ==> View(disk, cache, x) == old(View(disk, cache, x))
      {
        assert Home(l, lh[tail]) && vals[tail] == View(disk, cache, lh[tail]);
        CopyToLog(tail);
        tail := tail + 1;
      }
    }

    /** Write the in-memory header over the header block. */
    method WriteHead()
      requires Valid()
      modifies this`disk, this`cache, this`dirty, this`trace
      ensures Valid() && dirty == old(dirty)
      ensures disk == old(disk)[l.start := WriteHeader(old(disk)[l.start], Header())]
      ensures trace == old(trace) + [disk]
    {
      var buf := Bread(l.start);
      var words := buf.words[0 := n];
      var i := 0;
      while i < n
        invariant i <= n && |words| == NWORDS
        invariant words == [n] + block[..i] + buf.words[1 + i..]
      {
        words := words[1 + i := block[i]];
        i := i + 1;
      }
      Bwrite(l.start, Block(words));
    }

    /** One iteration of `install_trans`. */
    method CopyHome(tail: nat)
      requires Valid() && tail < n && tail + 1 < l.size && Home(l, block[tail])
      modifies this`disk, this`cache, this`dirty, this`trace
      ensures Valid() && dirty == old(dirty) - {block[tail]}
      ensures disk == old(disk)[block[tail] := old(disk)[l.start + tail + 1]]
      ensures trace == old(trace) + [disk]
    {
      var lbuf := Bread(l.start + tail + 1);
      var dbuf := Bread(block[tail]);
      Bwrite(block[tail], lbuf);
    }

    /** Copy each log slot to the home block the header names. */
    method InstallTrans()
      requires Valid() && TransOk(l, Header())
      modifies this`disk, this`cache, this`dirty, this`trace
      ensures Valid()
      ensures forall b :: b in dirty <==> b in old(dirty) && b !in Header()
      ensures disk == Install(l, old(disk), Header(), n)
      ensures trace == old(trace) + InstallImages(l, old(disk), Header(), n)
    {
      ghost var lh := Header();
      var tail := 0;
      while tail < n
        invariant tail <= n
        invariant Valid()
        invariant dirty <= old(dirty)
        invariant forall j :: 0 <= j < tail ==> lh[j] !in dirty
        invariant forall b :: b in old(dirty) && b !in lh ==> b in dirty
        invariant disk == Install(l, old(disk), lh, tail)
        invariant trace == old(trace) + InstallImages(l, old(disk), lh, tail)
      {
        assert Home(l, lh[tail]);
        CopyHome(tail);
        tail := tail + 1;
      }
    }

    /** The disk writes of a non-empty `commit`, in order. */
    method CommitWrites()
      requires Valid() && TransOk(l, Header())
      modifies this`disk, this`cache, this`dirty, this`trace, this`n
      ensures Valid() && n == 0
      ensures forall b :: b in dirty <==> b in old(dirty) && b !in old(Header())
      ensures var images := CommitImages(l, old(disk), old(Header()), old(Views(disk, cache, Header())));
              trace == old(trace) + images && disk == images[|images| - 1]
    {
      ghost var lh := Header();
      ghost var vals := Views(disk, cache, lh);
      WriteLog();
      WriteHead();
      ghost var s := Sealed(l, old(disk), lh, vals);
      LogFilledAt(l, old(disk), vals, |vals|, l.start);
      assert disk == s;
      InstallTrans();
      InstallAt(l, s, lh, |lh|, l.start);
      n := 0;
      assert Header() == [];
      WriteHead();
      Assoc5(old(trace), FillImages(l, old(disk), vals, |vals|), [s], InstallImages(l, s, lh, |lh|), [disk]);
    }

    /** Commit the pending transaction. Every disk image it goes through recovers to the old contents up
        to the header write and to the whole transaction from then on. */
    method Commit()
      requires Valid() && TransOk(l, Header())
      requires LogEmpty(l, disk)
      modifies this`disk, this`cache, this`dirty, this`trace, this`n
      ensures Valid() && n == 0
      ensures LogEmpty(l, disk)
      ensures Carries(l, disk, old(disk), old(Header()), old(Views(disk, cache, Header())))
      ensures forall b :: b in dirty <==> b in old(dirty) && b !in old(Header())
      ensures |trace| == |old(trace)| + (if old(n) > 0 then 2 * old(n) + 2 else 0) && old(trace) <= trace
      ensures forall i :: |old(trace)| <= i < |trace| ==>
                && LogOk(l, trace[i])
                && (i < |old(trace)| + old(n) ==> SameHome(l, Recovered(l, trace[i]), old(disk)))
                && (i >= |old(trace)| + old(n) ==>
                      Carries(l, Recovered(l, trace[i]), old(disk), old(Header()), old(Views(disk, cache, Header()))))
    {
      if n > 0 {
        ghost var lh, d0 := Header(), disk;
        ghost var vals := Views(disk, cache, lh);
        CommitWrites();
        CommitAtomic(l, d0, lh, vals);
        CommitFinishes(l, d0, lh, vals);
      }
    }

    /** Read the on-disk header into memory. */
    method ReadHead()
      requires Valid() && LogOk(l, disk)
      modifies this`cache, this`n, block
      ensures Valid() && Header() == ReadHeader(disk[l.start])
    {
      var buf := Bread(l.start);
      assert l.start !in dirty;
      n := buf.words[0];
      var i := 0;
      while i < n
        invariant i <= n && Valid() && n == buf.words[0]
        invariant block[..i] == buf.words[1..1 + i]
      {
        block[i] := buf.words[1 + i];
        i := i + 1;
      }
    }

    /** Boot-time recovery, with the same outcome from every disk image it goes through. */
    method RecoverFromLog()
      requires Valid() && LogOk(l, disk) && dirty == {}
      modifies this`disk, this`cache, this`dirty, this`trace, this`n, block
      ensures Valid() && n == 0 && dirty == {}
      ensures disk == Recovered(l, old(disk))
      ensures LogEmpty(l, disk)
      ensures |trace| > |old(trace)| && old(trace) <= trace
      ensures forall i :: |old(trace)| <= i < |trace| ==>
                LogOk(l, trace[i]) && SameHome(l, Recovered(l, trace[i]), Recovered(l, old(disk)))
    {
      ghost var d0 := disk;
      ReadHead();
      ghost var lh := Header();
      InstallTrans();
      InstallAt(l, d0, lh, |lh|, l.start);
      n := 0;
      assert Header() == [];
      WriteHead();
      RecoveredClears(l, d0);
      assert trace == old(trace) + RecoveryImages(l, d0);
      assert forall b :: b !in dirty;
      RecoveryAtomic(l, d0);
    }

    /** One pass of the `begin_op` loop: admitted, or told to sleep. */
    method BeginOp() returns (admitted: bool)
      requires Valid()
      modifies this`outstanding
      ensures admitted <==> !committing && n + (old(outstanding) + 1) * MAXOPBLOCKS <= LOGSIZE
      ensures outstanding == old(outstanding) + (if admitted then 1 else 0)
    {
      if committing {
        admitted := false;
      } else if n + (outstanding + 1) * MAXOPBLOCKS > LOGSIZE {
        admitted := false;
      } else {
        outstanding := outstanding + 1;
        admitted := true;
      }
    }

    /** The locked part of `end_op`: the last operation out claims the commit. */
    method EndOp() returns (doCommit: bool)
      requires Valid() && outstanding > 0 && !committing
      modifies this`outstanding, this`committing
      ensures outstanding == old(outstanding) - 1
      ensures doCommit == committing == (outstanding == 0)
    {
      outstanding := outstanding - 1;
      doCommit := false;
      if outstanding == 0 {
        doCommit := true;
        committing := true;
      }
    }

    /** `log_write`: absorb or append, and pin the buffer. False is one of its two panics. */
    method LogWrite(b: int) returns (ok: bool)
      requires Valid() && Home(l, b) && b in cache
      requires Distinct(Header())
      modifies this`n, this`dirty, block
      ensures Valid() && Distinct(Header())
      ensures ok <==> old(n) < LOGSIZE && old(n) + 1 < l.size && outstanding >= 1
      ensures ok ==> Header() == (if b in old(Header()) then old(Header()) else old(Header()) + [b])
      ensures ok ==> dirty == old(dirty) + {b}
      ensures !ok ==> n == old(n) && dirty == old(dirty) && block[..] == old(block[..])
    {
      if n >= LOGSIZE || n >= l.size - 1 {
        return false;
      }
      if outstanding < 1 {
        return false;
      }
      var i := 0;
      while i < n && block[i] != b
        invariant i <= n && b !in block[..i]
      {
        i := i + 1;
      }
      ghost var before := block[..n];
      block[i] := b;
      if i == n {
        n := n + 1;
        assert block[..n] == before + [b];
        DistinctSnoc(before, b);
      } else {
        assert before[i] == b && block[..n] == before;
      }
      dirty := dirty + {b};
      ok := true;
    }
  }
}
