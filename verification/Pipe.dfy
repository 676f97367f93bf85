/** pipe.c: a pipe with any number of readers and writers. A method is what one process does while it holds the
    pipe's lock, from acquiring it to releasing it, be it by returning or by going to sleep; a run is any sequence
    of them. */
module Pipe {

  const PIPESIZE := 512
  const TWO32 := 0x1_0000_0000

  /** What a process is doing with the pipe: nothing, or in the middle of a read or write of which `asleep` says
      whether it waits to be woken. A writer still has `todo` to write. */
  datatype Proc = Idle | Reader(n: nat, asleep: bool) | Writer(todo: seq<int>, asleep: bool)

  type Procs = map<int, Proc>

  /** wakeup(&p->nread) and wakeup(&p->nwrite). */
  function WakeReaders(procs: Procs): Procs {
    map p | p in procs :: if procs[p].Reader? then Reader(procs[p].n, false) else procs[p]
  }

  function WakeWriters(procs: Procs): Procs {
    map p | p in procs :: if procs[p].Writer? then Writer(procs[p].todo, false) else procs[p]
  }

  function Awake(q: Proc): Proc {
    match q
    case Idle => Idle
    case Reader(n, _) => Reader(n, false)
    case Writer(todo, _) => Writer(todo, false)
  }

  predicate ReaderAsleep(q: Proc) { q.Reader? && q.asleep }
  predicate WriterAsleep(q: Proc) { q.Writer? && q.asleep }

  ghost predicate SomeReaderAsleep(procs: Procs) { exists p :: p in procs && ReaderAsleep(procs[p]) }

  // ---- the buffer ----

  /** `count` bytes have gone in and `taken` have come out; 32-bit counters, a ring of 512 bytes. */
  ghost predicate Buffer(data: seq<int>, nread: int, nwrite: int, accepted: seq<int>, delivered: seq<int>) {
    && |data| == PIPESIZE
    && |delivered| <= |accepted| <= |delivered| + PIPESIZE
    && nread == |delivered| % TWO32 && nwrite == |accepted| % TWO32
    && (forall k :: 0 <= k < |delivered| ==> delivered[k] == accepted[k])
    && (forall k :: |delivered| <= k < |accepted| ==> data[k % PIPESIZE] == accepted[k])
  }

  /** Bytes come out in the order they went in. */
  lemma DeliveredIsPrefix(data: seq<int>, nread: int, nwrite: int, accepted: seq<int>, delivered: seq<int>)
    requires Buffer(data, nread, nwrite, accepted, delivered)
    ensures delivered <= accepted
  {
  }

  /** The code's tests on wrapping counters are tests on the true counts. */
  lemma Counters(r: nat, w: nat)
    requires r <= w <= r + PIPESIZE
    ensures w % TWO32 == (r % TWO32 + PIPESIZE) % TWO32 <==> w == r + PIPESIZE
    ensures r % TWO32 == w % TWO32 <==> r == w
    ensures (w % TWO32) % PIPESIZE == w % PIPESIZE && (r % TWO32) % PIPESIZE == r % PIPESIZE
    ensures (w % TWO32 + 1) % TWO32 == (w + 1) % TWO32 && (r % TWO32 + 1) % TWO32 == (r + 1) % TWO32
  {
    ModMod(w);
    ModMod(r);
    NextMod(w);
    NextMod(r);
    WrapEqual(r, w, PIPESIZE);
    WrapEqual(r, w, 0);
  }

  lemma ModMod(x: nat)
    ensures (x % TWO32) % PIPESIZE == x % PIPESIZE
  {
  }

  lemma NextMod(x: nat)
    ensures (x % TWO32 + 1) % TWO32 == (x + 1) % TWO32
  {
  }

  lemma WrapEqual(r: nat, w: nat, d: nat)
    requires r <= w <= r + PIPESIZE && d <= PIPESIZE
    ensures w % TWO32 == (r % TWO32 + d) % TWO32 <==> w == r + d
  {
  }

  /** Two counts less than a ring apart have different places. */
  lemma PlacesDiffer(k: nat, w: nat)
    requires k < w < k + PIPESIZE
    ensures k % PIPESIZE != w % PIPESIZE
  {
  }

  lemma PutKeeps(data: seq<int>, nread: int, nwrite: int, accepted: seq<int>, delivered: seq<int>, b: int)
    requires Buffer(data, nread, nwrite, accepted, delivered) && |accepted| < |delivered| + PIPESIZE
    ensures 0 <= nwrite % PIPESIZE < PIPESIZE
    ensures Buffer(data[nwrite % PIPESIZE := b], nread, (nwrite + 1) % TWO32, accepted + [b], delivered)
  {
    Counters(|delivered|, |accepted|);
    var data', acc' := data[nwrite % PIPESIZE := b], accepted + [b];
    forall k | |delivered| <= k < |acc'| ensures data'[k % PIPESIZE] == acc'[k] {
      if k < |accepted| { PlacesDiffer(k, |accepted|); }
    }
  }

  lemma GetKeeps(data: seq<int>, nread: int, nwrite: int, accepted: seq<int>, delivered: seq<int>)
    requires Buffer(data, nread, nwrite, accepted, delivered) && |delivered| < |accepted|
    ensures 0 <= nread % PIPESIZE < PIPESIZE && data[nread % PIPESIZE] == accepted[|delivered|]
    ensures Buffer(data, (nread + 1) % TWO32, nwrite, accepted, delivered + [data[nread % PIPESIZE]])
  {
    Counters(|delivered|, |accepted|);
  }

  // ---- nobody sleeps in vain ----

  /** A reader sleeps only on an empty pipe that can still be written; a writer only on a full one that can still
      be read. */
  ghost predicate NoneForgotten(procs: Procs, readopen: bool, writeopen: bool, held: int) {
    && (forall p :: p in procs && ReaderAsleep(procs[p]) ==> held == 0 && writeopen)
    && (forall p :: p in procs && WriterAsleep(procs[p]) ==> held == PIPESIZE && readopen)
  }

  /** An end that is closed has no process in a call on it: each would hold it open. */
  ghost predicate EndsHeld(procs: Procs, readopen: bool, writeopen: bool) {
    && (forall p :: p in procs && procs[p].Reader? ==> readopen)
    && (forall p :: p in procs && procs[p].Writer? ==> writeopen)
  }

  class PipeBuf {
    var data: seq<int>
    var nread: int
    var nwrite: int
    var readopen: bool
    var writeopen: bool
    var procs: Procs
    var killed: set<int>
    /** All bytes ever put in and taken out. */
    ghost var accepted: seq<int>
    ghost var delivered: seq<int>

    ghost predicate Valid()
      reads this
    {
      Buffer(data, nread, nwrite, accepted, delivered) && EndsHeld(procs, readopen, writeopen)
    }

    /** How many bytes are in the pipe. */
    ghost function Held(): int
      reads this
    {
      |accepted| - |delivered|
    }

    ghost predicate Quiet()
      reads this
    {
      NoneForgotten(procs, readopen, writeopen, Held())
    }

    constructor ()
      ensures Valid() && Quiet() && readopen && writeopen && accepted == delivered == []
      ensures procs == map[] && killed == {}
    {
      data := seq(PIPESIZE, i => 0);
      nread, nwrite, readopen, writeopen := 0, 0, true, true;
      procs, killed, accepted, delivered := map[], {}, [], [];
    }

    /** The part of pipewrite's loops that stores bytes: it stops when all are in or the pipe is full. */
    method Store(todo: seq<int>) returns (i: nat)
      requires Valid()
      modifies this`data, this`nwrite, this`accepted
      ensures Valid() && i <= |todo| && accepted == old(accepted) + todo[..i]
      ensures i < |todo| ==> Held() == PIPESIZE
      ensures i == |todo| <==> old(Held()) + |todo| <= PIPESIZE
    {
      i := 0;
      while i < |todo|
        invariant 0 <= i <= |todo| && Valid() && accepted == old(accepted) + todo[..i] && Held() <= PIPESIZE
      {
        Counters(|delivered|, |accepted|);
        if nwrite == (nread + PIPESIZE) % TWO32 { return; }
        PutKeeps(data, nread, nwrite, accepted, delivered, todo[i]);
        data := data[nwrite % PIPESIZE := todo[i]];
        nwrite := (nwrite + 1) % TWO32;
        accepted := accepted + [todo[i]];
        i := i + 1;
      }
    }

    /** pipewrite, from the top of its inner while loop with `todo` left to write. It writes all and returns, or
        fails with a full pipe, or falls asleep. Nobody is forgotten, except exactly by a killed writer that has
        more bytes than fit while a reader sleeps. */
    method Write(pid: int, todo: seq<int>) returns (failed: bool)
      requires Valid() && Quiet() && writeopen
      requires pid in procs && (procs[pid] == Idle || procs[pid] == Writer(todo, false))
      modifies this`data, this`nwrite, this`accepted, this`procs
      ensures Valid() && old(accepted) <= accepted <= old(accepted) + todo
      ensures procs.Keys == old(procs).Keys && (procs[pid].Idle? || WriterAsleep(procs[pid]))
      ensures !failed && procs[pid].Idle? ==> accepted == old(accepted) + todo
      ensures WriterAsleep(procs[pid]) ==> accepted + procs[pid].todo == old(accepted) + todo
      ensures procs[pid].Writer? <==> old(Held()) + |todo| > PIPESIZE && readopen && pid !in killed
      ensures failed <==> old(Held()) + |todo| > PIPESIZE && (!readopen || pid in killed)
      ensures failed ==> Held() == PIPESIZE && procs == old(procs)[pid := Idle]
      ensures Quiet() <==> !(pid in killed && SomeReaderAsleep(old(procs)) && old(Held()) + |todo| > PIPESIZE)
      ensures !failed ==> forall p :: p in procs && p != pid ==>
                procs[p] == match old(procs)[p] { case Reader(n, _) => Reader(n, false) case q => q }
    {
      var i := Store(todo);
      if i < |todo| {
        if !readopen || pid in killed {
          procs := procs[pid := Idle];
          return true;
        }
        procs := WakeReaders(procs)[pid := Writer(todo[i..], true)];
        return false;
      }
      assert todo[..i] == todo;
      procs := WakeReaders(procs)[pid := Idle];
      failed := false;
    }

    /** piperead, from the top of its first loop. It returns bytes (none at the end of a closed pipe), or -1, or
        falls asleep. Nobody is forgotten. */
    method Read(pid: int, n: nat) returns (failed: bool, out: seq<int>)
      requires Valid() && Quiet() && readopen
      requires pid in procs && (procs[pid] == Idle || procs[pid] == Reader(n, false))
      modifies this`nread, this`delivered, this`procs
      ensures Valid() && Quiet() && procs.Keys == old(procs).Keys && !procs[pid].Writer?
      ensures delivered == old(delivered) + out && |out| <= n
      ensures procs[pid].Reader? <==> old(Held()) == 0 && writeopen && pid !in killed
      ensures procs[pid].Reader? ==> !failed && out == [] && procs == old(procs)[pid := Reader(n, true)]
      ensures procs[pid].Reader? || failed ==> Held() == 0 && writeopen
      ensures failed <==> old(Held()) == 0 && writeopen && pid in killed
      ensures failed ==> out == [] && procs == old(procs)[pid := Idle]
      ensures procs[pid].Idle? && !failed ==> |out| == if n <= old(Held()) then n else old(Held())
      ensures procs[pid].Idle? && !failed ==> forall p :: p in procs && p != pid ==>
                procs[p] == match old(procs)[p] { case Writer(todo, _) => Writer(todo, false) case q => q }
      ensures procs[pid].Idle? && !failed ==> |out| == n || Held() == 0
      ensures procs[pid].Idle? && !failed ==> out != [] || n == 0 || !writeopen
    {
      failed, out := false, [];
      Counters(|delivered|, |accepted|);
      if nread == nwrite && writeopen {
        if pid in killed {
          procs := procs[pid := Idle];
          return true, [];
        }
        procs := procs[pid := Reader(n, true)];
        return;
      }
      out := Fetch(n);
      procs := WakeWriters(procs)[pid := Idle];
    }

    /** piperead's second loop. */
    method Fetch(n: nat) returns (out: seq<int>)
      requires Valid()
      modifies this`nread, this`delivered
      ensures Valid() && delivered == old(delivered) + out
      ensures |out| == if n <= old(Held()) then n else old(Held())
    {
      out := [];
      while |out| < n
        invariant |out| <= n && Valid() && delivered == old(delivered) + out
      {
        Counters(|delivered|, |accepted|);
        if nread == nwrite { break; }
        GetKeeps(data, nread, nwrite, accepted, delivered);
        delivered := delivered + [data[nread % PIPESIZE]];
        out := out + [data[nread % PIPESIZE]];
        nread := (nread + 1) % TWO32;
      }
    }

    /** pipeclose of the write end, when its last holder lets go: nobody is in a write. */
    method CloseWrite()
      requires Valid() && Quiet() && forall p :: p in procs ==> !procs[p].Writer?
      modifies this`writeopen, this`procs
      ensures Valid() && Quiet() && !writeopen && procs.Keys == old(procs).Keys
      ensures forall p :: p in procs ==>
                procs[p] == match old(procs)[p] { case Reader(n, _) => Reader(n, false) case q => q }
    {
      writeopen := false;
      procs := WakeReaders(procs);
    }

    /** pipeclose of the read end. */
    method CloseRead()
      requires Valid() && Quiet() && forall p :: p in procs ==> !procs[p].Reader?
      modifies this`readopen, this`procs
      ensures Valid() && Quiet() && !readopen && procs.Keys == old(procs).Keys
      ensures forall p :: p in procs ==>
                procs[p] == match old(procs)[p] { case Writer(todo, _) => Writer(todo, false) case q => q }
    {
      readopen := false;
      procs := WakeWriters(procs);
    }

    /** kill of a process that may be asleep here. */
    method Kill(pid: int)
      requires Valid() && Quiet() && pid in procs
      modifies this`killed, this`procs
      ensures Valid() && Quiet() && killed == old(killed) + {pid}
      ensures procs == old(procs)[pid := match old(procs)[pid] {
                                           case Idle => Idle
                                           case Reader(n, _) => Reader(n, false)
                                           case Writer(todo, _) => Writer(todo, false)
                                         }]
    {
      killed := killed + {pid};
      procs := procs[pid := Awake(procs[pid])];
    }

    /** A process gets the pipe. */
    method Join(pid: int)
      requires Valid() && Quiet() && pid !in procs
      modifies this`procs
      ensures Valid() && Quiet() && procs == old(procs)[pid := Idle]
    {
      procs := procs[pid := Idle];
    }
  }

  /** A run that forgets a reader: process 1 sleeps on the empty pipe, process 2 is killed and then writes 513
      bytes; the pipe is full and process 1 still asleep. */
  method ForgottenReader() returns (p: PipeBuf)
    ensures fresh(p) && p.Valid() && !p.Quiet() && p.Held() == PIPESIZE
    ensures 1 in p.procs && ReaderAsleep(p.procs[1])
  {
    p := new PipeBuf();
    p.Join(1);
    p.Join(2);
    p.Kill(2);
    var f, out := p.Read(1, 1);
    var todo := seq(PIPESIZE + 1, i => 0);
    assert 1 in p.procs && ReaderAsleep(p.procs[1]);
    var g := p.Write(2, todo);
  }
}
