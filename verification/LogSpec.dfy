/** The on-disk redo log of log.c: disk images, the header codec, and what recovery makes of an image.
    A block is its 128 32-bit words; a disk write replaces one whole block atomically. */
module LogSpec {

  const MAXOPBLOCKS: nat := 10
  const LOGSIZE: nat := 30
  const NWORDS: nat := 128

  datatype Block = Block(words: seq<int>)
  type Disk = seq<Block>

  /** Superblock facts used by the log: `start` is the header block, `start + 1 ..` hold logged copies. */
  datatype Layout = Layout(start: nat, size: nat, total: nat)

  predicate LayoutOk(l: Layout) {
    0 < l.size && l.start + l.size <= l.total
  }

  predicate InLog(l: Layout, b: int) {
    l.start <= b < l.start + l.size
  }

  predicate Home(l: Layout, b: int) {
    0 <= b < l.total && !InLog(l, b)
  }

  predicate At(s: seq<int>, i: int, b: int) {
    0 <= i < |s| && s[i] == b
  }

  /** No block number at two positions. */
  ghost predicate Distinct(s: seq<int>) {
    forall i, j, b :: At(s, i, b) && At(s, j, b) ==> i == j
  }

  /** A transaction that fits the log: distinct home blocks, one log slot each. */
  ghost predicate TransOk(l: Layout, lh: seq<int>) {
    && |lh| <= LOGSIZE
    && |lh| + 1 <= l.size
    && (forall i :: 0 <= i < |lh| ==> Home(l, lh[i]))
    && Distinct(lh)
  }

  /** The set of block numbers in lh[from..]. */
  function BlockSet(lh: seq<int>, from: nat): set<int>
    decreases |lh| - from
  {
    if from >= |lh| then {} else {lh[from]} + BlockSet(lh, from + 1)
  }

  lemma {:induction false} BlockSetHas(lh: seq<int>, from: nat, b: int)
    requires from <= |lh|
    ensures b in BlockSet(lh, from) <==> b in lh[from..]
    decreases |lh| - from
  {
    if from < |lh| {
      BlockSetHas(lh, from + 1, b);
      assert lh[from..] == [lh[from]] + lh[from + 1..];
    }
  }

  lemma {:induction false} BlockSetSnoc(lh: seq<int>, from: nat, b: int)
    requires from <= |lh|
    ensures BlockSet(lh + [b], from) == BlockSet(lh, from) + {b}
    decreases |lh| - from
  {
    if from < |lh| {
      BlockSetSnoc(lh, from + 1, b);
    } else {
      assert BlockSet(lh + [b], from + 1) == {};
    }
  }

  lemma BlockSetDistinct(lh: seq<int>, from: nat)
    requires from < |lh| && Distinct(lh)
    ensures lh[from] !in BlockSet(lh, from + 1)
  {
    BlockSetHas(lh, from + 1, lh[from]);
    if lh[from] in lh[from + 1..] {
      var j :| from + 1 <= j < |lh| && lh[j] == lh[from];
      assert At(lh, j, lh[from]) && At(lh, from, lh[from]);
    }
  }

  lemma DistinctSnoc(lh: seq<int>, b: int)
    requires Distinct(lh) && b !in lh
    ensures Distinct(lh + [b])
  {
    assert forall i, x :: At(lh + [b], i, x) ==> if i < |lh| then At(lh, i, x) else x == b;
  }

  // ---- header block ----

  /** The block numbers a header block names (`read_head`). */
  function ReadHeader(h: Block): seq<int> {
    if HeaderOk(h) then h.words[1..1 + h.words[0]] else []
  }

  predicate HeaderOk(h: Block) {
    |h.words| == NWORDS && 0 <= h.words[0] <= LOGSIZE
  }

  /** `write_head` stores the count and the first `n` entries; later words keep their old value. */
  function WriteHeader(h: Block, lh: seq<int>): Block {
    Block([|lh|] + lh + (if 1 + |lh| <= |h.words| then h.words[1 + |lh|..] else []))
  }

  lemma HeaderRoundTrip(h: Block, lh: seq<int>)
    requires |h.words| == NWORDS && |lh| <= LOGSIZE
    ensures HeaderOk(WriteHeader(h, lh)) && ReadHeader(WriteHeader(h, lh)) == lh
  {
  }

  // ---- recovery ----

  /** A disk whose header names a well-formed (possibly empty) transaction. */
  ghost predicate LogOk(l: Layout, d: Disk) {
    && LayoutOk(l) && |d| == l.total
    && HeaderOk(d[l.start])
    && TransOk(l, ReadHeader(d[l.start]))
  }

  /** A sound disk whose header says that nothing is logged. */
  predicate LogEmpty(l: Layout, d: Disk) {
    LayoutOk(l) && |d| == l.total && |d[l.start].words| == NWORDS && d[l.start].words[0] == 0
  }

  /** The disk after the first `k` iterations of `install_trans`. */
  function Install(l: Layout, d: Disk, lh: seq<int>, k: nat): (r: Disk)
    requires LayoutOk(l) && |d| == l.total && TransOk(l, lh) && k <= |lh|
    ensures |r| == |d|
  {
    if k == 0 then d
    else
      var e := Install(l, d, lh, k - 1);
      e[lh[k - 1] := e[l.start + k]]
  }

  lemma {:induction false} InstallAt(l: Layout, d: Disk, lh: seq<int>, k: nat, b: nat)
    requires LayoutOk(l) && |d| == l.total && TransOk(l, lh) && k <= |lh| && b < l.total
    ensures InLog(l, b) ==> Install(l, d, lh, k)[b] == d[b]
    ensures b !in lh[..k] ==> Install(l, d, lh, k)[b] == d[b]
    ensures forall j :: 0 <= j < k && lh[j] == b ==> Install(l, d, lh, k)[b] == d[l.start + 1 + j]
  {
    if k > 0 {
      InstallAt(l, d, lh, k - 1, b);
      InstallAt(l, d, lh, k - 1, l.start + k);
      assert lh[..k] == lh[..k - 1] + [lh[k - 1]];
      assert forall j :: 0 <= j < k && lh[j] == lh[k - 1] ==> At(lh, j, lh[k - 1]);
      assert At(lh, k - 1, lh[k - 1]);
    }
  }

  /** The disk after the first `k` block writes of `recover_from_log`. */
  function RecoveryImage(l: Layout, d: Disk, k: nat): (r: Disk)
    requires LogOk(l, d) && k <= |ReadHeader(d[l.start])| + 1
    ensures |r| == |d|
  {
    var lh := ReadHeader(d[l.start]);
    if k <= |lh| then Install(l, d, lh, k)
    else Install(l, d, lh, |lh|)[l.start := WriteHeader(d[l.start], [])]
  }

  lemma RecoveryImageStep(l: Layout, d: Disk, lh: seq<int>, k: nat)
    requires LogOk(l, d) && lh == ReadHeader(d[l.start]) && k < |lh|
    ensures var e := RecoveryImage(l, d, k);
            && Home(l, lh[k])
            && RecoveryImage(l, d, k + 1) == e[lh[k] := e[l.start + 1 + k]]
  {
  }

  /** The disk after a recovery that ran to its end. */
  function Recovered(l: Layout, d: Disk): (r: Disk)
    requires LogOk(l, d)
    ensures |r| == |d|
  {
    RecoveryImage(l, d, |ReadHeader(d[l.start])| + 1)
  }

  /** Equal on every block outside the log area. */
  predicate SameHome(l: Layout, d: Disk, e: Disk) {
    |d| == |e| && forall b :: 0 <= b < |d| && !InLog(l, b) ==> d[b] == e[b]
  }

  lemma RecoveredAt(l: Layout, d: Disk, b: nat)
    requires LogOk(l, d) && Home(l, b)
    ensures b !in ReadHeader(d[l.start]) ==> Recovered(l, d)[b] == d[b]
    ensures forall j :: 0 <= j < |ReadHeader(d[l.start])| && ReadHeader(d[l.start])[j] == b
              ==> Recovered(l, d)[b] == d[l.start + 1 + j]
  {
    var lh := ReadHeader(d[l.start]);
    assert lh[..|lh|] == lh;
    InstallAt(l, d, lh, |lh|, b);
  }

  lemma RecoveredClears(l: Layout, d: Disk)
    requires LogOk(l, d)
    ensures LogEmpty(l, Recovered(l, d))
  {
  }

  lemma CrashDuringInstallAt(l: Layout, d: Disk, k: nat, b: nat)
    requires LogOk(l, d) && k <= |ReadHeader(d[l.start])| && Home(l, b)
    ensures LogOk(l, RecoveryImage(l, d, k))
    ensures Recovered(l, RecoveryImage(l, d, k))[b] == Recovered(l, d)[b]
  {
    var lh := ReadHeader(d[l.start]);
    var e := RecoveryImage(l, d, k);
    InstallAt(l, d, lh, k, l.start);
    assert e[l.start] == d[l.start];
    RecoveredAt(l, e, b);
    RecoveredAt(l, d, b);
    if b in lh {
      var j :| 0 <= j < |lh| && lh[j] == b;
      InstallAt(l, d, lh, k, l.start + 1 + j);
    } else {
      assert b !in lh[..k];
      InstallAt(l, d, lh, k, b);
    }
  }

  /** Recovery cut off after any number of its writes and started again has the same outcome. */
  lemma CrashDuringRecovery(l: Layout, d: Disk, k: nat)
    requires LogOk(l, d) && k <= |ReadHeader(d[l.start])| + 1
    ensures LogOk(l, RecoveryImage(l, d, k))
    ensures SameHome(l, Recovered(l, RecoveryImage(l, d, k)), Recovered(l, d))
  {
    var e := RecoveryImage(l, d, k);
    if k > |ReadHeader(d[l.start])| {
      RecoveredClears(l, d);
      forall b: nat | Home(l, b)
        ensures Recovered(l, e)[b] == e[b]
      {
        RecoveredAt(l, e, b);
      }
    } else {
      InstallAt(l, d, ReadHeader(d[l.start]), k, l.start);
      forall b: nat | Home(l, b)
        ensures Recovered(l, e)[b] == Recovered(l, d)[b]
      {
        CrashDuringInstallAt(l, d, k, b);
      }
    }
  }

  /** A machine that crashes during recovery |cuts| times, the i-th time after cuts[i] block writes. */
  ghost predicate CrashChain(l: Layout, images: seq<Disk>, cuts: seq<nat>) {
    && |images| == |cuts| + 1
    && (forall i :: 0 <= i < |images| ==> LogOk(l, images[i]))
    && forall i :: 0 <= i < |cuts| ==>
         && cuts[i] <= |ReadHeader(images[i][l.start])| + 1
         && images[i + 1] == RecoveryImage(l, images[i], cuts[i])
  }

  lemma {:induction false} RepeatedCrashes(l: Layout, images: seq<Disk>, cuts: seq<nat>)
    requires CrashChain(l, images, cuts)
    ensures SameHome(l, Recovered(l, images[|cuts|]), Recovered(l, images[0]))
    decreases |cuts|
  {
    var n := |cuts|;
    if n > 0 {
      RepeatedCrashes(l, images[..n], cuts[..n - 1]);
      CrashDuringRecovery(l, images[n - 1], cuts[n - 1]);
    }
  }

  // ---- commit ----

  /** `write_log` after `k` iterations: log slot j holds vals[j]. */
  function LogFilled(l: Layout, d: Disk, vals: seq<Block>, k: nat): (r: Disk)
    requires LayoutOk(l) && |d| == l.total && |vals| + 1 <= l.size && k <= |vals|
    ensures |r| == |d|
  {
    if k == 0 then d else LogFilled(l, d, vals, k - 1)[l.start + k := vals[k - 1]]
  }

  lemma {:induction false} LogFilledAt(l: Layout, d: Disk, vals: seq<Block>, k: nat, b: nat)
    requires LayoutOk(l) && |d| == l.total && |vals| + 1 <= l.size && k <= |vals| && b < l.total
    ensures LogFilled(l, d, vals, k)[b] == if l.start < b <= l.start + k then vals[b - l.start - 1] else d[b]
  {
    if k > 0 {
      LogFilledAt(l, d, vals, k - 1, b);
    }
  }

  /** The disk once the header naming `lh` is written: the commit point. */
  function Sealed(l: Layout, d: Disk, lh: seq<int>, vals: seq<Block>): (r: Disk)
    requires LayoutOk(l) && |d| == l.total && TransOk(l, lh) && |vals| == |lh|
    ensures |r| == |d|
  {
    LogFilled(l, d, vals, |vals|)[l.start := WriteHeader(d[l.start], lh)]
  }

  /** The disk after the first `k` of the 2n + 2 block writes of `commit`. */
  function CommitImage(l: Layout, d: Disk, lh: seq<int>, vals: seq<Block>, k: nat): (r: Disk)
    requires LayoutOk(l) && |d| == l.total && TransOk(l, lh) && |vals| == |lh| && k <= 2 * |lh| + 2
    ensures |r| == |d|
  {
    var n := |lh|;
    if k <= n then LogFilled(l, d, vals, k)
    else if k <= 2 * n + 1 then Install(l, Sealed(l, d, lh, vals), lh, k - n - 1)
    else Install(l, Sealed(l, d, lh, vals), lh, n)[l.start := WriteHeader(WriteHeader(d[l.start], lh), [])]
  }

  /** Consecutive images differ by the one block written in between. */
  lemma CommitImageStep(l: Layout, d: Disk, lh: seq<int>, vals: seq<Block>, k: nat)
    requires LayoutOk(l) && |d| == l.total && TransOk(l, lh) && |vals| == |lh|
    ensures k < |lh| ==>
              CommitImage(l, d, lh, vals, k + 1) == CommitImage(l, d, lh, vals, k)[l.start + 1 + k := vals[k]]
    ensures |lh| < k <= 2 * |lh| ==>
              var e, j := CommitImage(l, d, lh, vals, k), k - |lh| - 1;
              && Home(l, lh[j])
              && CommitImage(l, d, lh, vals, k + 1) == e[lh[j] := e[l.start + 1 + j]]
  {
  }

  /** The intended effect of a transaction: at home, `now` is `base` with vals[i] in block lh[i]. */
  ghost predicate Carries(l: Layout, now: Disk, base: Disk, lh: seq<int>, vals: seq<Block>)
    requires |lh| == |vals|
  {
    && |now| == |base| == l.total
    && (forall i :: 0 <= i < |lh| ==> Home(l, lh[i]) && now[lh[i]] == vals[i])
    && forall b :: Home(l, b) && b !in BlockSet(lh, 0) ==> now[b] == base[b]
  }

  lemma SealedRecovers(l: Layout, d: Disk, lh: seq<int>, vals: seq<Block>)
    requires LogOk(l, d) && TransOk(l, lh) && |vals| == |lh|
    ensures LogOk(l, Sealed(l, d, lh, vals))
    ensures ReadHeader(Sealed(l, d, lh, vals)[l.start]) == lh
    ensures Carries(l, Recovered(l, Sealed(l, d, lh, vals)), d, lh, vals)
  {
    HeaderRoundTrip(d[l.start], lh);
    forall i | 0 <= i < |lh|
      ensures Recovered(l, Sealed(l, d, lh, vals))[lh[i]] == vals[i]
    {
      SealedRecoversLogged(l, d, lh, vals, i);
    }
    forall b | Home(l, b) && b !in BlockSet(lh, 0)
      ensures Recovered(l, Sealed(l, d, lh, vals))[b] == d[b]
    {
      SealedRecoversOther(l, d, lh, vals, b);
    }
  }

  lemma SealedRecoversLogged(l: Layout, d: Disk, lh: seq<int>, vals: seq<Block>, i: nat)
    requires LogOk(l, d) && TransOk(l, lh) && |vals| == |lh| && i < |lh|
    ensures LogOk(l, Sealed(l, d, lh, vals))
    ensures Recovered(l, Sealed(l, d, lh, vals))[lh[i]] == vals[i]
  {
    HeaderRoundTrip(d[l.start], lh);
    RecoveredAt(l, Sealed(l, d, lh, vals), lh[i]);
    LogFilledAt(l, d, vals, |vals|, l.start + 1 + i);
  }

  lemma SealedRecoversOther(l: Layout, d: Disk, lh: seq<int>, vals: seq<Block>, b: int)
    requires LogOk(l, d) && TransOk(l, lh) && |vals| == |lh| && Home(l, b) && b !in BlockSet(lh, 0)
    ensures LogOk(l, Sealed(l, d, lh, vals))
    ensures Recovered(l, Sealed(l, d, lh, vals))[b] == d[b]
  {
    HeaderRoundTrip(d[l.start], lh);
    BlockSetHas(lh, 0, b);
    assert lh[0..] == lh;
    RecoveredAt(l, Sealed(l, d, lh, vals), b);
    LogFilledAt(l, d, vals, |vals|, b);
  }

  /** The home contents of a transaction's outcome are determined. */
  lemma CarriesUnique(l: Layout, d: Disk, e: Disk, base: Disk, lh: seq<int>, vals: seq<Block>)
    requires |lh| == |vals| && Carries(l, d, base, lh, vals) && Carries(l, e, base, lh, vals)
    ensures SameHome(l, d, e)
  {
    forall b | 0 <= b < |d| && !InLog(l, b)
      ensures d[b] == e[b]
    {
      assert Home(l, b);
      if b in BlockSet(lh, 0) {
        BlockSetHas(lh, 0, b);
        assert lh[0..] == lh;
      }
    }
  }

  lemma SameHomeCarries(l: Layout, e: Disk, now: Disk, base: Disk, lh: seq<int>, vals: seq<Block>)
    requires |lh| == |vals| && SameHome(l, e, now) && Carries(l, now, base, lh, vals)
    ensures Carries(l, e, base, lh, vals)
  {
  }

  lemma UnsealedCrash(l: Layout, d: Disk, vals: seq<Block>, k: nat)
    requires LogEmpty(l, d) && |vals| + 1 <= l.size && k <= |vals|
    ensures LogOk(l, LogFilled(l, d, vals, k))
    ensures SameHome(l, Recovered(l, LogFilled(l, d, vals, k)), d)
  {
    var e := LogFilled(l, d, vals, k);
    LogFilledAt(l, d, vals, k, l.start);
    forall b: nat | Home(l, b)
      ensures Recovered(l, e)[b] == d[b]
    {
      RecoveredAt(l, e, b);
      LogFilledAt(l, d, vals, k, b);
    }
  }

  /** Crash atomicity: cut off after any k writes, commit leaves a disk that recovers to all-old while
      k <= n and to all-new from the header write on. */
  lemma CommitCrash(l: Layout, d: Disk, lh: seq<int>, vals: seq<Block>, k: nat)
    requires LogEmpty(l, d)
    requires TransOk(l, lh) && |vals| == |lh| && k <= 2 * |lh| + 2
    ensures LogOk(l, CommitImage(l, d, lh, vals, k))
    ensures k <= |lh| ==> SameHome(l, Recovered(l, CommitImage(l, d, lh, vals, k)), d)
    ensures k > |lh| ==> Carries(l, Recovered(l, CommitImage(l, d, lh, vals, k)), d, lh, vals)
  {
    var n := |lh|;
    var e := CommitImage(l, d, lh, vals, k);
    if k <= n {
      UnsealedCrash(l, d, vals, k);
    } else {
      var s := Sealed(l, d, lh, vals);
      SealedRecovers(l, d, lh, vals);
      var j := if k <= 2 * n + 1 then k - n - 1 else n + 1;
      InstallAt(l, s, lh, n, l.start);
      assert e == RecoveryImage(l, s, j);
      CrashDuringRecovery(l, s, j);
      SameHomeCarries(l, Recovered(l, e), Recovered(l, s), d, lh, vals);
    }
  }

  // ---- the images a run of block writes goes through ----

  function FillImages(l: Layout, d: Disk, vals: seq<Block>, k: nat): (r: seq<Disk>)
    requires LayoutOk(l) && |d| == l.total && |vals| + 1 <= l.size && k <= |vals|
    ensures |r| == k && forall i :: 0 <= i < k ==> r[i] == LogFilled(l, d, vals, i + 1)
  {
    if k == 0 then [] else FillImages(l, d, vals, k - 1) + [LogFilled(l, d, vals, k)]
  }

  function InstallImages(l: Layout, d: Disk, lh: seq<int>, k: nat): (r: seq<Disk>)
    requires LayoutOk(l) && |d| == l.total && TransOk(l, lh) && k <= |lh|
    ensures |r| == k && forall i :: 0 <= i < k ==> r[i] == Install(l, d, lh, i + 1)
  {
    if k == 0 then [] else InstallImages(l, d, lh, k - 1) + [Install(l, d, lh, k)]
  }

  /** `commit`: fill the log, seal it, install, clear the header. */
  function CommitImages(l: Layout, d: Disk, lh: seq<int>, vals: seq<Block>): (r: seq<Disk>)
    requires LayoutOk(l) && |d| == l.total && TransOk(l, lh) && |vals| == |lh|
  {
    var s := Sealed(l, d, lh, vals);
    FillImages(l, d, vals, |vals|) + [s] + InstallImages(l, s, lh, |lh|)
      + [Install(l, s, lh, |lh|)[l.start := WriteHeader(WriteHeader(d[l.start], lh), [])]]
  }

  /** `recover_from_log`: install, clear the header. */
  function RecoveryImages(l: Layout, d: Disk): (r: seq<Disk>)
    requires LogOk(l, d)
  {
    var lh := ReadHeader(d[l.start]);
    InstallImages(l, d, lh, |lh|) + [Install(l, d, lh, |lh|)[l.start := WriteHeader(d[l.start], [])]]
  }

  lemma CommitImagesAt(l: Layout, d: Disk, lh: seq<int>, vals: seq<Block>, i: nat)
    requires LayoutOk(l) && |d| == l.total && TransOk(l, lh) && |vals| == |lh| && i < 2 * |lh| + 2
    ensures |CommitImages(l, d, lh, vals)| == 2 * |lh| + 2
    ensures CommitImages(l, d, lh, vals)[i] == CommitImage(l, d, lh, vals, i + 1)
  {
  }

  /** Every image of a commit recovers to all-old or all-new, and which one flips once, at the header write. */
  lemma CommitAtomic(l: Layout, d: Disk, lh: seq<int>, vals: seq<Block>)
    requires LogEmpty(l, d)
    requires TransOk(l, lh) && |vals| == |lh|
    ensures |CommitImages(l, d, lh, vals)| == 2 * |lh| + 2
    ensures forall i :: 0 <= i < 2 * |lh| + 2 ==>
              var e := CommitImages(l, d, lh, vals)[i];
              && LogOk(l, e)
              && (i < |lh| ==> SameHome(l, Recovered(l, e), d))
              && (i >= |lh| ==> Carries(l, Recovered(l, e), d, lh, vals))
  {
    var r := CommitImages(l, d, lh, vals);
    forall i | 0 <= i < 2 * |lh| + 2
      ensures LogOk(l, r[i])
      ensures i < |lh| ==> SameHome(l, Recovered(l, r[i]), d)
      ensures i >= |lh| ==> Carries(l, Recovered(l, r[i]), d, lh, vals)
    {
      CommitImagesAt(l, d, lh, vals, i);
      CommitCrash(l, d, lh, vals, i + 1);
    }
  }

  /** The finished commit leaves exactly the overlay at home and an empty log. */
  lemma CommitFinishes(l: Layout, d: Disk, lh: seq<int>, vals: seq<Block>)
    requires LogEmpty(l, d)
    requires TransOk(l, lh) && |vals| == |lh|
    ensures |CommitImages(l, d, lh, vals)| == 2 * |lh| + 2
    ensures var e := CommitImages(l, d, lh, vals)[2 * |lh| + 1];
            LogEmpty(l, e) && Carries(l, e, d, lh, vals)
  {
    var s := Sealed(l, d, lh, vals);
    SealedRecovers(l, d, lh, vals);
    InstallAt(l, s, lh, |lh|, l.start);
    assert CommitImages(l, d, lh, vals)[2 * |lh| + 1] == Recovered(l, s);
    RecoveredClears(l, s);
  }

  /** Every image of a recovery recovers to what the recovery was heading for. */
  lemma RecoveryAtomic(l: Layout, d: Disk)
    requires LogOk(l, d)
    ensures forall i :: 0 <= i < |RecoveryImages(l, d)| ==>
              var e := RecoveryImages(l, d)[i];
              LogOk(l, e) && SameHome(l, Recovered(l, e), Recovered(l, d))
  {
    var r := RecoveryImages(l, d);
    forall i | 0 <= i < |r|
      ensures LogOk(l, r[i]) && SameHome(l, Recovered(l, r[i]), Recovered(l, d))
    {
      assert r[i] == RecoveryImage(l, d, i + 1);
      CrashDuringRecovery(l, d, i + 1);
    }
  }

  lemma Assoc5<T>(t: seq<T>, a: seq<T>, b: seq<T>, c: seq<T>, d: seq<T>)
    ensures t + a + b + c + d == t + (a + b + c + d)
  {
  }

  // ---- blocks seen through the cache ----

  /** The newest contents of block b. */
  function View(d: Disk, cache: map<int, Block>, b: int): Block {
    if b in cache then cache[b] else if 0 <= b < |d| then d[b] else Block([])
  }

  /** The newest contents of the logged blocks: what `write_log` copies. */
  function Views(d: Disk, cache: map<int, Block>, lh: seq<int>): (r: seq<Block>)
    ensures |r| == |lh| && forall i :: 0 <= i < |lh| ==> r[i] == View(d, cache, lh[i])
  {
    seq(|lh|, i requires 0 <= i < |lh| => View(d, cache, lh[i]))
  }
}
