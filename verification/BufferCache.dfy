/** bio.c: the buffer cache. Buffers are numbered 0 .. n-1 and the list head is number n, so a pointer into
    `bcache` is a number. Each method is one critical section; a run of the cache is any sequence of them.
    `P == true` in a contract is P kept as one proof obligation; without it Dafny asks for P conjunct by conjunct. */
module BufferCache {

  type Block = seq<int>
  datatype Key = Key(dev: int, blockno: int)

  /** One buffer without its list links; `holder` is the pid in its sleep lock, 0 when free. */
  datatype Buf = Buf(key: Key, refcnt: int, valid: bool, dirty: bool, holder: int, data: Block)

  // ---- the doubly linked ring ----

  /** The neighbours of position k on a ring of n + 1 places. */
  function Succ(n: nat, k: int): int { if k == n then 0 else k + 1 }
  function Pred(n: nat, k: int): int { if k == 0 then n else k - 1 }

  /** ring lists the head (in place 0) and every buffer exactly once, pos is its inverse, and next and prev
      walk it in both directions. */
  ghost predicate Ring(n: nat, ring: seq<int>, pos: seq<int>, next: seq<int>, prev: seq<int>) {
    && |ring| == |pos| == |next| == |prev| == n + 1 && ring[0] == n
    && (forall k :: 0 <= k <= n ==> 0 <= ring[k] <= n && pos[ring[k]] == k)
    && (forall b :: 0 <= b <= n ==> 0 <= pos[b] <= n && ring[pos[b]] == b)
    && (forall b {:trigger next[b]} :: 0 <= b <= n ==> next[b] == ring[Succ(n, pos[b])])
    && (forall b {:trigger prev[b]} :: 0 <= b <= n ==> prev[b] == ring[Pred(n, pos[b])])
  }

  /** Position p moved to just after the head. */
  function MovedFront(ring: seq<int>, p: nat): (r: seq<int>)
    requires 0 < p < |ring|
  {
    seq(|ring|, k requires 0 <= k < |ring| =>
      if k == 0 then ring[0] else if k == 1 then ring[p] else if k <= p then ring[k - 1] else ring[k])
  }

  /** Where that puts the buffer that was in place k. */
  function NewPlace(p: int, k: int): int {
    if k == 0 then 0 else if k == p then 1 else if k < p then k + 1 else k
  }

  function MovedPos(pos: seq<int>, p: int): (r: seq<int>) {
    seq(|pos|, b requires 0 <= b < |pos| => NewPlace(p, pos[b]))
  }

  /** The six pointer assignments of `brelse`, in order. */
  function Relinked(n: nat, next: seq<int>, prev: seq<int>, b: nat): (r: (seq<int>, seq<int>))
    requires b < n && |next| == |prev| == n + 1
    requires 0 <= next[b] <= n && 0 <= prev[b] <= n
    requires 0 <= (if prev[b] == n then next[b] else next[n]) <= n
  {
    var prev1 := prev[next[b] := prev[b]];
    var next1 := next[prev[b] := next[b]];
    var next2 := next1[b := next1[n]];
    var prev2 := prev1[b := n];
    var prev3 := prev2[next2[n] := b];
    (next2[n := b], prev3)
  }

  /** The links of buffer c afterwards: c follows its new predecessor and precedes its new successor. */
  lemma RelinkNext(n: nat, ring: seq<int>, pos: seq<int>, next: seq<int>, prev: seq<int>, b: nat, c: nat)
    requires Ring(n, ring, pos, next, prev) && b < n && c <= n
    ensures 0 < pos[b] <= n && 0 <= next[b] <= n && 0 <= prev[b] <= n && 0 <= next[n] <= n
    ensures var k := NewPlace(pos[b], pos[c]);
            0 <= k <= n && Relinked(n, next, prev, b).0[c] == MovedFront(ring, pos[b])[Succ(n, k)]
  {
  }

  lemma RelinkPrev(n: nat, ring: seq<int>, pos: seq<int>, next: seq<int>, prev: seq<int>, b: nat, c: nat)
    requires Ring(n, ring, pos, next, prev) && b < n && c <= n
    ensures 0 < pos[b] <= n && 0 <= next[b] <= n && 0 <= prev[b] <= n && 0 <= next[n] <= n
    ensures var k := NewPlace(pos[b], pos[c]);
            0 <= k <= n && Relinked(n, next, prev, b).1[c] == MovedFront(ring, pos[b])[Pred(n, k)]
  {
  }

  /** Unlinking and relinking moves exactly that buffer to the front. */
  lemma RelinkMovesFront(n: nat, ring: seq<int>, pos: seq<int>, next: seq<int>, prev: seq<int>, b: nat)
    requires Ring(n, ring, pos, next, prev) && b < n
    ensures 0 < pos[b] <= n && 0 <= next[b] <= n && 0 <= prev[b] <= n && 0 <= next[n] <= n
    ensures var r := Relinked(n, next, prev, b);
            Ring(n, MovedFront(ring, pos[b]), MovedPos(pos, pos[b]), r.0, r.1)
  {
    RelinkNext(n, ring, pos, next, prev, b, b);
    var p := pos[b];
    var ring', pos' := MovedFront(ring, p), MovedPos(pos, p);
    var r := Relinked(n, next, prev, b);
    forall c | 0 <= c <= n
      ensures r.0[c] == ring'[Succ(n, pos'[c])]
      ensures r.1[c] == ring'[Pred(n, pos'[c])]
    {
      RelinkNext(n, ring, pos, next, prev, b, c);
      RelinkPrev(n, ring, pos, next, prev, b, c);
    }
    MovedInverse(n, ring, pos, p);
  }

  lemma MovedInverse(n: nat, ring: seq<int>, pos: seq<int>, p: nat)
    requires |ring| == |pos| == n + 1 && 0 < p <= n
    requires forall k :: 0 <= k <= n ==> 0 <= ring[k] <= n && pos[ring[k]] == k
    requires forall b :: 0 <= b <= n ==> 0 <= pos[b] <= n && ring[pos[b]] == b
    ensures var ring', pos' := MovedFront(ring, p), MovedPos(pos, p);
            && (forall k :: 0 <= k <= n ==> 0 <= ring'[k] <= n && pos'[ring'[k]] == k)
            && (forall b :: 0 <= b <= n ==> 0 <= pos'[b] <= n && ring'[pos'[b]] == b)
  {
  }

  // ---- the invariant ----

  /** A buffer is counted once for each process that got it from `bget` and has not given it back; whoever
      holds its lock is among them. */
  ghost predicate Counted(bufs: seq<Buf>, refs: seq<multiset<int>>) {
    && |bufs| == |refs|
    && (forall b :: 0 <= b < |bufs| ==> bufs[b].refcnt == |refs[b]|)
    && (forall b :: 0 <= b < |bufs| ==> bufs[b].holder != 0 ==> bufs[b].holder in refs[b])
  }

  /** No block is cached twice. Device 0 is what buffers carry before their first use. */
  ghost predicate Unique(bufs: seq<Buf>) {
    forall b, c :: 0 <= b < |bufs| && 0 <= c < |bufs| && bufs[b].key == bufs[c].key && bufs[b].key.dev != 0 ==> b == c
  }

  /** The ring is ordered by the time of the last release, most recent first. */
  ghost predicate Lru(n: nat, pos: seq<int>, stamp: seq<int>, clock: int) {
    && |pos| == n + 1 && |stamp| == n
    && (forall b :: 0 <= b < n ==> stamp[b] < clock)
    && (forall b, c :: 0 <= b < n && 0 <= c < n && pos[b] < pos[c] ==> stamp[b] > stamp[c])
  }

  /** Block k's newest contents are only in memory: some valid dirty buffer has them. */
  ghost predicate InMemory(bufs: seq<Buf>, k: Key) {
    exists b :: 0 <= b < |bufs| && bufs[b].key == k && bufs[b].valid && bufs[b].dirty
  }

  ghost predicate BufOk(buf: Buf, disk: map<Key, Block>, latest: map<Key, Block>) {
    && (buf.dirty ==> buf.valid)
    && (buf.valid ==> buf.key in disk && buf.key in latest)
    && (buf.valid && !buf.dirty ==> disk[buf.key] == latest[buf.key])
    && (buf.valid && buf.holder == 0 ==> buf.data == latest[buf.key])
  }

  /** Memory and disk agree with the newest contents of every block, as far as anyone can look. */
  ghost predicate Coherent(bufs: seq<Buf>, disk: map<Key, Block>, latest: map<Key, Block>) {
    && (forall k :: k in disk ==> k in latest && k.dev == 1)
    && (forall b :: 0 <= b < |bufs| ==> BufOk(bufs[b], disk, latest))
    && (forall k :: k in disk ==> disk[k] == latest[k] || InMemory(bufs, k))
  }

  datatype Cache = Cache(bufs: seq<Buf>, next: seq<int>, prev: seq<int>, disk: map<Key, Block>,
                         ring: seq<int>, pos: seq<int>, refs: seq<multiset<int>>,
                         stamp: seq<int>, clock: int, latest: map<Key, Block>)

  ghost predicate Inv(s: Cache) {
    && Ring(|s.bufs|, s.ring, s.pos, s.next, s.prev)
    && Counted(s.bufs, s.refs)
    && Unique(s.bufs)
    && Lru(|s.bufs|, s.pos, s.stamp, s.clock)
    && Coherent(s.bufs, s.disk, s.latest)
  }

  ghost predicate Same(k: Key, latest: map<Key, Block>, latest': map<Key, Block>) {
    k in latest ==> k in latest' && latest'[k] == latest[k]
  }

  /** What a step of process pid leaves alone for buffer b: its block while b is in use or dirty, everyone
      else's references, and all that another process's lock protects. */
  ghost predicate Spares(s: Cache, t: Cache, pid: int, b: nat)
    requires b < |s.bufs| && |t.bufs| == |s.bufs| == |s.refs| == |t.refs|
  {
    && (s.bufs[b].dirty || s.refs[b] != multiset{} ==> t.bufs[b].key == s.bufs[b].key)
    && (forall p :: p != pid ==> t.refs[b][p] == s.refs[b][p])
    && (s.bufs[b].holder != 0 && s.bufs[b].holder != pid ==>
          && t.bufs[b] == s.bufs[b].(refcnt := t.bufs[b].refcnt)
          && Same(s.bufs[b].key, s.latest, t.latest))
  }

  ghost predicate Step(s: Cache, t: Cache, pid: int) {
    && |t.bufs| == |s.bufs| == |s.refs| == |t.refs| && t.disk.Keys == s.disk.Keys
    && (forall b :: 0 <= b < |s.bufs| ==> Spares(s, t, pid, b))
  }

  // ---- one lemma for each critical section, on values ----

  function AddRef(s: Cache, b: nat, pid: int): Cache
    requires b < |s.bufs| && |s.refs| == |s.bufs|
  {
    s.(bufs := s.bufs[b := s.bufs[b].(refcnt := s.bufs[b].refcnt + 1)],
       refs := s.refs[b := s.refs[b] + multiset{pid}])
  }

  lemma AddRefKeeps(s: Cache, b: nat, pid: int)
    requires Inv(s) && b < |s.bufs|
    ensures Inv(AddRef(s, b, pid)) && Step(s, AddRef(s, b, pid), pid)
  {
    var t := AddRef(s, b, pid);
    assert |s.refs[b] + multiset{pid}| == |s.refs[b]| + 1;
    SameFlagsCoherent(s.bufs, t.bufs, s.disk, s.latest);
  }

  /** Coherence only looks at blocks, flags, locks and contents. */
  lemma SameFlagsCoherent(bufs: seq<Buf>, bufs': seq<Buf>, disk: map<Key, Block>, latest: map<Key, Block>)
    requires Coherent(bufs, disk, latest) && |bufs| == |bufs'|
    requires forall b :: 0 <= b < |bufs| ==> bufs'[b] == bufs[b].(refcnt := bufs'[b].refcnt)
    ensures Coherent(bufs', disk, latest)
  {
  }

  function Recycle(s: Cache, b: nat, k: Key, pid: int): Cache
    requires b < |s.bufs| && |s.refs| == |s.bufs|
  {
    s.(bufs := s.bufs[b := Buf(k, 1, false, false, s.bufs[b].holder, s.bufs[b].data)],
       refs := s.refs[b := multiset{pid}])
  }

  lemma RecycleKeeps(s: Cache, b: nat, k: Key, pid: int)
    requires Inv(s) && b < |s.bufs|
    requires s.bufs[b].refcnt == 0 && !s.bufs[b].dirty
    requires forall c :: 0 <= c < |s.bufs| ==> s.bufs[c].key != k
    ensures Inv(Recycle(s, b, k, pid)) && Step(s, Recycle(s, b, k, pid), pid)
  {
    var t := Recycle(s, b, k, pid);
    assert s.refs[b] == multiset{};
    assert BufOk(t.bufs[b], s.disk, s.latest);
    StillInMemory(s.bufs, b, t.bufs[b], s.disk, s.latest);
  }

  /** Replacing a buffer that is not the dirty copy of a block loses nothing. */
  lemma StillInMemory(bufs: seq<Buf>, b: nat, buf: Buf, disk: map<Key, Block>, latest: map<Key, Block>)
    requires Coherent(bufs, disk, latest) && b < |bufs| && BufOk(buf, disk, latest)
    requires bufs[b].dirty ==> buf.dirty && buf.key == bufs[b].key
    ensures Coherent(bufs[b := buf], disk, latest)
  {
    var bufs' := bufs[b := buf];
    forall k | k in disk ensures disk[k] == latest[k] || InMemory(bufs', k) {
      if InMemory(bufs, k) {
        var c :| 0 <= c < |bufs| && bufs[c].key == k && bufs[c].valid && bufs[c].dirty;
        assert bufs'[c].key == k && bufs'[c].valid && bufs'[c].dirty;
      }
    }
  }

  /** Any change by pid to a buffer it holds or may take, when disk and newest contents stay. */
  lemma BufKeeps(s: Cache, b: nat, buf: Buf, pid: int)
    requires Inv(s) && b < |s.bufs| && BufOk(buf, s.disk, s.latest)
    requires buf.key == s.bufs[b].key && buf.refcnt == s.bufs[b].refcnt
    requires s.bufs[b].dirty ==> buf.dirty
    requires s.bufs[b].holder == 0 || s.bufs[b].holder == pid
    requires buf.holder == 0 || (buf.holder == pid && pid in s.refs[b])
    ensures Inv(s.(bufs := s.bufs[b := buf])) && Step(s, s.(bufs := s.bufs[b := buf]), pid)
  {
  }

  /** Before a first read nobody has newer contents than the disk. */
  lemma UncachedIsOnDisk(s: Cache, b: nat)
    requires Inv(s) && b < |s.bufs| && !s.bufs[b].valid && s.bufs[b].key in s.disk
    ensures s.bufs[b].key in s.latest && s.disk[s.bufs[b].key] == s.latest[s.bufs[b].key]
  {
  }

  function Stored(s: Cache, b: nat, buf: Buf, disk: map<Key, Block>): Cache
    requires b < |s.bufs|
  {
    s.(bufs := s.bufs[b := buf], disk := disk, latest := s.latest[buf.key := buf.data])
  }

  lemma StoredCoherent(bufs: seq<Buf>, b: nat, buf: Buf, disk: map<Key, Block>, latest: map<Key, Block>,
                       disk': map<Key, Block>)
    requires Coherent(bufs, disk, latest) && Unique(bufs) && b < |bufs| && bufs[b].valid
    requires buf.key == bufs[b].key && buf.valid
    requires if buf.dirty then disk' == disk else disk' == disk[buf.key := buf.data]
    ensures Coherent(bufs[b := buf], disk', latest[buf.key := buf.data])
  {
    var bufs', latest' := bufs[b := buf], latest[buf.key := buf.data];
    assert BufOk(bufs[b], disk, latest);
    forall c | 0 <= c < |bufs'| ensures BufOk(bufs'[c], disk', latest') {
      assert BufOk(bufs[c], disk, latest);
    }
    forall k | k in disk' ensures disk'[k] == latest'[k] || InMemory(bufs', k) {
      if k == buf.key {
        assert bufs'[b].key == k;
      } else if InMemory(bufs, k) {
        var c :| 0 <= c < |bufs| && bufs[c].key == k && bufs[c].valid && bufs[c].dirty;
        assert bufs'[c].key == k && bufs'[c].valid && bufs'[c].dirty;
      }
    }
  }

  /** `log_write` (the buffer turns dirty, the disk stays) and `bwrite` (the disk follows at once). */
  lemma StoredKeeps(s: Cache, b: nat, buf: Buf, disk: map<Key, Block>, pid: int)
    requires Inv(s) && b < |s.bufs| && s.bufs[b].valid && s.bufs[b].holder == pid != 0
    requires buf == s.bufs[b].(dirty := buf.dirty)
    requires if buf.dirty then disk == s.disk else disk == s.disk[buf.key := buf.data]
    ensures Inv(Stored(s, b, buf, disk)) && Step(s, Stored(s, b, buf, disk), pid)
  {
    StoredCoherent(s.bufs, b, buf, s.disk, s.latest, disk);
    assert BufOk(s.bufs[b], s.disk, s.latest);
  }

  function Dropped(s: Cache, b: nat, pid: int): Cache
    requires b < |s.bufs| && |s.refs| == |s.bufs|
  {
    s.(bufs := s.bufs[b := s.bufs[b].(refcnt := s.bufs[b].refcnt - 1)],
       refs := s.refs[b := s.refs[b] - multiset{pid}])
  }

  lemma DropRefKeeps(s: Cache, b: nat, pid: int)
    requires Inv(s) && b < |s.bufs| && pid in s.refs[b] && s.bufs[b].holder != pid
    ensures Inv(Dropped(s, b, pid)) && Step(s, Dropped(s, b, pid), pid)
  {
    var t := Dropped(s, b, pid);
    assert |s.refs[b] - multiset{pid}| == |s.refs[b]| - 1;
    SameFlagsCoherent(s.bufs, t.bufs, s.disk, s.latest);
  }

  /** The pointers that `brelse` follows from buffer b point somewhere. */
  ghost predicate Linkable(s: Cache, b: nat) {
    && b < |s.bufs| == |s.stamp| && |s.ring| == |s.pos| == |s.next| == |s.prev| == |s.bufs| + 1
    && 0 < s.pos[b] <= |s.bufs| && 0 <= s.next[b] <= |s.bufs| && 0 <= s.prev[b] <= |s.bufs|
    && 0 <= s.next[|s.bufs|] <= |s.bufs|
  }

  /** Moving a buffer to the front of the ring makes it the most recently used one. */
  function ToFront(s: Cache, b: nat): Cache
    requires Linkable(s, b)
  {
    var r := Relinked(|s.bufs|, s.next, s.prev, b);
    s.(next := r.0, prev := r.1, ring := MovedFront(s.ring, s.pos[b]), pos := MovedPos(s.pos, s.pos[b]),
       stamp := s.stamp[b := s.clock], clock := s.clock + 1)
  }

  lemma MovedLru(n: nat, ring: seq<int>, pos: seq<int>, next: seq<int>, prev: seq<int>,
                 stamp: seq<int>, clock: int, b: nat)
    requires Ring(n, ring, pos, next, prev) && Lru(n, pos, stamp, clock) && b < n
    ensures Lru(n, MovedPos(pos, pos[b]), stamp[b := clock], clock + 1)
  {
  }

  lemma ToFrontKeeps(s: Cache, b: nat, pid: int)
    requires Inv(s) && b < |s.bufs|
    ensures Linkable(s, b)
    ensures Inv(ToFront(s, b)) && Step(s, ToFront(s, b), pid)
  {
    RelinkMovesFront(|s.bufs|, s.ring, s.pos, s.next, s.prev, b);
    MovedLru(|s.bufs|, s.ring, s.pos, s.next, s.prev, s.stamp, s.clock, b);
  }

  /** Buffer b is next after the head and the most recently released. */
  ghost predicate AtFront(s: Cache, b: nat) {
    && |s.stamp| == |s.bufs| && |s.next| == |s.bufs| + 1 && b < |s.bufs| && s.next[|s.bufs|] == b
    && forall c :: 0 <= c < |s.stamp| && c != b ==> s.stamp[c] < s.stamp[b]
  }

  /** Giving the reference back and, for the last user, relinking are one step. */
  lemma ReleasedKeeps(s: Cache, b: nat, pid: int)
    requires Inv(s) && b < |s.bufs| && pid in s.refs[b] && s.bufs[b].holder != pid
    ensures var t := Dropped(s, b, pid); Inv(t) && Step(s, t, pid) && Linkable(t, b)
    ensures var u := ToFront(Dropped(s, b, pid), b); Inv(u) && Step(s, u, pid) && AtFront(u, b)
  {
    var t := Dropped(s, b, pid);
    DropRefKeeps(s, b, pid);
    ToFrontKeeps(t, b, pid);
    var u := ToFront(t, b);
    forall c | 0 <= c < |s.bufs| ensures Spares(s, u, pid, c) {
      assert Spares(s, t, pid, c);
    }
  }

  /** What releasing a reference leaves. */
  function Released(s: Cache, b: nat, pid: int): Cache
    requires b < |s.bufs| == |s.refs| && Linkable(Dropped(s, b, pid), b)
  {
    var t := Dropped(s, b, pid);
    if t.bufs[b].refcnt == 0 then ToFront(t, b) else t
  }

  lemma ReleasedIs(s: Cache, b: nat, pid: int)
    requires Inv(s) && b < |s.bufs| && pid in s.refs[b] && s.bufs[b].holder != pid
    ensures |s.refs| == |s.bufs| && Linkable(Dropped(s, b, pid), b) == true
    ensures var u := Released(s, b, pid);
            Inv(u) == true && Step(s, u, pid) == true && (u.bufs[b].refcnt == 0 ==> AtFront(u, b) == true)
  {
    ReleasedKeeps(s, b, pid);
  }

  /** One pointer forward (backward) is one place further (nearer). */
  lemma WalkNext(n: nat, ring: seq<int>, pos: seq<int>, next: seq<int>, prev: seq<int>, b: nat)
    requires Ring(n, ring, pos, next, prev) && b <= n
    ensures 0 <= next[b] <= n && pos[next[b]] == Succ(n, pos[b])
    ensures forall c :: 0 <= c <= n && pos[c] == pos[b] ==> c == b
    ensures next[b] == n <==> pos[b] == n
  {
  }

  lemma WalkPrev(n: nat, ring: seq<int>, pos: seq<int>, next: seq<int>, prev: seq<int>, b: nat)
    requires Ring(n, ring, pos, next, prev) && b <= n
    ensures 0 <= prev[b] <= n && pos[prev[b]] == Pred(n, pos[b])
    ensures forall c :: 0 <= c <= n && pos[c] == pos[b] ==> c == b
    ensures forall c :: 0 <= c < n ==> 0 < pos[c] <= n
    ensures prev[b] == n <==> pos[prev[b]] == 0
  {
  }

  // ---- whole runs: what holding a reference or a lock buys ----

  /** states is a run in which process actor[i] takes the i-th step. */
  ghost predicate Run(states: seq<Cache>, actor: seq<int>) {
    && |states| == |actor| + 1
    && (forall i :: 0 <= i < |states| ==> Inv(states[i]))
    && (forall i :: 0 <= i < |actor| ==> Step(states[i], states[i + 1], actor[i]))
  }

  /** Between `bget` and `acquiresleep`: as long as pid itself does nothing, its buffer stays the buffer of
      the block it asked for, whatever the other processes do. */
  lemma {:induction false} PinnedBlockStays(states: seq<Cache>, actor: seq<int>, pid: int, b: nat, m: nat)
    requires Run(states, actor) && m < |states| && b < |states[0].bufs|
    requires pid in states[0].refs[b]
    requires forall i :: 0 <= i < |actor| ==> actor[i] != pid
    ensures b < |states[m].bufs| && pid in states[m].refs[b]
    ensures states[m].bufs[b].key == states[0].bufs[b].key && states[m].disk.Keys == states[0].disk.Keys
  {
    if m > 0 {
      PinnedBlockStays(states, actor, pid, b, m - 1);
      assert Step(states[m - 1], states[m], actor[m - 1]);
      assert Spares(states[m - 1], states[m], actor[m - 1], b);
      assert Inv(states[m]);
    }
  }

  /** Between `bread` and `brelse`: nobody else changes the buffer, or the newest contents of its block. */
  lemma {:induction false} LockedBufferStays(states: seq<Cache>, actor: seq<int>, pid: int, b: nat, m: nat)
    requires Run(states, actor) && m < |states| && b < |states[0].bufs|
    requires states[0].bufs[b].holder == pid != 0 && states[0].bufs[b].valid
    requires forall i :: 0 <= i < |actor| ==> actor[i] != pid
    ensures b < |states[m].bufs|
    ensures states[m].bufs[b] == states[0].bufs[b].(refcnt := states[m].bufs[b].refcnt)
    ensures Same(states[0].bufs[b].key, states[0].latest, states[m].latest)
  {
    if m > 0 {
      LockedBufferStays(states, actor, pid, b, m - 1);
      assert Step(states[m - 1], states[m], actor[m - 1]);
      assert Spares(states[m - 1], states[m], actor[m - 1], b);
      assert Inv(states[m - 1]);
      assert BufOk(states[m - 1].bufs[b], states[m - 1].disk, states[m - 1].latest);
    }
  }

  // ---- the code ----

  /** The ring `binit` builds: the head, then the buffers from last to first. */
  function FirstRing(n: nat): seq<int> { seq(n + 1, k => if k == 0 then n else n - k) }
  function FirstPos(n: nat): seq<int> { seq(n + 1, b => if b == n then 0 else n - b) }

  lemma FirstLinks(n: nat, next: seq<int>, prev: seq<int>)
    requires |next| == |prev| == n + 1
    requires next[n] == (if n == 0 then n else n - 1) && prev[n] == (if n == 0 then n else 0)
    requires forall c :: 0 <= c < n ==> next[c] == (if c == 0 then n else c - 1)
    requires forall c :: 0 <= c < n ==> prev[c] == (if c == n - 1 then n else c + 1)
    ensures Ring(n, FirstRing(n), FirstPos(n), next, prev)
    ensures Lru(n, FirstPos(n), seq(n, i => i), n)
  {
  }

  class BCache {
    var bufs: seq<Buf>
    var next: seq<int>
    var prev: seq<int>
    var disk: map<Key, Block>
    ghost var ring: seq<int>
    ghost var pos: seq<int>
    ghost var refs: seq<multiset<int>>
    ghost var stamp: seq<int>
    ghost var clock: int
    ghost var latest: map<Key, Block>

    ghost function St(): Cache
      reads this
    {
      Cache(bufs, next, prev, disk, ring, pos, refs, stamp, clock, latest)
    }

    /** `binit`: all buffers linked, none in use. */
    constructor (n: nat, disk: map<Key, Block>)
      requires forall k :: k in disk ==> k.dev == 1
      ensures Inv(St()) && |bufs| == n && this.disk == latest == disk
      ensures forall b :: 0 <= b < n ==> refs[b] == multiset{} && !bufs[b].valid
    {
      var nx, pv := seq(n + 1, b => n), seq(n + 1, b => n);
      var b := 0;
      while b < n
        invariant 0 <= b <= n && |nx| == |pv| == n + 1
        invariant nx[n] == (if b == 0 then n else b - 1) && pv[n] == (if b == 0 then n else 0)
        invariant forall c :: 0 <= c < b ==> nx[c] == (if c == 0 then n else c - 1)
        invariant forall c :: 0 <= c < b ==> pv[c] == (if c == b - 1 then n else c + 1)
      {
        nx := nx[b := nx[n]];
        pv := pv[b := n];
        pv := pv[nx[n] := b];
        nx := nx[n := b];
        b := b + 1;
      }
      this.disk, latest := disk, disk;
      next, prev := nx, pv;
      bufs := seq(n, i => Buf(Key(0, 0), 0, false, false, 0, []));
      refs := seq(n, i => multiset{});
      ring, pos := FirstRing(n), FirstPos(n);
      stamp, clock := seq(n, i => i), n;
      FirstLinks(n, nx, pv);
    }

    /** First loop of `bget`: the buffer that caches the block, or the head. */
    method Lookup(k: Key) returns (b: nat)
      requires Inv(St())
      ensures b <= |bufs|
      ensures b < |bufs| ==> bufs[b].key == k
      ensures b == |bufs| ==> forall c :: 0 <= c < |bufs| ==> bufs[c].key != k
    {
      ghost var n := |bufs|;
      assert pos[ring[0]] == 0 && pos[n] == 0;
      b := next[|bufs|];
      while b != |bufs|
        invariant 0 <= b <= n
        invariant forall c :: 0 <= c < n && (b == n || pos[c] < pos[b]) ==> bufs[c].key != k
        decreases if b == n then 0 else n + 1 - pos[b]
      {
        if bufs[b].key == k { return; }
        WalkNext(n, ring, pos, next, prev, b);
        b := next[b];
      }
    }

    /** Second loop of `bget`: the least recently released buffer that nobody uses and that is not dirty. */
    method Victim() returns (b: nat)
      requires Inv(St())
      ensures b <= |bufs|
      ensures b < |bufs| ==> bufs[b].refcnt == 0 && !bufs[b].dirty
      ensures forall c :: 0 <= c < |bufs| && bufs[c].refcnt == 0 && !bufs[c].dirty ==>
                b < |bufs| && stamp[b] <= stamp[c]
    {
      ghost var n := |bufs|;
      assert pos[ring[0]] == 0 && pos[n] == 0;
      b := prev[|bufs|];
      WalkPrev(n, ring, pos, next, prev, n);
      while b != |bufs|
        invariant 0 <= b <= n
        invariant forall c :: 0 <= c < n && (b == n || pos[c] > pos[b]) ==> bufs[c].refcnt != 0 || bufs[c].dirty
        decreases if b == n then 0 else pos[b]
      {
        WalkPrev(n, ring, pos, next, prev, b);
        if bufs[b].refcnt == 0 && !bufs[b].dirty {
          return;
        }
        b := prev[b];
      }
    }

    /** The part of `bget` under the cache lock. Fails (the source panics) exactly when the block is not
        cached and every buffer is in use or dirty. A recycled buffer is the least recently used idle one. */
    method BgetRef(pid: int, k: Key) returns (b: nat, ok: bool)
      requires Inv(St()) && pid != 0
      modifies this
      ensures Inv(St()) && Step(old(St()), St(), pid)
      ensures disk == old(disk) && latest == old(latest)
      ensures ok ==>
                b < |bufs| == |old(bufs)| == |old(refs)| && bufs[b].key == k && refs[b] == old(refs[b]) + multiset{pid}
      ensures ok ==> St() == if old(bufs[b].key) == k then AddRef(old(St()), b, pid) else Recycle(old(St()), b, k, pid)
      ensures ok && old(bufs[b].key) != k ==>
                forall c :: 0 <= c < |bufs| && old(bufs[c].refcnt) == 0 && !old(bufs[c].dirty) ==>
                  stamp[b] <= stamp[c]
      ensures !ok ==> St() == old(St())
      ensures !ok <==> forall c :: 0 <= c < |bufs| ==>
                old(bufs[c].key) != k && (old(bufs[c].refcnt) != 0 || old(bufs[c].dirty))
    {
      b := Lookup(k);
      if b < |bufs| {
        AddRefKeeps(St(), b, pid);
        bufs := bufs[b := bufs[b].(refcnt := bufs[b].refcnt + 1)];
        refs := refs[b := refs[b] + multiset{pid}];
        return b, true;
      }
      b := Victim();
      if b == |bufs| { return b, false; }
      RecycleKeeps(St(), b, k, pid);
      assert refs[b] == multiset{};
      bufs := bufs[b := Buf(k, 1, false, false, bufs[b].holder, bufs[b].data)];
      refs := refs[b := multiset{pid}];
      ok := true;
    }

    /** `acquiresleep`, at the moment the lock is free. A valid buffer then has the newest contents. */
    method Acquire(pid: int, b: nat)
      requires Inv(St()) && b < |bufs| && pid != 0 && pid in refs[b] && bufs[b].holder == 0
      modifies this`bufs
      ensures Inv(St()) && Step(old(St()), St(), pid)
      ensures bufs == old(bufs)[b := old(bufs[b]).(holder := pid)]
      ensures bufs[b].valid ==> bufs[b].key in latest && bufs[b].data == latest[bufs[b].key]
    {
      assert BufOk(bufs[b], disk, latest);
      BufKeeps(St(), b, bufs[b].(holder := pid), pid);
      bufs := bufs[b := bufs[b].(holder := pid)];
    }

    /** The rest of `bread`: a buffer that is not valid is read from the disk, which has the newest contents.
        Fails (the source panics) exactly when a read is needed and the disk has no such block. */
    method Fill(pid: int, b: nat) returns (ok: bool)
      requires Inv(St()) && b < |bufs| && bufs[b].holder == pid != 0
      requires bufs[b].valid ==> bufs[b].key in latest && bufs[b].data == latest[bufs[b].key]
      modifies this`bufs
      ensures Inv(St()) && Step(old(St()), St(), pid)
      ensures ok == (old(bufs[b].valid) || bufs[b].key in disk)
      ensures bufs == old(bufs)[b := old(bufs[b]).(valid := ok, data := bufs[b].data)]
      ensures ok ==> bufs[b].key in latest && bufs[b].data == latest[bufs[b].key]
    {
      ok := true;
      assert BufOk(bufs[b], disk, latest);
      if !bufs[b].valid {
        if bufs[b].key in disk {
          UncachedIsOnDisk(St(), b);
          BufKeeps(St(), b, bufs[b].(valid := true, data := disk[bufs[b].key]), pid);
          bufs := bufs[b := bufs[b].(valid := true, data := disk[bufs[b].key])];
        } else {
          ok := false;
        }
      }
    }

    /** The holder of the lock changes the contents. */
    method Modify(pid: int, b: nat, data: Block)
      requires Inv(St()) && b < |bufs| && bufs[b].holder == pid != 0
      modifies this`bufs
      ensures Inv(St()) && Step(old(St()), St(), pid)
      ensures bufs == old(bufs)[b := old(bufs[b]).(data := data)]
    {
      assert BufOk(bufs[b], disk, latest);
      BufKeeps(St(), b, bufs[b].(data := data), pid);
      bufs := bufs[b := bufs[b].(data := data)];
    }

    /** `log_write` pins the buffer in memory: its contents are now the block's newest. */
    method LogWrite(pid: int, b: nat)
      requires Inv(St()) && b < |bufs| && bufs[b].holder == pid != 0 && bufs[b].valid
      modifies this`bufs, this`latest
      ensures Inv(St()) && Step(old(St()), St(), pid)
      ensures bufs == old(bufs)[b := old(bufs[b]).(dirty := true)]
      ensures latest == old(latest)[bufs[b].key := bufs[b].data]
    {
      StoredKeeps(St(), b, bufs[b].(dirty := true), disk, pid);
      bufs := bufs[b := bufs[b].(dirty := true)];
      latest := latest[bufs[b].key := bufs[b].data];
    }

    /** `bwrite`: `iderw` writes the contents through and clears the dirty flag. */
    method Bwrite(pid: int, b: nat)
      requires Inv(St()) && b < |bufs| && bufs[b].holder == pid != 0 && bufs[b].valid
      modifies this`bufs, this`disk, this`latest
      ensures Inv(St()) && Step(old(St()), St(), pid)
      ensures bufs == old(bufs)[b := old(bufs[b]).(dirty := false)]
      ensures disk == old(disk)[bufs[b].key := bufs[b].data]
      ensures latest == old(latest)[bufs[b].key := bufs[b].data]
    {
      assert BufOk(bufs[b], disk, latest);
      StoredKeeps(St(), b, bufs[b].(dirty := false), disk[bufs[b].key := bufs[b].data], pid);
      disk := disk[bufs[b].key := bufs[b].data];
      bufs := bufs[b := bufs[b].(dirty := false)];
      latest := latest[bufs[b].key := bufs[b].data];
    }

    /** First half of `brelse`. A caller that changed the contents has called log_write or bwrite by now. */
    method ReleaseLock(pid: int, b: nat)
      requires Inv(St()) && b < |bufs| && bufs[b].holder == pid != 0
      requires bufs[b].valid ==> bufs[b].key in latest && bufs[b].data == latest[bufs[b].key]
      modifies this`bufs
      ensures Inv(St()) && Step(old(St()), St(), pid)
      ensures bufs == old(bufs)[b := old(bufs[b]).(holder := 0)]
    {
      assert BufOk(bufs[b], disk, latest);
      BufKeeps(St(), b, bufs[b].(holder := 0), pid);
      bufs := bufs[b := bufs[b].(holder := 0)];
    }

    /** The pointer assignments of `brelse`, one by one. */
    method Relink(b: nat)
      requires Linkable(St(), b) == true
      modifies this`next, this`prev, this`ring, this`pos, this`stamp, this`clock
      ensures St() == ToFront(old(St()), b)
    {
      prev := prev[next[b] := prev[b]];
      next := next[prev[b] := next[b]];
      next := next[b := next[|bufs|]];
      prev := prev[b := |bufs|];
      prev := prev[next[|bufs|] := b];
      next := next[|bufs| := b];
      ring, pos := MovedFront(ring, pos[b]), MovedPos(pos, pos[b]);
      stamp, clock := stamp[b := clock], clock + 1;
    }

    /** Second half of `brelse`: the last user's release moves the buffer to the front of the ring. */
    method DropRef(pid: int, b: nat)
      requires Inv(St()) && b < |bufs| && pid in refs[b] && bufs[b].holder != pid && pid != 0
      modifies this`bufs, this`refs, this`next, this`prev, this`ring, this`pos, this`stamp, this`clock
      ensures Inv(St()) == true && Step(old(St()), St(), pid) == true
      ensures bufs == old(bufs)[b := old(bufs[b]).(refcnt := old(bufs[b].refcnt) - 1)]
      ensures refs == old(refs)[b := old(refs[b]) - multiset{pid}]
      ensures bufs[b].refcnt == 0 ==> AtFront(St(), b) == true
      ensures bufs[b].refcnt != 0 ==> next == old(next) && prev == old(prev)
    {
      ReleasedIs(St(), b, pid);
      Unref(pid, b);
    }

    /** Its statements. */
    method Unref(pid: int, b: nat)
      requires b < |bufs| == |refs| && Linkable(Dropped(St(), b, pid), b) == true
      modifies this`bufs, this`refs, this`next, this`prev, this`ring, this`pos, this`stamp, this`clock
      ensures St() == Released(old(St()), b, pid)
    {
      bufs := bufs[b := bufs[b].(refcnt := bufs[b].refcnt - 1)];
      refs := refs[b := refs[b] - multiset{pid}];
      if bufs[b].refcnt == 0 {
        Relink(b);
      }
    }
  }
}
