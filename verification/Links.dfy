/** sysfile.c and fs.c: link counts against directory entries. Paths are already resolved to an inode, or to a
    directory and a last name. A system call is one step, except `sys_link`, which lets go of the file between
    raising its count and adding the entry, and so is two steps that others can come between.
    `P == true` in a contract is P kept as one proof obligation; without it Dafny asks for P conjunct by conjunct. */
module Links {

  const ROOTINO := 1

  datatype Kind = Free | Dir | File | Dev
  datatype Entry = Entry(inum: int, name: string)
  datatype Inode = Inode(kind: Kind, nlink: int, ents: seq<Entry>)

  /** What `nameiparent` found. */
  datatype Parent = NoParent | Parent(dp: nat, name: string)

  const NOENTRY := Entry(0, "")

  // ---- counting names ----

  predicate Hit(e: Entry, i: int) { e.inum == i && e.name != "." }
  function HitN(e: Entry, i: int): int { if Hit(e, i) then 1 else 0 }

  /** How many of the first n slots name inode i by something other than ".". */
  function CountTo(ents: seq<Entry>, n: nat, i: int): (c: int)
    requires n <= |ents|
    ensures c >= 0
  {
    if n == 0 then 0 else CountTo(ents, n - 1, i) + HitN(ents[n - 1], i)
  }

  predicate Live(x: Inode) { x.kind.Dir? && x.nlink > 0 }

  function Share(x: Inode, i: int): (c: int)
    ensures c >= 0
  {
    if Live(x) then CountTo(x.ents, |x.ents|, i) else 0
  }

  /** How many entries of directories that still have links, "." aside, name inode i. */
  function TotalTo(ino: seq<Inode>, n: nat, i: int): (c: int)
    requires n <= |ino|
    ensures c >= 0
  {
    if n == 0 then 0 else TotalTo(ino, n - 1, i) + Share(ino[n - 1], i)
  }

  function Names(ino: seq<Inode>, i: int): int { TotalTo(ino, |ino|, i) }

  /** Slot j overwritten, or appended to. */
  function Put(ents: seq<Entry>, j: nat, e: Entry): seq<Entry>
    requires j <= |ents|
  {
    if j < |ents| then ents[j := e] else ents + [e]
  }

  lemma {:induction false} CountPut(ents: seq<Entry>, n: nat, j: nat, e: Entry, i: int)
    requires n <= |ents| && j <= |ents|
    ensures |Put(ents, j, e)| == (if j < |ents| then |ents| else |ents| + 1)
    ensures CountTo(Put(ents, j, e), n, i) ==
            CountTo(ents, n, i) + (if j < n then HitN(e, i) - HitN(ents[j], i) else 0)
  {
    if n > 0 { CountPut(ents, n - 1, j, e, i); }
  }

  lemma SharePut(x: Inode, j: nat, e: Entry, i: int)
    requires Live(x) && j <= |x.ents|
    ensures Share(x.(ents := Put(x.ents, j, e)), i) ==
            Share(x, i) + HitN(e, i) - (if j < |x.ents| then HitN(x.ents[j], i) else 0)
  {
    CountPut(x.ents, |x.ents|, j, e, i);
  }

  lemma {:induction false} TotalSet(ino: seq<Inode>, n: nat, d: nat, x: Inode, i: int)
    requires n <= |ino| && d < |ino|
    ensures TotalTo(ino[d := x], n, i) == TotalTo(ino, n, i) + (if d < n then Share(x, i) - Share(ino[d], i) else 0)
  {
    if n > 0 { TotalSet(ino, n - 1, d, x, i); }
  }

  lemma NamesSet(ino: seq<Inode>, d: nat, x: Inode, i: int)
    requires d < |ino|
    ensures Names(ino[d := x], i) == Names(ino, i) + Share(x, i) - Share(ino[d], i)
  {
    TotalSet(ino, |ino|, d, x, i);
  }

  lemma {:induction false} CountHit(ents: seq<Entry>, n: nat, j: nat, i: int)
    requires j < n <= |ents| && Hit(ents[j], i)
    ensures CountTo(ents, n, i) >= 1
  {
    if j < n - 1 { CountHit(ents, n - 1, j, i); }
  }

  lemma {:induction false} TotalHit(ino: seq<Inode>, n: nat, d: nat, j: nat, i: int)
    requires d < n <= |ino| && Live(ino[d]) && j < |ino[d].ents| && Hit(ino[d].ents[j], i)
    ensures TotalTo(ino, n, i) >= 1
  {
    CountHit(ino[d].ents, |ino[d].ents|, j, i);
    if d < n - 1 { TotalHit(ino, n - 1, d, j, i); }
  }

  lemma {:induction false} CountNone(ents: seq<Entry>, n: nat, i: int)
    requires n <= |ents| && forall j :: 0 <= j < n ==> !Hit(ents[j], i)
    ensures CountTo(ents, n, i) == 0
  {
    if n > 0 { CountNone(ents, n - 1, i); }
  }

  lemma {:induction false} TotalNone(ino: seq<Inode>, n: nat, i: int)
    requires n <= |ino|
    requires forall d, j :: 0 <= d < n && Live(ino[d]) && 0 <= j < |ino[d].ents| ==> !Hit(ino[d].ents[j], i)
    ensures TotalTo(ino, n, i) == 0
  {
    if n > 0 {
      TotalNone(ino, n - 1, i);
      if Live(ino[n - 1]) { CountNone(ino[n - 1].ents, |ino[n - 1].ents|, i); }
    }
  }

  // ---- the invariant ----

  /** pending[i]: `sys_link` calls that have raised i's count and not yet added the entry or undone it.
      place[c]: the directory and slot that name directory c.
      refs and valid: references to the inode in memory, and whether it has been read in since the first of them. */
  datatype State = State(ino: seq<Inode>, refs: seq<int>, valid: seq<bool>, pending: seq<int>, place: seq<(int, int)>)

  ghost predicate Counts(ino: seq<Inode>, pending: seq<int>) {
    && |pending| == |ino|
    && forall i :: 1 <= i < |ino| ==>
         pending[i] >= 0 && ino[i].nlink == Names(ino, i) + pending[i]
  }

  ghost predicate Shape(ino: seq<Inode>, pending: seq<int>, d: nat)
    requires d < |ino| == |pending|
  {
    var x := ino[d];
    && (x.kind.Free? ==> x.nlink == 0)
    && (x.kind.Dir? ==>
          && pending[d] == 0 && |x.ents| >= 2
          && x.ents[0] == Entry(d, ".") && x.ents[1].name == ".." && 1 <= x.ents[1].inum < |ino|
          && (forall j :: 2 <= j < |x.ents| ==> SlotOk(x.ents[j], |ino|))
          && (forall j :: 2 <= j < |x.ents| && x.nlink == 0 ==> x.ents[j].inum == 0))
  }

  predicate SlotOk(e: Entry, n: nat) {
    0 <= e.inum < n && (e.inum != 0 ==> e.name != "." && e.name != "..")
  }

  /** Each live directory other than the root is named by exactly one slot, in the directory its ".." names. */
  ghost predicate Placed(ino: seq<Inode>, place: seq<(int, int)>, c: nat)
    requires c < |ino| == |place|
  {
    Live(ino[c]) && c != ROOTINO ==>
      var (d, j) := place[c];
      0 <= d < |ino| && Live(ino[d]) && 2 <= j < |ino[d].ents| && ino[d].ents[j].inum == c &&
      |ino[c].ents| >= 2 && ino[c].ents[1].inum == d
  }

  ghost predicate OnlyPlace(ino: seq<Inode>, place: seq<(int, int)>, d: nat, j: nat)
    requires d < |ino| == |place| && j < |ino[d].ents|
  {
    var c := ino[d].ents[j].inum;
    Live(ino[d]) && 0 < c < |ino| && ino[c].kind.Dir? ==> c != ROOTINO && place[c] == (d, j)
  }

  ghost predicate Tree(ino: seq<Inode>, pending: seq<int>, place: seq<(int, int)>) {
    && |ino| == |pending| == |place| && |ino| > ROOTINO
    && Live(ino[ROOTINO]) && |ino[ROOTINO].ents| >= 2 && ino[ROOTINO].ents[1].inum == ROOTINO
    && ino[0].kind.Free?
    && (forall d :: 0 <= d < |ino| ==> Shape(ino, pending, d))
    && (forall c :: 0 <= c < |ino| ==> Placed(ino, place, c))
    && (forall d, j :: 0 <= d < |ino| && 2 <= j < |ino[d].ents| ==> OnlyPlace(ino, place, d, j))
  }

  /** Every link count is the number of names, plus the `sys_link` calls under way. */
  ghost predicate Inv(s: State) {
    && |s.refs| == |s.ino|
    && Counts(s.ino, s.pending)
    && Tree(s.ino, s.pending, s.place)
  }

  /** What the counts are for: no entry of a live directory names a free inode. */
  lemma NamedIsAllocated(s: State, d: nat, j: nat)
    requires Inv(s) && d < |s.ino| && Live(s.ino[d]) && j < |s.ino[d].ents| && s.ino[d].ents[j].inum != 0
    ensures 0 < s.ino[d].ents[j].inum < |s.ino| && !s.ino[s.ino[d].ents[j].inum].kind.Free?
  {
    assert Shape(s.ino, s.pending, d);
    if j >= 2 { assert SlotOk(s.ino[d].ents[j], |s.ino|); }
    var i := s.ino[d].ents[j].inum;
    assert Shape(s.ino, s.pending, i);
    if s.ino[d].ents[j].name != "." { TotalHit(s.ino, |s.ino|, d, j, i); }
  }

  /** An inode without links is named by no live directory. */
  lemma UnlinkedIsUnnamed(s: State, i: nat, d: nat, j: nat)
    requires Inv(s) && 0 < i < |s.ino| && s.ino[i].nlink == 0
    requires d < |s.ino| && Live(s.ino[d]) && j < |s.ino[d].ents|
    ensures s.ino[d].ents[j].inum != i
  {
    assert Shape(s.ino, s.pending, d) && Shape(s.ino, s.pending, i);
    if j >= 2 { assert SlotOk(s.ino[d].ents[j], |s.ino|); }
    if Hit(s.ino[d].ents[j], i) { TotalHit(s.ino, |s.ino|, d, j, i); }
  }

  // ---- the steps, on values ----

  function WithLinks(ino: seq<Inode>, i: nat, k: int): seq<Inode>
    requires i < |ino|
  {
    ino[i := ino[i].(nlink := ino[i].nlink + k)]
  }

  function WithEntry(ino: seq<Inode>, d: nat, j: nat, e: Entry): seq<Inode>
    requires d < |ino| && j <= |ino[d].ents|
  {
    ino[d := ino[d].(ents := Put(ino[d].ents, j, e))]
  }

  /** Start (k = 1) or undo (k = -1) of `sys_link` on file i. */
  function LinkStart(s: State, i: nat, k: int): State
    requires i < |s.ino| == |s.pending|
  {
    s.(ino := WithLinks(s.ino, i, k), pending := s.pending[i := s.pending[i] + k])
  }

  lemma LinkStartKeeps(s: State, i: nat, k: int)
    requires Inv(s) && 0 < i < |s.ino| && !s.ino[i].kind.Dir? && !s.ino[i].kind.Free? && s.pending[i] + k >= 0
    ensures Inv(LinkStart(s, i, k))
  {
    var t := LinkStart(s, i, k);
    forall c | 1 <= c < |s.ino| ensures t.pending[c] >= 0 && t.ino[c].nlink == Names(t.ino, c) + t.pending[c] {
      NamesSet(s.ino, i, t.ino[i], c);
    }
    SameDirsTree(s.ino, t.ino, s.pending, t.pending, s.place);
  }

  /** The tree only depends on the directories. */
  lemma SameDirsTree(ino: seq<Inode>, ino': seq<Inode>, pending: seq<int>, pending': seq<int>, place: seq<(int, int)>)
    requires Tree(ino, pending, place) && |ino| == |ino'| == |pending'|
    requires forall d :: 0 <= d < |ino| ==>
               if ino[d].kind.Dir? then ino'[d] == ino[d] && pending'[d] == pending[d]
               else ino'[d] == ino[d].(kind := ino'[d].kind, nlink := ino'[d].nlink) && !ino'[d].kind.Dir?
    requires forall d :: 0 <= d < |ino| && ino'[d].kind.Free? ==> ino'[d].nlink == 0 || ino'[d] == ino[d]
    requires ino'[0].kind.Free?
    ensures Tree(ino', pending', place)
  {
    forall d | 0 <= d < |ino| ensures Shape(ino', pending', d) { assert Shape(ino, pending, d); }
    forall c | 0 <= c < |ino| ensures Placed(ino', place, c) { assert Placed(ino, place, c); }
    forall d, j | 0 <= d < |ino| && 2 <= j < |ino'[d].ents| ensures OnlyPlace(ino', place, d, j) {
      assert OnlyPlace(ino, place, d, j);
    }
  }

  /** A slot that `dirlink` can use: empty, or just past the end. */
  ghost predicate FreeSlot(s: State, d: nat, j: nat) {
    && d < |s.ino| && s.ino[d].kind.Dir? && 2 <= j <= |s.ino[d].ents|
    && (j < |s.ino[d].ents| ==> s.ino[d].ents[j].inum == 0)
  }

  predicate GoodName(name: string) { name != "." && name != ".." }

  function LinkAdd(s: State, d: nat, j: nat, name: string, i: nat): State
    requires d < |s.ino| && j <= |s.ino[d].ents| && i < |s.pending|
  {
    s.(ino := WithEntry(s.ino, d, j, Entry(i, name)), pending := s.pending[i := s.pending[i] - 1])
  }

  lemma EntryNames(s: State, d: nat, j: nat, name: string, i: nat, c: nat)
    requires Inv(s) && FreeSlot(s, d, j) && Live(s.ino[d]) && GoodName(name) && 0 < i < |s.ino| && 0 < c < |s.ino|
    ensures Names(WithEntry(s.ino, d, j, Entry(i, name)), c) == Names(s.ino, c) + (if c == i then 1 else 0)
  {
    SharePut(s.ino[d], j, Entry(i, name), c);
    NamesSet(s.ino, d, WithEntry(s.ino, d, j, Entry(i, name))[d], c);
  }

  lemma EntryTree(ino: seq<Inode>, pending: seq<int>, place: seq<(int, int)>, d: nat, j: nat, e: Entry)
    requires Tree(ino, pending, place) && d < |ino| && Live(ino[d]) && 2 <= j <= |ino[d].ents|
    requires j < |ino[d].ents| ==> 0 <= ino[d].ents[j].inum < |ino| && !ino[ino[d].ents[j].inum].kind.Dir?
    requires SlotOk(e, |ino|) && !ino[e.inum].kind.Dir?
    ensures Tree(WithEntry(ino, d, j, e), pending, place)
  {
    var ino' := WithEntry(ino, d, j, e);
    forall c | 0 <= c < |ino| ensures Shape(ino', pending, c) { assert Shape(ino, pending, c); }
    forall c | 0 <= c < |ino| ensures Placed(ino', place, c) { assert Placed(ino, place, c); }
    forall c, k | 0 <= c < |ino| && 2 <= k < |ino'[c].ents| ensures OnlyPlace(ino', place, c, k) {
      if c != d || k != j { assert OnlyPlace(ino, place, c, k); }
    }
  }

  /** `dirlink` at the end of `sys_link` keeps the counts if and only if the directory still has links. */
  lemma LinkAddKeepsIff(s: State, d: nat, j: nat, name: string, i: nat)
    requires Inv(s) && FreeSlot(s, d, j) && GoodName(name)
    requires 0 < i < |s.ino| && !s.ino[i].kind.Dir? && s.pending[i] > 0
    ensures Inv(LinkAdd(s, d, j, name, i)) <==> s.ino[d].nlink > 0
  {
    var t := LinkAdd(s, d, j, name, i);
    if s.ino[d].nlink > 0 {
      forall c | 1 <= c < |s.ino| ensures t.pending[c] >= 0 && t.ino[c].nlink == Names(t.ino, c) + t.pending[c] {
        EntryNames(s, d, j, name, i, c);
      }
      EntryTree(s.ino, s.pending, s.place, d, j, Entry(i, name));
      SameDirsTree(t.ino, t.ino, s.pending, t.pending, s.place);
    } else {
      NamesSet(s.ino, d, t.ino[d], i);
      assert t.ino[i].nlink != Names(t.ino, i) + t.pending[i];
    }
  }

  /** `create` of a file or device, in a fresh inode i. */
  function CreateFile(s: State, d: nat, j: nat, name: string, i: nat, kind: Kind): State
    requires d < |s.ino| && j <= |s.ino[d].ents| && i < |s.ino| && i != d
  {
    s.(ino := WithEntry(s.ino[i := Inode(kind, 1, [])], d, j, Entry(i, name)))
  }

  lemma CreateFileKeepsIff(s: State, d: nat, j: nat, name: string, i: nat, kind: Kind)
    requires Inv(s) && FreeSlot(s, d, j) && GoodName(name)
    requires 0 < i < |s.ino| && s.ino[i].kind.Free? && (kind.File? || kind.Dev?)
    ensures Inv(CreateFile(s, d, j, name, i, kind)) <==> s.ino[d].nlink > 0
  {
    var ino1 := s.ino[i := Inode(kind, 1, [])];
    var t := CreateFile(s, d, j, name, i, kind);
    forall c | 1 <= c < |s.ino|
      ensures Names(t.ino, c) == Names(s.ino, c) + (if c == i && s.ino[d].nlink > 0 then 1 else 0)
    {
      NamesSet(s.ino, i, ino1[i], c);
      NamesSet(ino1, d, t.ino[d], c);
      if s.ino[d].nlink > 0 { SharePut(s.ino[d], j, Entry(i, name), c); }
    }
    assert Shape(s.ino, s.pending, i);
    if s.ino[d].nlink > 0 {
      FreshTree(s.ino, s.pending, s.place, i, kind);
      EntryTree(ino1, s.pending, s.place, d, j, Entry(i, name));
    } else {
      assert t.ino[i].nlink != Names(t.ino, i) + t.pending[i];
    }
  }

  lemma FreshTree(ino: seq<Inode>, pending: seq<int>, place: seq<(int, int)>, i: nat, kind: Kind)
    requires Tree(ino, pending, place) && 0 < i < |ino| && ino[i].kind.Free? && (kind.File? || kind.Dev?)
    ensures Tree(ino[i := Inode(kind, 1, [])], pending, place)
  {
    var ino' := ino[i := Inode(kind, 1, [])];
    forall d | 0 <= d < |ino| ensures Shape(ino', pending, d) { assert Shape(ino, pending, d); }
    forall c | 0 <= c < |ino| ensures Placed(ino', place, c) { assert Placed(ino, place, c); }
    forall d, j | 0 <= d < |ino| && 2 <= j < |ino'[d].ents| ensures OnlyPlace(ino', place, d, j) {
      if d != i { assert OnlyPlace(ino, place, d, j); }
    }
  }

  /** `create` of a directory i in directory d: d gains a link for "..", i starts with its two entries. */
  function CreateDir(s: State, d: nat, j: nat, name: string, i: nat): State
    requires d < |s.ino| == |s.place| && j <= |s.ino[d].ents| && i < |s.ino| && i != d
  {
    s.(ino := WithEntry(WithLinks(s.ino, d, 1)[i := NewDir(i, d)], d, j, Entry(i, name)),
       place := s.place[i := (d, j)])
  }

  function NewDir(i: int, d: int): Inode { Inode(Dir, 1, [Entry(i, "."), Entry(d, "..")]) }

  lemma NewDirShare(i: int, d: int, c: int)
    ensures Share(NewDir(i, d), c) == if c == d then 1 else 0
  {
    var ents := NewDir(i, d).ents;
    assert CountTo(ents, 0, c) == 0;
    assert CountTo(ents, 1, c) == 0;
    assert CountTo(ents, 2, c) == HitN(ents[1], c);
  }

  /** Names after `create` of a directory in a live one: one more for i, and one more for d from i's "..". */
  lemma CreateDirNames(s: State, d: nat, j: nat, name: string, i: nat, c: nat)
    requires Inv(s) && FreeSlot(s, d, j) && GoodName(name) && Live(s.ino[d])
    requires 0 < i < |s.ino| && s.ino[i].kind.Free? && 0 < c < |s.ino|
    ensures Names(CreateDir(s, d, j, name, i).ino, c) ==
            Names(s.ino, c) + (if c == i then 1 else 0) + (if c == d then 1 else 0)
  {
    var ino1 := WithLinks(s.ino, d, 1);
    var ino2 := ino1[i := NewDir(i, d)];
    var ino3 := WithEntry(ino2, d, j, Entry(i, name));
    NamesSet(s.ino, d, ino1[d], c);
    NamesSet(ino1, i, NewDir(i, d), c);
    NewDirShare(i, d, c);
    NamesSet(ino2, d, ino3[d], c);
    SharePut(ino2[d], j, Entry(i, name), c);
  }

  /** In a removed directory d the new ".." revives d, and with it the uncounted ".." of d itself. */
  lemma CreateDirNamesDead(s: State, d: nat, j: nat, name: string, i: nat)
    requires Inv(s) && FreeSlot(s, d, j) && GoodName(name) && s.ino[d].nlink == 0
    requires 0 < i < |s.ino| && s.ino[i].kind.Free?
    ensures |s.ino[d].ents| >= 2 && 0 < s.ino[d].ents[1].inum < |s.ino|
    ensures var p := s.ino[d].ents[1].inum;
            Names(CreateDir(s, d, j, name, i).ino, p) > Names(s.ino, p) + (if p == d || p == i then 1 else 0)
  {
    assert Shape(s.ino, s.pending, d);
    var p := s.ino[d].ents[1].inum;
    var ino1 := WithLinks(s.ino, d, 1);
    var ino2 := ino1[i := NewDir(i, d)];
    var ino3 := WithEntry(ino2, d, j, Entry(i, name));
    NamesSet(s.ino, d, ino1[d], p);
    NamesSet(ino1, i, NewDir(i, d), p);
    NewDirShare(i, d, p);
    NamesSet(ino2, d, ino3[d], p);
    SharePut(ino2[d], j, Entry(i, name), p);
    CountHit(s.ino[d].ents, |s.ino[d].ents|, 1, p);
  }

  lemma CreateDirOnlyPlace(s: State, d: nat, j: nat, name: string, i: nat, c: nat, k: nat)
    requires Inv(s) && FreeSlot(s, d, j) && GoodName(name) && Live(s.ino[d])
    requires 0 < i < |s.ino| && s.ino[i].kind.Free? && c < |s.ino|
    requires 2 <= k < |CreateDir(s, d, j, name, i).ino[c].ents|
    ensures OnlyPlace(CreateDir(s, d, j, name, i).ino, CreateDir(s, d, j, name, i).place, c, k)
  {
    assert Shape(s.ino, s.pending, i);
    if c != d || k != j {
      assert OnlyPlace(s.ino, s.place, c, k);
      if Live(s.ino[c]) { UnlinkedIsUnnamed(s, i, c, k); }
    }
  }

  lemma CreateDirPlaced(s: State, d: nat, j: nat, name: string, i: nat, c: nat)
    requires Inv(s) && FreeSlot(s, d, j) && GoodName(name) && Live(s.ino[d])
    requires 0 < i < |s.ino| && s.ino[i].kind.Free? && c < |s.ino|
    ensures var t := CreateDir(s, d, j, name, i); Placed(t.ino, t.place, c)
  {
    assert Placed(s.ino, s.place, c);
    assert Shape(s.ino, s.pending, i) && Shape(s.ino, s.pending, d);
  }

  lemma CreateDirTree(s: State, d: nat, j: nat, name: string, i: nat)
    requires Inv(s) && FreeSlot(s, d, j) && GoodName(name) && Live(s.ino[d])
    requires 0 < i < |s.ino| && s.ino[i].kind.Free?
    ensures var t := CreateDir(s, d, j, name, i); Tree(t.ino, t.pending, t.place)
  {
    var t := CreateDir(s, d, j, name, i);
    assert Shape(s.ino, s.pending, i) && Shape(s.ino, s.pending, d);
    forall c | 0 <= c < |s.ino| ensures Shape(t.ino, t.pending, c) { assert Shape(s.ino, s.pending, c); }
    forall c | 0 <= c < |s.ino| ensures Placed(t.ino, t.place, c) { CreateDirPlaced(s, d, j, name, i, c); }
    forall c, k | 0 <= c < |s.ino| && 2 <= k < |t.ino[c].ents| ensures OnlyPlace(t.ino, t.place, c, k) {
      CreateDirOnlyPlace(s, d, j, name, i, c, k);
    }
  }

  lemma CreateDirKeepsIff(s: State, d: nat, j: nat, name: string, i: nat)
    requires Inv(s) && FreeSlot(s, d, j) && GoodName(name)
    requires 0 < i < |s.ino| && s.ino[i].kind.Free?
    ensures Inv(CreateDir(s, d, j, name, i)) <==> s.ino[d].nlink > 0
  {
    var t := CreateDir(s, d, j, name, i);
    assert Shape(s.ino, s.pending, i) && Shape(s.ino, s.pending, d);
    if s.ino[d].nlink > 0 {
      forall c | 1 <= c < |s.ino| ensures t.pending[c] >= 0 && t.ino[c].nlink == Names(t.ino, c) + t.pending[c] {
        CreateDirNames(s, d, j, name, i, c);
      }
      CreateDirTree(s, d, j, name, i);
    } else {
      CreateDirNamesDead(s, d, j, name, i);
      var p := s.ino[d].ents[1].inum;
      assert t.ino[p].nlink != Names(t.ino, p) + t.pending[p];
    }
  }

  /** `sys_unlink` of a file or device. */
  function UnlinkFile(s: State, d: nat, j: nat, i: nat): State
    requires d < |s.ino| && j < |s.ino[d].ents| && i < |s.ino|
  {
    s.(ino := WithLinks(WithEntry(s.ino, d, j, NOENTRY), i, -1))
  }

  /** Slot j of the live directory d names inode i. */
  ghost predicate NamesAt(s: State, d: nat, j: nat, i: nat) {
    d < |s.ino| && Live(s.ino[d]) && 2 <= j < |s.ino[d].ents| && 0 < i < |s.ino| && s.ino[d].ents[j].inum == i
  }

  /** Clearing a slot takes one name from the inode it named. */
  lemma ClearedNames(s: State, d: nat, j: nat, i: nat, c: nat)
    requires Inv(s) && NamesAt(s, d, j, i) && 0 < c < |s.ino|
    ensures Names(WithEntry(s.ino, d, j, NOENTRY), c) == Names(s.ino, c) - (if c == i then 1 else 0)
    ensures s.ino[i].nlink >= 1
  {
    assert Shape(s.ino, s.pending, d) && SlotOk(s.ino[d].ents[j], |s.ino|);
    SharePut(s.ino[d], j, NOENTRY, c);
    NamesSet(s.ino, d, WithEntry(s.ino, d, j, NOENTRY)[d], c);
    TotalHit(s.ino, |s.ino|, d, j, i);
  }

  lemma UnlinkFileKeeps(s: State, d: nat, j: nat, i: nat)
    requires Inv(s) && NamesAt(s, d, j, i) && !s.ino[i].kind.Dir?
    ensures Inv(UnlinkFile(s, d, j, i)) && s.ino[i].nlink >= 1
  {
    var ino1 := WithEntry(s.ino, d, j, NOENTRY);
    var t := UnlinkFile(s, d, j, i);
    forall c | 1 <= c < |s.ino| ensures t.pending[c] >= 0 && t.ino[c].nlink == Names(t.ino, c) + t.pending[c] {
      ClearedNames(s, d, j, i, c);
      NamesSet(ino1, i, t.ino[i], c);
    }
    NamedIsAllocated(s, d, j);
    EntryTree(s.ino, s.pending, s.place, d, j, NOENTRY);
    SameDirsTree(ino1, t.ino, s.pending, s.pending, s.place);
  }

  /** What `isdirempty` tests. */
  ghost predicate EmptyDir(x: Inode) {
    forall k :: 2 <= k < |x.ents| ==> x.ents[k].inum == 0
  }

  function UnlinkDir(s: State, d: nat, j: nat, i: nat): State
    requires d < |s.ino| && j < |s.ino[d].ents| && i < |s.ino|
  {
    s.(ino := WithLinks(WithLinks(WithEntry(s.ino, d, j, NOENTRY), d, -1), i, -1))
  }

  lemma {:induction false} EmptyCount(ents: seq<Entry>, n: nat, c: int)
    requires 2 <= n <= |ents| && c > 0 && ents[0].name == "."
    requires forall k :: 2 <= k < |ents| ==> ents[k].inum == 0
    ensures CountTo(ents, n, c) == HitN(ents[1], c)
  {
    if n == 2 {
      assert CountTo(ents, 1, c) == CountTo(ents, 0, c);
    } else {
      EmptyCount(ents, n - 1, c);
    }
  }

  /** An empty directory has one name, and its ".." is the directory that names it. */
  lemma EmptyDirNamedOnce(s: State, d: nat, j: nat, i: nat)
    requires Inv(s) && NamesAt(s, d, j, i) && s.ino[i].kind.Dir? && EmptyDir(s.ino[i])
    ensures s.ino[i].nlink == 1 && i != d && i != ROOTINO
    ensures forall c :: 0 < c ==> Share(s.ino[i], c) == (if c == d then 1 else 0)
  {
    var ino1 := WithEntry(s.ino, d, j, NOENTRY);
    assert OnlyPlace(s.ino, s.place, d, j) && Shape(s.ino, s.pending, i) && Shape(s.ino, s.pending, d);
    forall e, k | 0 <= e < |s.ino| && Live(ino1[e]) && 0 <= k < |ino1[e].ents| ensures !Hit(ino1[e].ents[k], i) {
      assert Shape(s.ino, s.pending, e) && Placed(s.ino, s.place, e);
      if k >= 2 { assert OnlyPlace(s.ino, s.place, e, k); }
    }
    TotalNone(ino1, |ino1|, i);
    ClearedNames(s, d, j, i, i);
    assert Placed(s.ino, s.place, i);
    forall c | 0 < c ensures Share(s.ino[i], c) == (if c == d then 1 else 0) {
      EmptyCount(s.ino[i].ents, |s.ino[i].ents|, c);
    }
  }

  /** The directory it was in still has a name of its own. */
  lemma ParentStaysLive(s: State, d: nat, j: nat, i: nat)
    requires Inv(s) && NamesAt(s, d, j, i) && s.ino[i].kind.Dir? && EmptyDir(s.ino[i])
    ensures s.ino[d].nlink >= 2
  {
    EmptyDirNamedOnce(s, d, j, i);
    var ino1 := WithEntry(s.ino, d, j, NOENTRY);
    var inoA := WithLinks(ino1, i, -1);
    ClearedNames(s, d, j, i, d);
    NamesSet(ino1, i, inoA[i], d);
    assert Shape(s.ino, s.pending, d) && Placed(s.ino, s.place, d);
    if d == ROOTINO {
      TotalHit(inoA, |inoA|, d, 1, d);
    } else {
      var (p, k) := s.place[d];
      assert Shape(s.ino, s.pending, p) && SlotOk(s.ino[p].ents[k], |s.ino|);
      TotalHit(inoA, |inoA|, p, k, d);
    }
  }

  lemma UnlinkDirNames(s: State, d: nat, j: nat, i: nat, c: nat)
    requires Inv(s) && NamesAt(s, d, j, i) && s.ino[i].kind.Dir? && EmptyDir(s.ino[i]) && 0 < c < |s.ino|
    ensures Names(UnlinkDir(s, d, j, i).ino, c) ==
            Names(s.ino, c) - (if c == i then 1 else 0) - (if c == d then 1 else 0)
  {
    EmptyDirNamedOnce(s, d, j, i);
    ParentStaysLive(s, d, j, i);
    var ino1 := WithEntry(s.ino, d, j, NOENTRY);
    var ino2 := WithLinks(ino1, d, -1);
    var ino3 := WithLinks(ino2, i, -1);
    ClearedNames(s, d, j, i, c);
    NamesSet(ino1, d, ino2[d], c);
    NamesSet(ino2, i, ino3[i], c);
  }

  lemma UnlinkDirPlaces(s: State, d: nat, j: nat, i: nat, c: nat)
    requires Inv(s) && NamesAt(s, d, j, i) && s.ino[i].kind.Dir? && EmptyDir(s.ino[i]) && c < |s.ino|
    ensures var t := UnlinkDir(s, d, j, i); Shape(t.ino, t.pending, c) && Placed(t.ino, t.place, c)
  {
    EmptyDirNamedOnce(s, d, j, i);
    ParentStaysLive(s, d, j, i);
    assert Shape(s.ino, s.pending, c) && Placed(s.ino, s.place, c);
  }

  lemma UnlinkDirOnlyPlace(s: State, d: nat, j: nat, i: nat, c: nat, k: nat)
    requires Inv(s) && NamesAt(s, d, j, i) && s.ino[i].kind.Dir? && c < |s.ino| && 2 <= k < |s.ino[c].ents|
    ensures |UnlinkDir(s, d, j, i).ino[c].ents| == |s.ino[c].ents|
    ensures OnlyPlace(UnlinkDir(s, d, j, i).ino, s.place, c, k)
  {
    assert OnlyPlace(s.ino, s.place, c, k);
  }

  lemma UnlinkDirKeeps(s: State, d: nat, j: nat, i: nat)
    requires Inv(s) && NamesAt(s, d, j, i) && s.ino[i].kind.Dir? && EmptyDir(s.ino[i])
    ensures Inv(UnlinkDir(s, d, j, i)) && s.ino[i].nlink >= 1
  {
    EmptyDirNamedOnce(s, d, j, i);
    ParentStaysLive(s, d, j, i);
    var t := UnlinkDir(s, d, j, i);
    forall c | 1 <= c < |s.ino| ensures t.pending[c] >= 0 && t.ino[c].nlink == Names(t.ino, c) + t.pending[c] {
      UnlinkDirNames(s, d, j, i, c);
    }
    forall c | 0 <= c < |s.ino| ensures Shape(t.ino, t.pending, c) && Placed(t.ino, t.place, c) {
      UnlinkDirPlaces(s, d, j, i, c);
    }
    forall c, k | 0 <= c < |s.ino| && 2 <= k < |t.ino[c].ents| ensures OnlyPlace(t.ino, t.place, c, k) {
      UnlinkDirOnlyPlace(s, d, j, i, c, k);
    }
  }

  /** `iput` frees an inode without links: nothing that counts named it. */
  function Freed(s: State, i: nat): State
    requires i < |s.ino|
  {
    s.(ino := s.ino[i := Inode(Free, 0, [])])
  }

  lemma FreedKeeps(s: State, i: nat)
    requires Inv(s) && 0 < i < |s.ino| && s.ino[i].nlink == 0
    ensures Inv(Freed(s, i))
  {
    var t := Freed(s, i);
    forall c | 1 <= c < |s.ino| ensures t.pending[c] >= 0 && t.ino[c].nlink == Names(t.ino, c) + t.pending[c] {
      NamesSet(s.ino, i, t.ino[i], c);
    }
    forall c | 0 <= c < |s.ino| ensures Shape(t.ino, t.pending, c) && Placed(t.ino, t.place, c) {
      assert Shape(s.ino, s.pending, c) && Placed(s.ino, s.place, c);
    }
    forall c, k | 0 <= c < |s.ino| && 2 <= k < |t.ino[c].ents| ensures OnlyPlace(t.ino, t.place, c, k) {
      if c != i { assert OnlyPlace(s.ino, s.place, c, k); }
    }
  }

  /** `iget`. */
  function Gotten(s: State, i: nat): State
    requires i < |s.refs|
  {
    s.(refs := s.refs[i := s.refs[i] + 1])
  }

  /** `ilock`, which reads the inode in. */
  function Locked(s: State, i: nat): State
    requires i < |s.valid|
  {
    s.(valid := s.valid[i := true])
  }

  /** `iput`: the last reference to an inode without links frees it. */
  function Iputted(s: State, i: nat): State
    requires i < |s.ino| == |s.refs| == |s.valid|
  {
    var t := if s.valid[i] && s.ino[i].nlink == 0 && s.refs[i] == 1 then Freed(s, i) else s;
    t.(refs := s.refs[i := s.refs[i] - 1], valid := if s.refs[i] == 1 then s.valid[i := false] else s.valid)
  }

  /** An inode that somebody still holds is never free. */
  ghost predicate Held(s: State) {
    && |s.refs| == |s.valid| == |s.ino|
    && (forall i :: 0 <= i < |s.ino| ==> s.refs[i] >= 0 && (s.ino[i].kind.Free? ==> s.refs[i] == 0))
    && (forall i :: 0 <= i < |s.ino| && s.valid[i] ==> s.refs[i] > 0)
  }

  /** Inode i is not lost: without links it is free, or somebody holds it whose `iput` will free it. */
  ghost predicate NotLost(s: State, i: nat)
    requires i < |s.ino| == |s.refs| == |s.valid|
  {
    !s.ino[i].kind.Free? && s.ino[i].nlink == 0 ==> s.refs[i] > 0 && s.valid[i]
  }

  /** No inode, except perhaps x, is lost. */
  ghost predicate NoneLostBut(s: State, x: int) {
    |s.refs| == |s.valid| == |s.ino| && forall i :: 0 < i < |s.ino| && i != x ==> NotLost(s, i)
  }

  ghost predicate NoneLost(s: State) { NoneLostBut(s, 0) }

  ghost predicate Sound(s: State) { Inv(s) && Held(s) && DistinctNames(s.ino) }

  /** Holds between the steps of every run that adds no entry to a removed directory. */
  ghost predicate Valid(s: State) { Sound(s) && NoneLost(s) }

  /** Every inode in use has a name, a link under way, or a holder. */
  lemma NoInodeLost(s: State, i: nat)
    requires Valid(s) && 0 < i < |s.ino| && !s.ino[i].kind.Free?
    ensures Names(s.ino, i) > 0 || s.pending[i] > 0 || s.refs[i] > 0
  {
    assert NotLost(s, i);
  }

  lemma IputKeeps(s: State, i: nat)
    requires 0 < i < |s.ino| == |s.refs| == |s.valid| && s.refs[i] >= 1
    ensures Inv(s) ==> Inv(Iputted(s, i))
    ensures Held(s) ==> Held(Iputted(s, i))
    ensures DistinctNames(s.ino) ==> DistinctNames(Iputted(s, i).ino)
    ensures forall c :: 0 <= c < |s.ino| && (c != i || s.refs[i] > 1) ==> Iputted(s, i).ino[c] == s.ino[c]
  {
    if Inv(s) && s.valid[i] && s.ino[i].nlink == 0 && s.refs[i] == 1 { FreedKeeps(s, i); }
  }

  /** Whoever gives back the last reference to an inode they had locked does not lose it. */
  lemma IputFinds(s: State, i: nat)
    requires 0 < i < |s.ino| == |s.refs| == |s.valid| && s.refs[i] >= 1
    requires NoneLostBut(s, i) && (s.valid[i] || s.ino[i].nlink != 0)
    ensures NoneLost(Iputted(s, i))
  {
    var t := Iputted(s, i);
    forall c | 0 < c < |t.ino| ensures NotLost(t, c) {
      if c != i { assert NotLost(s, c); }
    }
  }

  /** So any `iput` keeps that no inode is lost. */
  lemma IputValid(s: State, i: nat)
    requires Valid(s) && 0 < i < |s.ino| && s.refs[i] >= 1
    ensures Valid(Iputted(s, i)) == true
  {
    assert NotLost(s, i);
    IputKeeps(s, i);
    IputFinds(s, i);
  }

  lemma LockedKeeps(s: State, i: nat)
    requires i < |s.ino| == |s.valid| && |s.refs| == |s.ino| && s.refs[i] >= 1
    ensures Sound(s) ==> Sound(Locked(s, i)) == true
    ensures Valid(s) ==> Valid(Locked(s, i)) == true
  {
    var t := Locked(s, i);
    if NoneLost(s) {
      forall c | 0 < c < |t.ino| ensures NotLost(t, c) { assert NotLost(s, c); }
    }
  }

  predicate SameName(e: Entry, f: Entry) { e.inum != 0 && f.inum != 0 && e.name == f.name }

  /** No name stands twice in a directory. */
  ghost predicate Distinct(ents: seq<Entry>) {
    forall j, k :: 0 <= j < |ents| && 0 <= k < |ents| && SameName(ents[j], ents[k]) ==> j == k
  }

  ghost predicate DistinctNames(ino: seq<Inode>) {
    forall d :: 0 <= d < |ino| && ino[d].kind.Dir? ==> Distinct(ino[d].ents)
  }

  ghost predicate Absent(ents: seq<Entry>, n: nat, name: string)
    requires n <= |ents|
  {
    forall k :: 0 <= k < n ==> ents[k].inum == 0 || ents[k].name != name
  }

  lemma PutDistinct(ino: seq<Inode>, d: nat, j: nat, e: Entry)
    requires DistinctNames(ino) && d < |ino| && ino[d].kind.Dir? && j <= |ino[d].ents|
    requires e.inum == 0 || Absent(ino[d].ents, |ino[d].ents|, e.name)
    ensures DistinctNames(WithEntry(ino, d, j, e))
  {
  }

  /** Where `dirlink` puts a new name there are no other entries, and the name is not "." or "..". */
  lemma SlotIsFree(s: State, d: nat, j: nat, name: string)
    requires Inv(s) && d < |s.ino| && s.ino[d].kind.Dir? && j <= |s.ino[d].ents|
    requires Absent(s.ino[d].ents, |s.ino[d].ents|, name)
    requires j < |s.ino[d].ents| ==> s.ino[d].ents[j].inum == 0
    ensures FreeSlot(s, d, j) && GoodName(name) && d != 0
  {
    assert Shape(s.ino, s.pending, d);
  }

  /** The state a successful `sys_link` leaves: the entry, less the two references it gives back. */
  function LinkDone(s: State, d: nat, j: nat, name: string, i: nat): State
    requires d < |s.ino| == |s.refs| == |s.valid| && j <= |s.ino[d].ents| && i < |s.pending| == |s.ino|
  {
    Iputted(Iputted(LinkAdd(Locked(s, d), d, j, name, i), d), i)
  }

  /** `sys_link` leaves correct counts if and only if the directory it added to still had links. */
  lemma LinkDoneInvIff(s: State, d: nat, j: nat, name: string, i: nat)
    requires Inv(s) && FreeSlot(s, d, j) && GoodName(name) && |s.refs| == |s.valid| == |s.ino|
    requires 0 < d && 0 < i < |s.ino| && !s.ino[i].kind.Dir? && s.pending[i] > 0 && s.refs[i] >= 1 && s.refs[d] >= 1
    ensures Inv(LinkDone(s, d, j, name, i)) <==> s.ino[d].nlink > 0
  {
    var t := LinkAdd(Locked(s, d), d, j, name, i);
    var u := Iputted(t, d);
    LinkAddKeepsIff(Locked(s, d), d, j, name, i);
    if s.ino[d].nlink > 0 {
      IputKeeps(t, d);
      IputKeeps(u, i);
    } else {
      NamesSet(s.ino, d, t.ino[d], i);
      if s.refs[d] == 1 { NamesSet(t.ino, d, u.ino[d], i); }
      var v := Iputted(u, i);
      assert v.ino[i].nlink != Names(v.ino, i) + v.pending[i];
    }
  }

  lemma LinkDoneKeepsIff(s: State, d: nat, j: nat, name: string, i: nat)
    requires Valid(s) && FreeSlot(s, d, j) && GoodName(name) && Absent(s.ino[d].ents, |s.ino[d].ents|, name)
    requires 0 < d && 0 < i < |s.ino| && !s.ino[i].kind.Dir? && s.pending[i] > 0 && s.refs[i] >= 1 && s.refs[d] >= 1
    ensures Valid(LinkDone(s, d, j, name, i)) <==> s.ino[d].nlink > 0
  {
    LinkDoneInvIff(s, d, j, name, i);
    if s.ino[d].nlink > 0 {
      LockedKeeps(s, d);
      var s1 := Locked(s, d);
      var t := LinkAdd(s1, d, j, name, i);
      LinkAddKeepsIff(s1, d, j, name, i);
      PutDistinct(s1.ino, d, j, Entry(i, name));
      SameKinds(s1, t);
      SameLinksFound(s1, t);
      IputValid(t, d);
      IputValid(Iputted(t, d), i);
    }
  }

  lemma LinkNamed(s: State, d: nat, j: nat, name: string, i: nat)
    requires Valid(s) && FreeSlot(s, d, j) && 0 < d && 0 < i < |s.ino| && i != d && s.refs[d] >= 1
    requires s.pending[i] > 0 && s.ino[d].nlink > 0
    ensures var t := LinkDone(s, d, j, name, i);
            |t.ino[d].ents| > j && t.ino[d].ents[j] == Entry(i, name) && t.ino[i] == s.ino[i]
  {
  }

  /** The state a failed `sys_link` leaves. */
  function LinkFailed(s: State, i: nat, parent: Parent): State
    requires i < |s.ino| == |s.refs| == |s.valid| == |s.pending| && (parent.Parent? ==> parent.dp < |s.ino|)
  {
    var t := if parent.Parent? then Iputted(Locked(s, parent.dp), parent.dp) else s;
    Iputted(Locked(LinkStart(t, i, -1), i), i)
  }

  lemma LinkFailedKeeps(s: State, i: nat, parent: Parent)
    requires Valid(s) && 0 < i < |s.ino| && !s.ino[i].kind.Dir? && s.pending[i] > 0 && s.refs[i] >= 1
    requires parent.Parent? ==> 0 < parent.dp < |s.ino| && parent.dp != i && s.refs[parent.dp] >= 1
    ensures Valid(LinkFailed(s, i, parent))
  {
    var t := if parent.Parent? then Iputted(Locked(s, parent.dp), parent.dp) else s;
    if parent.Parent? {
      LockedKeeps(s, parent.dp);
      IputValid(Locked(s, parent.dp), parent.dp);
    }
    LinkStartKeeps(t, i, -1);
    var u := LinkStart(t, i, -1);
    SameKinds(t, u);
    SameEntriesDistinct(t.ino, u.ino);
    LockedKeeps(u, i);
    IputKeeps(Locked(u, i), i);
    LinkStartFinds(t, u, i);
    IputFinds(Locked(u, i), i);
  }

  lemma LinkStartValid(s: State, i: nat)
    requires Valid(s) && 0 < i < |s.ino| && !s.ino[i].kind.Dir? && s.refs[i] >= 1
    ensures Valid(LinkStart(s, i, 1)) == true
  {
    LinkStartKeeps(s, i, 1);
    var t := LinkStart(s, i, 1);
    SameKinds(s, t);
    SameEntriesDistinct(s.ino, t.ino);
    assert Counts(s.ino, s.pending) && s.ino[i].nlink >= 0;
    forall c | 0 < c < |t.ino| ensures NotLost(t, c) { assert NotLost(s, c); }
  }

  lemma LinkStartFinds(t: State, u: State, i: nat)
    requires NoneLost(t) && i < |t.ino| == |t.pending| && u == LinkStart(t, i, -1)
    ensures NoneLostBut(Locked(u, i), i)
  {
    forall c | 0 < c < |u.ino| && c != i ensures NotLost(Locked(u, i), c) { assert NotLost(t, c); }
  }

  /** A failed `sys_link` gives the link back: begun and undone, every inode is as it was, but for the
      references dropped on the way. */
  lemma FailedLinkRestores(s: State, i: nat, parent: Parent)
    requires Valid(s) && 0 < i < |s.ino| && !s.ino[i].kind.Dir? && s.refs[i] >= 1
    requires parent.Parent? ==> 0 < parent.dp < |s.ino| && parent.dp != i && s.refs[parent.dp] >= 1
    ensures LinkFailed(LinkStart(s, i, 1), i, parent) ==
            Iputted(Locked(if parent.Parent? then Iputted(Locked(s, parent.dp), parent.dp) else s, i), i)
  {
    var s1 := LinkStart(s, i, 1);
    var s2 := if parent.Parent? then Iputted(Locked(s1, parent.dp), parent.dp) else s1;
    var t := if parent.Parent? then Iputted(Locked(s, parent.dp), parent.dp) else s;
    var u := LinkStart(s2, i, -1);
    assert u.ino == t.ino && u.pending == t.pending && u.refs == t.refs && u.valid == t.valid;
  }

  /** What `dirlookup` finds under an ordinary name is an entry of a live directory. */
  lemma FoundIsNamed(s: State, d: nat, j: nat, name: string)
    requires Inv(s) && d < |s.ino| && s.ino[d].kind.Dir? && j < |s.ino[d].ents| && GoodName(name)
    requires s.ino[d].ents[j].inum != 0 && s.ino[d].ents[j].name == name
    ensures s.ino[d].ents[j].inum > 0 && NamesAt(s, d, j, s.ino[d].ents[j].inum)
    ensures !s.ino[s.ino[d].ents[j].inum].kind.Free? && s.ino[s.ino[d].ents[j].inum].nlink >= 1
  {
    assert Shape(s.ino, s.pending, d);
    assert SlotOk(s.ino[d].ents[j], |s.ino|);
    NamedIsAllocated(s, d, j);
    ClearedNames(s, d, j, s.ino[d].ents[j].inum, 1);
  }

  /** Slot k of directory d holds that name, not a dot name, and not of a directory with entries: the name can go. */
  ghost predicate Removable(s: State, d: nat, k: int, name: string) {
    && d < |s.ino| && 0 <= k < |s.ino[d].ents| && s.ino[d].ents[k].name == name && GoodName(name)
    && 0 < s.ino[d].ents[k].inum < |s.ino|
    && (s.ino[s.ino[d].ents[k].inum].kind.Dir? ==> EmptyDir(s.ino[s.ino[d].ents[k].inum]))
  }

  /** No other slot holds the name. */
  lemma OnlySlot(s: State, d: nat, j: nat, name: string)
    requires DistinctNames(s.ino) && d < |s.ino| && s.ino[d].kind.Dir? && j < |s.ino[d].ents|
    requires s.ino[d].ents[j].inum != 0 && s.ino[d].ents[j].name == name
    ensures forall k :: Removable(s, d, k, name) ==> k == j
  {
    forall k | Removable(s, d, k, name) ensures k == j { assert SameName(s.ino[d].ents[j], s.ino[d].ents[k]); }
  }

  /** The state `sys_unlink` leaves: one entry less, the counts lowered, the references given back. */
  function Unlinked(s: State, d: nat, j: nat, i: nat): State
    requires d < |s.ino| == |s.refs| == |s.valid| && j < |s.ino[d].ents| && i < |s.ino|
  {
    Iputted(Iputted(Locked(Gotten(LessName(Locked(s, d), d, j, i), i), i), d), i)
  }

  function LessName(s: State, d: nat, j: nat, i: nat): State
    requires d < |s.ino| && j < |s.ino[d].ents| && i < |s.ino|
  {
    if s.ino[i].kind.Dir? then UnlinkDir(s, d, j, i) else UnlinkFile(s, d, j, i)
  }

  lemma UnlinkedInv(s: State, d: nat, j: nat, i: nat)
    requires Inv(s) && NamesAt(s, d, j, i) && (s.ino[i].kind.Dir? ==> EmptyDir(s.ino[i]))
    ensures i != d && s.ino[i].nlink >= 1 && (s.ino[i].kind.Dir? ==> s.ino[d].nlink >= 2)
    ensures Inv(LessName(s, d, j, i))
  {
    if s.ino[i].kind.Dir? {
      UnlinkDirKeeps(s, d, j, i);
      EmptyDirNamedOnce(s, d, j, i);
      ParentStaysLive(s, d, j, i);
    } else {
      UnlinkFileKeeps(s, d, j, i);
    }
  }

  lemma LessNameKeeps(s: State, d: nat, j: nat, i: nat)
    requires Sound(s) && NamesAt(s, d, j, i) && (s.ino[i].kind.Dir? ==> EmptyDir(s.ino[i]))
    ensures i != d && s.ino[i].nlink >= 1 && (s.ino[i].kind.Dir? ==> s.ino[d].nlink >= 2)
    ensures var t := LessName(s, d, j, i);
            && Sound(t) == true && |t.ino| == |s.ino| && t.refs == s.refs && t.valid == s.valid
            && (forall c :: 0 <= c < |s.ino| ==> t.ino[c].kind == s.ino[c].kind)
            && (forall c :: 0 <= c < |s.ino| && c != i && c != d ==> t.ino[c] == s.ino[c])
            && t.ino[i].nlink == s.ino[i].nlink - 1 && t.ino[d].nlink > 0
            && t.ino[d].ents == s.ino[d].ents[j := NOENTRY]
  {
    UnlinkedInv(s, d, j, i);
    PutDistinct(s.ino, d, j, NOENTRY);
    var t := LessName(s, d, j, i);
    SameKinds(s, t);
    SameEntriesDistinct(WithEntry(s.ino, d, j, NOENTRY), t.ino);
  }

  lemma SameEntriesDistinct(ino: seq<Inode>, ino': seq<Inode>)
    requires DistinctNames(ino) && |ino'| == |ino|
    requires forall d :: 0 <= d < |ino| ==> ino'[d] == ino[d].(nlink := ino'[d].nlink)
    ensures DistinctNames(ino')
  {
  }

  /** From s to t, the name in slot j of d, of inode i, has been removed: the inode is free exactly if that was its last
      name and nobody holds it, and else has one link less; nothing but i and d has changed. */
  ghost predicate Removal(s: State, t: State, d: nat, j: nat, i: nat) {
    && Valid(t) && i < |s.ino| == |t.ino| && d < |s.ino| && i < |s.refs| && j < |s.ino[d].ents|
    && (t.ino[i].kind.Free? <==> s.ino[i].nlink == 1 && s.refs[i] == 0)
    && (!t.ino[i].kind.Free? ==> t.ino[i].nlink == s.ino[i].nlink - 1)
    && t.ino[d].ents == s.ino[d].ents[j := NOENTRY]
    && (forall c :: 0 <= c < |s.ino| && c != i && c != d ==> t.ino[c] == s.ino[c])
  }

  lemma UnlinkedKeeps(s: State, d: nat, j: nat, i: nat)
    requires Valid(s) && 0 < d && NamesAt(s, d, j, i) && s.refs[d] >= 1
    requires s.ino[i].kind.Dir? ==> EmptyDir(s.ino[i])
    ensures i != d && s.ino[i].nlink >= 1 && (s.ino[i].kind.Dir? ==> s.ino[d].nlink >= 2)
    ensures Removal(s, Unlinked(s, d, j, i), d, j, i) == true
  {
    NamedIsAllocated(s, d, j);
    LockedKeeps(s, d);
    var s1 := Locked(s, d);
    LessNameKeeps(s1, d, j, i);
    var t := LessName(s1, d, j, i);
    LessNameFound(s1, t, d, i);
    UnlinkedRefs(t, d, i);
  }

  lemma LessNameFound(s: State, t: State, d: nat, i: nat)
    requires NoneLost(s) && |t.ino| == |s.ino| && t.refs == s.refs && t.valid == s.valid
    requires forall c :: 0 <= c < |s.ino| && c != i && c != d ==> t.ino[c] == s.ino[c]
    requires d < |t.ino| && t.ino[d].nlink > 0
    ensures NoneLostBut(t, i)
  {
    forall c | 0 < c < |t.ino| && c != i ensures NotLost(t, c) { assert NotLost(s, c); }
  }

  lemma UnlinkedRefs(t: State, d: nat, i: nat)
    requires Sound(t) == true && 0 < i < |t.ino| && 0 < d < |t.ino| && d != i && t.refs[d] >= 1
    requires !t.ino[i].kind.Free? && NoneLostBut(t, i) && t.ino[d].nlink != 0
    ensures var v := Iputted(Iputted(Locked(Gotten(t, i), i), d), i);
            && Valid(v) == true
            && (v.ino[i].kind.Free? <==> t.ino[i].nlink == 0 && t.refs[i] == 0)
            && (!v.ino[i].kind.Free? ==> v.ino[i] == t.ino[i])
            && |v.ino| == |t.ino| && forall c :: 0 <= c < |t.ino| && c != i ==> v.ino[c] == t.ino[c]
  {
    GottenKeeps(t, i);
    var u := Locked(Gotten(t, i), i);
    LockedKeeps(Gotten(t, i), i);
    assert NoneLostBut(u, 0) by {
      forall c | 0 < c < |u.ino| ensures NotLost(u, c) { if c != i { assert NotLost(t, c); } }
    }
    IputValid(u, d);
    IputValid(Iputted(u, d), i);
  }

  lemma GottenKeeps(s: State, i: nat)
    requires i < |s.ino| == |s.refs| == |s.valid| && !s.ino[i].kind.Free?
    ensures Sound(s) ==> Sound(Gotten(s, i)) == true
    ensures Valid(s) ==> Valid(Gotten(s, i)) == true
  {
    var t := Gotten(s, i);
    if NoneLost(s) {
      forall c | 0 < c < |t.ino| ensures NotLost(t, c) { assert NotLost(s, c); }
    }
  }

  /** As long as kinds, links and holders are the same, none is lost. */
  lemma SameLinksFound(s: State, t: State)
    requires NoneLost(s) && t.refs == s.refs && t.valid == s.valid && |t.ino| == |s.ino|
    requires forall c :: 0 <= c < |s.ino| ==> t.ino[c].kind == s.ino[c].kind && t.ino[c].nlink == s.ino[c].nlink
    ensures NoneLost(t)
  {
    forall c | 0 < c < |t.ino| ensures NotLost(t, c) { assert NotLost(s, c); }
  }

  lemma SameKinds(s: State, t: State)
    requires Held(s) && t.refs == s.refs && t.valid == s.valid && |t.ino| == |s.ino|
    requires forall i :: 0 <= i < |s.ino| ==> t.ino[i].kind == s.ino[i].kind
    ensures Held(t)
  {
  }

  // ---- create ----

  datatype Created = Made(i: nat) | Existed(i: nat) | Refused | Panic

  function Fresh(s: State, d: nat, j: nat, name: string, i: nat, kind: Kind): State
    requires d < |s.ino| == |s.place| && j <= |s.ino[d].ents| && i < |s.ino| && i != d
  {
    if kind.Dir? then CreateDir(s, d, j, name, i) else CreateFile(s, d, j, name, i, kind)
  }

  /** The state `create` leaves: a fresh inode held by the caller, named in d, and d's reference given back. */
  function AfterCreate(s: State, d: nat, j: nat, name: string, i: nat, kind: Kind): State
    requires d < |s.ino| == |s.place| == |s.refs| == |s.valid| && j <= |s.ino[d].ents| && i < |s.ino| && i != d
  {
    Iputted(FreshHeldBy(Locked(s, d), d, j, name, i, kind), d)
  }

  /** The fresh inode, gotten and locked. */
  function FreshHeldBy(s: State, d: nat, j: nat, name: string, i: nat, kind: Kind): State
    requires d < |s.ino| == |s.place| == |s.refs| == |s.valid| && j <= |s.ino[d].ents| && i < |s.ino| && i != d
  {
    Fresh(s, d, j, name, i, kind).(refs := s.refs[i := 1], valid := s.valid[i := true])
  }

  lemma FreshInvIff(s: State, d: nat, j: nat, name: string, i: nat, kind: Kind)
    requires Inv(s) && FreeSlot(s, d, j) && GoodName(name)
    requires 0 < i < |s.ino| && s.ino[i].kind.Free? && !kind.Free?
    ensures Inv(Fresh(s, d, j, name, i, kind)) <==> s.ino[d].nlink > 0
  {
    if kind.Dir? { CreateDirKeepsIff(s, d, j, name, i); } else { CreateFileKeepsIff(s, d, j, name, i, kind); }
  }

  lemma FreshDistinct(s: State, d: nat, j: nat, name: string, i: nat, kind: Kind)
    requires DistinctNames(s.ino) && FreeSlot(s, d, j) && Absent(s.ino[d].ents, |s.ino[d].ents|, name)
    requires 0 < i < |s.ino| == |s.place| && s.ino[i].kind.Free? && !kind.Free?
    ensures DistinctNames(Fresh(s, d, j, name, i, kind).ino)
  {
  }

  lemma FreshHeld(s: State, d: nat, j: nat, name: string, i: nat, kind: Kind)
    requires Held(s) && FreeSlot(s, d, j) && 0 < i < |s.ino| == |s.place| && s.ino[i].kind.Free? && !kind.Free?
    ensures Held(FreshHeldBy(s, d, j, name, i, kind))
  {
  }

  lemma FreshFound(s: State, d: nat, j: nat, name: string, i: nat, kind: Kind)
    requires Held(s) && NoneLost(s) && FreeSlot(s, d, j) && 0 < i < |s.ino| == |s.place| && s.ino[i].kind.Free?
    requires !kind.Free? && s.ino[d].nlink > 0
    ensures NoneLost(FreshHeldBy(s, d, j, name, i, kind))
  {
    var t := FreshHeldBy(s, d, j, name, i, kind);
    forall c | 0 < c < |t.ino| ensures NotLost(t, c) { assert NotLost(s, c); }
  }

  /** The counts do not look at references. */
  lemma InvIgnoresRefs(s: State, refs: seq<int>, valid: seq<bool>)
    requires |refs| == |s.refs|
    ensures Inv(s.(refs := refs, valid := valid)) <==> Inv(s)
  {
  }

  /** `create` leaves correct counts if and only if the directory it added to still had links. */
  lemma CreateKeepsIff(s: State, d: nat, j: nat, name: string, i: nat, kind: Kind)
    requires Valid(s) && FreeSlot(s, d, j) && GoodName(name) && Absent(s.ino[d].ents, |s.ino[d].ents|, name)
    requires 0 < d && s.refs[d] >= 1 && 0 < i < |s.ino| && s.ino[i].kind.Free? && !kind.Free?
    ensures Valid(AfterCreate(s, d, j, name, i, kind)) <==> s.ino[d].nlink > 0
  {
    if s.ino[d].nlink == 0 {
      CreateInRemoved(s, d, j, name, i, kind);
    } else {
      LockedKeeps(s, d);
      var s1 := Locked(s, d);
      FreshInvIff(s1, d, j, name, i, kind);
      FreshDistinct(s1, d, j, name, i, kind);
      FreshHeld(s1, d, j, name, i, kind);
      FreshFound(s1, d, j, name, i, kind);
      var u := FreshHeldBy(s1, d, j, name, i, kind);
      InvIgnoresRefs(Fresh(s1, d, j, name, i, kind), u.refs, u.valid);
      IputValid(u, d);
    }
  }

  /** Giving the directory back, which may free it, does not repair the counts. */
  lemma CreateInRemoved(s: State, d: nat, j: nat, name: string, i: nat, kind: Kind)
    requires Valid(s) && FreeSlot(s, d, j) && GoodName(name)
    requires 0 < d && s.refs[d] >= 1 && 0 < i < |s.ino| && s.ino[i].kind.Free? && !kind.Free?
    requires s.ino[d].nlink == 0
    ensures !Inv(AfterCreate(s, d, j, name, i, kind))
  {
    var s1 := Locked(s, d);
    InvIgnoresRefs(s, s1.refs, s1.valid);
    FreshInvIff(s1, d, j, name, i, kind);
    var t := Fresh(s1, d, j, name, i, kind);
    var v := AfterCreate(s, d, j, name, i, kind);
    if kind.Dir? {
      assert v.ino == t.ino;
      InvIgnoresRefs(t, v.refs, v.valid);
      assert v == t.(refs := v.refs, valid := v.valid);
    } else {
      var ino1 := s.ino[i := Inode(kind, 1, [])];
      assert Shape(s.ino, s.pending, i);
      NamesSet(s.ino, i, ino1[i], i);
      NamesSet(ino1, d, v.ino[d], i);
      assert v.ino == ino1[d := v.ino[d]];
      assert v.ino[i].nlink != Names(v.ino, i) + v.pending[i];
    }
  }

  /** The root, and a removed directory 2 that somebody still holds. */
  function RemovedState(): State {
    State([Inode(Free, 0, []), Inode(Dir, 1, [Entry(1, "."), Entry(1, "..")]),
           Inode(Dir, 0, [Entry(2, "."), Entry(1, "..")]), Inode(Free, 0, [])],
          [0, 1, 1, 0], [false, true, true, false], [0, 0, 0, 0], [(0, 0), (0, 0), (0, 0), (0, 0)])
  }

  lemma RemovedStateTree()
    ensures var s := RemovedState(); Tree(s.ino, s.pending, s.place)
  {
  }

  lemma RemovedStateValid()
    ensures Valid(RemovedState())
  {
    RemovedStateTree();
    var s := RemovedState();
    RootNames(s.ino, s.ino[2]);
  }

  /** A concrete run that goes wrong: the user of the removed directory creates a file in it, and the new inode
      has a link that no live directory accounts for. */
  lemma RemovedDirectoryExample()
    ensures var s := RemovedState(); Valid(s) && !Valid(AfterCreate(s, 2, 2, "f", 3, File))
  {
    RemovedStateValid();
    CreateKeepsIff(RemovedState(), 2, 2, "f", 3, File);
  }

  /** Another: a file is created in the root, and then linked into the removed directory. */
  lemma RemovedDirectoryLinkExample()
    ensures var s1 := AfterCreate(RemovedState(), 1, 2, "f", 3, File);
            var s2 := LinkStart(s1, 3, 1);
            Valid(s1) && Valid(s2) && !Valid(LinkDone(s2, 2, 2, "g", 3))
  {
    RemovedStateValid();
    CreateKeepsIff(RemovedState(), 1, 2, "f", 3, File);
    var s1 := AfterCreate(RemovedState(), 1, 2, "f", 3, File);
    LinkStartValid(s1, 3);
    var s2 := LinkStart(s1, 3, 1);
    LinkDoneKeepsIff(s2, 2, 2, "g", 3);
  }

  lemma RootNames(ino: seq<Inode>, gone: Inode)
    requires |ino| == 4 && !Live(gone)
    requires ino == [Inode(Free, 0, []), Inode(Dir, 1, [Entry(1, "."), Entry(1, "..")]), gone, Inode(Free, 0, [])]
    ensures forall i :: i > 0 ==> Names(ino, i) == if i == 1 then 1 else 0
  {
    forall i | i > 0 ensures Names(ino, i) == if i == 1 then 1 else 0 {
      EmptyCount(ino[1].ents, 2, i);
      assert TotalTo(ino, 1, i) == 0;
      assert TotalTo(ino, 2, i) == Share(ino[1], i);
      assert TotalTo(ino, 3, i) == TotalTo(ino, 2, i);
    }
  }

  /** What `create` answers when the name already stands for inode i: only a file opened as a file is returned. */
  function Answer(ino: seq<Inode>, i: nat, kind: Kind): Created
    requires i < |ino|
  {
    if ino[i].kind.Free? then Panic
    else if kind.File? && ino[i].kind.File? then Existed(i)
    else Refused
  }

  /** Name found by `create`: one reference more on the inode, one less on the directory. */
  function AfterLookup(s: State, d: nat, i: nat): (t: State)
    requires d < |s.ino| == |s.refs| == |s.valid| && i < |s.ino|
    ensures |t.ino| == |t.refs| == |t.valid| == |s.ino|
  {
    Iputted(Gotten(Locked(s, d), i), d)
  }

  /** The state `create` leaves in that case. */
  function AfterFound(s: State, d: nat, i: nat, kind: Kind): State
    requires d < |s.ino| == |s.refs| == |s.valid| && i < |s.ino|
  {
    match Answer(s.ino, i, kind)
    case Existed(_) => Locked(AfterLookup(s, d, i), i)
    case Refused => Iputted(Locked(AfterLookup(s, d, i), i), i)
    case _ => s
  }

  lemma FoundKeeps(s: State, d: nat, i: nat, kind: Kind)
    requires Valid(s) == true && 0 < d < |s.ino| == |s.refs| == |s.valid| && 0 < i < |s.ino|
    requires s.refs[d] >= 1 && s.refs[i] >= 0
    ensures Valid(AfterFound(s, d, i, kind)) == true
  {
    var t := AfterFound(s, d, i, kind);
    if s.ino[i].kind.Free? {
      assert t == s;
    } else if kind.File? && s.ino[i].kind.File? {
      assert t == Locked(AfterLookup(s, d, i), i);
      ReachedKeeps(s, d, i);
    } else {
      assert t == Iputted(Locked(AfterLookup(s, d, i), i), i);
      ReachedKeeps(s, d, i);
    }
  }

  lemma ReachedKeeps(s: State, d: nat, i: nat)
    requires Valid(s) == true && 0 < d < |s.ino| == |s.refs| == |s.valid| && 0 < i < |s.ino|
    requires s.refs[d] >= 1 && s.refs[i] >= 0 && !s.ino[i].kind.Free?
    ensures var t := Locked(AfterLookup(s, d, i), i); Valid(t) == true && Valid(Iputted(t, i)) == true
  {
    AfterLookupKeeps(s, d, i);
    AfterLockKeeps(AfterLookup(s, d, i), i);
  }

  lemma FoundInum(s: State, d: nat, k: nat)
    requires Inv(s) && d < |s.ino| && s.ino[d].kind.Dir? && k < |s.ino[d].ents| && s.ino[d].ents[k].inum != 0
    ensures 0 < s.ino[d].ents[k].inum < |s.ino|
  {
    assert Shape(s.ino, s.pending, d);
    if k >= 2 { assert SlotOk(s.ino[d].ents[k], |s.ino|); }
  }

  /** What the references are then. */
  lemma FoundRefs(s: State, d: nat, i: nat, kind: Kind, c: nat)
    requires d < |s.ino| == |s.refs| == |s.valid| && i < |s.ino| && c < |s.ino| && !s.ino[i].kind.Free?
    ensures AfterFound(s, d, i, kind).refs[c] ==
            s.refs[c] + (if c == i && Answer(s.ino, i, kind).Existed? then 1 else 0) - (if c == d then 1 else 0)
  {
  }

  lemma AfterLockKeeps(s: State, i: nat)
    requires Valid(s) == true && 0 < i < |s.ino| && s.refs[i] >= 1
    ensures Valid(Locked(s, i)) == true && Valid(Iputted(Locked(s, i), i)) == true
  {
    LockedKeeps(s, i);
    IputValid(Locked(s, i), i);
  }

  /** `create` with a name that is not there: a fresh inode, unless there is none; correct if and only if the
      directory still had links. */
  ghost predicate CreateNew(s: State, t: State, d: nat, name: string, kind: Kind, r: Created, j: int) {
    match r
    case Made(i) =>
      && 0 < i < |s.ino| == |s.place| == |s.refs| == |s.valid| && s.ino[i].kind.Free? && j >= 2 && FreeSlot(s, d, j)
      && i != d && t == AfterCreate(s, d, j, name, i, kind) && (Valid(t) <==> s.ino[d].nlink > 0)
      && t.ino[i].kind == kind && t.ino[i].nlink == 1 && t.refs[i] == 1 && t.valid[i]
      && (s.ino[d].nlink > 0 ==> |t.ino[d].ents| > j && t.ino[d].ents[j] == Entry(i, name))
      && (kind.Dir? ==> t.ino[i].ents == [Entry(i, "."), Entry(d, "..")])
    case Panic => t == s && forall i :: 0 < i < |s.ino| ==> !s.ino[i].kind.Free?
    case _ => false
  }

  /** `create` with a name that is there, in slot j: only a file opened as a file is returned, with a reference. */
  ghost predicate CreateOld(s: State, t: State, d: nat, name: string, kind: Kind, r: Created, j: int) {
    && d < |s.ino| == |s.refs| == |s.valid| && 0 <= j < |s.ino[d].ents| && s.ino[d].ents[j].name == name
    && 0 < s.ino[d].ents[j].inum < |s.ino|
    && var i := s.ino[d].ents[j].inum;
    && t == AfterFound(s, d, i, kind) && Valid(t)
    && (r.Existed? <==> kind.File? && s.ino[i].kind.File?) && (r.Existed? ==> r == Existed(i))
    && (r.Panic? <==> s.ino[i].kind.Free?) && !r.Made?
    && (!r.Panic? ==> forall c :: 0 <= c < |s.ino| ==>
          t.refs[c] == s.refs[c] + (if c == i && r.Existed? then 1 else 0) - (if c == d then 1 else 0))
  }

  lemma AfterLookupKeeps(s: State, d: nat, i: nat)
    requires Valid(s) && 0 < d < |s.ino| && s.refs[d] >= 1 && 0 < i < |s.ino| && !s.ino[i].kind.Free?
    ensures var t := AfterLookup(s, d, i); Valid(t) == true && t.ino[i] == s.ino[i] && t.refs[i] >= 1
  {
    LockedKeeps(s, d);
    GottenKeeps(Locked(s, d), i);
    IputValid(Gotten(Locked(s, d), i), d);
  }

  /** A new name: what `create` leaves has all that CreateNew says. */
  lemma CreateMade(s: State, d: nat, j: nat, name: string, i: nat, kind: Kind)
    requires Valid(s) && d < |s.ino| && s.ino[d].kind.Dir? && 0 < d && s.refs[d] >= 1
    requires 0 < i < |s.ino| && s.ino[i].kind.Free? && !kind.Free? && j <= |s.ino[d].ents|
    requires Absent(s.ino[d].ents, |s.ino[d].ents|, name)
    requires j < |s.ino[d].ents| ==> s.ino[d].ents[j].inum == 0
    ensures CreateNew(s, AfterCreate(s, d, j, name, i, kind), d, name, kind, Made(i), j) == true
  {
    SlotIsFree(s, d, j, name);
    CreateKeepsIff(s, d, j, name, i, kind);
  }

  /** A name that is there: the same for CreateOld. */
  lemma CreateFound(s: State, d: nat, k: nat, name: string, kind: Kind)
    requires Valid(s) && 0 < d < |s.ino| && s.ino[d].kind.Dir? && s.refs[d] >= 1
    requires k < |s.ino[d].ents| && s.ino[d].ents[k].inum != 0 && s.ino[d].ents[k].name == name
    ensures var i := s.ino[d].ents[k].inum;
            && 0 < i < |s.ino| && s.refs[i] >= 0
            && CreateOld(s, AfterFound(s, d, i, kind), d, name, kind, Answer(s.ino, i, kind), k) == true
  {
    FoundInum(s, d, k);
    var i := s.ino[d].ents[k].inum;
    FoundKeeps(s, d, i, kind);
    var t, a := AfterFound(s, d, i, kind), Answer(s.ino, i, kind);
    if !a.Panic? {
      forall c | 0 <= c < |s.ino|
        ensures t.refs[c] == s.refs[c] + (if c == i && a.Existed? then 1 else 0) - (if c == d then 1 else 0)
      {
        FoundRefs(s, d, i, kind, c);
      }
    }
  }

  // ---- an empty file system ----

  function RootDir(): Inode { Inode(Dir, 1, [Entry(ROOTINO, "."), Entry(ROOTINO, "..")]) }

  function FirstState(n: nat): State
    requires n > ROOTINO
  {
    State(seq(n, i => if i == ROOTINO then RootDir() else Inode(Free, 0, [])), seq(n, i => 0), seq(n, i => false),
          seq(n, i => 0), seq(n, i => (0, 0)))
  }

  /** The root is its own parent, and nothing else has a name. */
  lemma {:induction false} RootTotal(ino: seq<Inode>, n: nat, i: nat)
    requires n <= |ino| && i > 0 && ROOTINO < |ino|
    requires forall c :: 0 <= c < |ino| ==> ino[c] == if c == ROOTINO then RootDir() else Inode(Free, 0, [])
    ensures TotalTo(ino, n, i) == if n > ROOTINO && i == ROOTINO then 1 else 0
  {
    if n > 0 {
      RootTotal(ino, n - 1, i);
      if n - 1 == ROOTINO { EmptyCount(ino[ROOTINO].ents, 2, i); }
    }
  }

  lemma FirstStateTree(n: nat)
    requires n > ROOTINO
    ensures var s := FirstState(n); Tree(s.ino, s.pending, s.place)
  {
  }

  lemma FirstStateValid(n: nat)
    requires n > ROOTINO
    ensures Valid(FirstState(n)) == true
  {
    var s := FirstState(n);
    FirstStateTree(n);
    forall i | 1 <= i < n ensures s.ino[i].nlink == Names(s.ino, i) + s.pending[i] { RootTotal(s.ino, n, i); }
    forall i | 0 < i < n ensures NotLost(s, i) {}
  }

  class Files {
    var ino: seq<Inode>
    var refs: seq<int>
    var valid: seq<bool>
    ghost var pending: seq<int>
    ghost var place: seq<(int, int)>

    ghost function St(): State
      reads this
    {
      State(ino, refs, valid, pending, place)
    }

    /** n inodes, and a root directory, as `mkfs` begins. */
    constructor (n: nat)
      requires n > ROOTINO
      ensures Valid(St()) && |ino| == n && ino[ROOTINO].kind.Dir?
      ensures forall i :: 0 <= i < n && i != ROOTINO ==> ino[i].kind.Free?
      ensures forall i :: 0 <= i < n ==> refs[i] == 0
    {
      var s := FirstState(n);
      ino, refs, valid, pending, place := s.ino, s.refs, s.valid, s.pending, s.place;
      FirstStateValid(n);
    }

    /** `dirlookup`: the first slot with that name, or -1. */
    method Dirlookup(dp: nat, name: string) returns (j: int)
      requires dp < |ino|
      ensures -1 <= j < |ino[dp].ents|
      ensures j == -1 ==> Absent(ino[dp].ents, |ino[dp].ents|, name)
      ensures j >= 0 ==> ino[dp].ents[j].inum != 0 && ino[dp].ents[j].name == name && Absent(ino[dp].ents, j, name)
    {
      j := 0;
      while j < |ino[dp].ents|
        invariant 0 <= j <= |ino[dp].ents| && Absent(ino[dp].ents, j, name)
      {
        if ino[dp].ents[j].inum != 0 && ino[dp].ents[j].name == name { return; }
        j := j + 1;
      }
      j := -1;
    }

    /** `dirlink`: refuses a name that is there, else takes the first empty slot or appends one. */
    method Dirlink(dp: nat, name: string, inum: nat) returns (j: int)
      requires dp < |ino| && ino[dp].kind.Dir? && inum != 0
      modifies this`ino
      ensures j == -1 <==> !old(Absent(ino[dp].ents, |ino[dp].ents|, name))
      ensures j == -1 ==> ino == old(ino)
      ensures j != -1 ==> 0 <= j <= |old(ino[dp].ents)| && ino == WithEntry(old(ino), dp, j, Entry(inum, name))
      ensures j != -1 && j < |old(ino[dp].ents)| ==> old(ino[dp].ents[j].inum) == 0
      ensures forall k :: 0 <= k < j ==> old(ino[dp].ents[k].inum) != 0
    {
      j := Dirlookup(dp, name);
      if j != -1 { return -1; }
      j := 0;
      while j < |ino[dp].ents| && ino[dp].ents[j].inum != 0
        invariant 0 <= j <= |ino[dp].ents| && forall k :: 0 <= k < j ==> ino[dp].ents[k].inum != 0
      {
        j := j + 1;
      }
      var ents := if j < |ino[dp].ents| then ino[dp].ents[j := Entry(inum, name)]
                  else ino[dp].ents + [Entry(inum, name)];
      ino := ino[dp := ino[dp].(ents := ents)];
    }

    /** `isdirempty`. */
    method IsDirEmpty(i: nat) returns (r: bool)
      requires i < |ino|
      ensures r <==> EmptyDir(ino[i])
    {
      var k := 2;
      while k < |ino[i].ents|
        invariant forall m :: 2 <= m < k && m < |ino[i].ents| ==> ino[i].ents[m].inum == 0
      {
        if ino[i].ents[k].inum != 0 { return false; }
        k := k + 1;
      }
      r := true;
    }

    /** `iget`, for an inode that a name was found for. */
    method Iget(i: nat)
      requires Valid(St()) && 0 < i < |ino| && !ino[i].kind.Free?
      modifies this`refs
      ensures Valid(St()) && St() == Gotten(old(St()), i) && refs[i] == old(refs[i]) + 1
    {
      GottenKeeps(St(), i);
      refs := refs[i := refs[i] + 1];
    }

    /** `ilock`; it is an error without a reference. */
    method Ilock(i: nat)
      requires i < |ino| == |refs| == |valid| && refs[i] >= 1
      modifies this`valid
      ensures St() == Locked(old(St()), i) && valid[i]
      ensures old(Valid(St())) ==> Valid(St()) == true
    {
      LockedKeeps(St(), i);
      valid := valid[i := true];
    }

    /** `iput`: one reference less, and the inode becomes free exactly when it has no links and that was the last. */
    method Iput(i: nat)
      requires 0 < i < |ino| == |refs| == |valid| && refs[i] >= 1
      modifies this`ino, this`refs, this`valid
      ensures St() == Iputted(old(St()), i)
      ensures ino[i].kind.Free? <==> old(ino[i].kind.Free?) || old(valid[i] && ino[i].nlink == 0 && refs[i] == 1)
      ensures !ino[i].kind.Free? ==> ino[i] == old(ino[i])
      ensures forall c :: 0 <= c < |ino| && c != i ==> ino[c] == old(ino[c])
      ensures refs == old(refs)[i := old(refs[i]) - 1]
    {
      if valid[i] && ino[i].nlink == 0 && refs[i] == 1 {
        ino := ino[i := Inode(Free, 0, [])];
      }
      refs := refs[i := refs[i] - 1];
      if refs[i] == 0 { valid := valid[i := false]; }
    }

    /** `sys_link` up to the point where it unlocks the file. The caller has i from `namei`. */
    method LinkBegin(i: nat) returns (ok: bool)
      requires Valid(St()) && 0 < i < |ino| && refs[i] >= 1
      modifies this
      ensures Valid(St()) && |ino| == |old(ino)|
      ensures ok == !old(ino[i].kind.Dir?)
      ensures ok ==> St() == LinkStart(Locked(old(St()), i), i, 1)
      ensures ok ==> ino[i].nlink == old(ino[i].nlink) + 1 && refs == old(refs)
      ensures !ok ==> St() == Iputted(Locked(old(St()), i), i)
    {
      Ilock(i);
      if ino[i].kind.Dir? {
        IputValid(St(), i);
        Iput(i);
        return false;
      }
      LinkStartValid(St(), i);
      ino := ino[i := ino[i].(nlink := ino[i].nlink + 1)];
      pending := pending[i := pending[i] + 1];
      ok := true;
    }

    /** The rest of `sys_link`: add the entry, or take the link back. */
    method LinkEnd(i: nat, parent: Parent) returns (ok: bool, ghost j: int)
      requires Valid(St()) && 0 < i < |ino| && !ino[i].kind.Dir? && pending[i] > 0 && refs[i] >= 1
      requires parent.Parent? ==> 0 < parent.dp < |ino| && ino[parent.dp].kind.Dir? && refs[parent.dp] >= 1
      modifies this
      ensures ok <==> parent.Parent? && old(Absent(ino[parent.dp].ents, |ino[parent.dp].ents|, parent.name))
      ensures !ok ==> St() == LinkFailed(old(St()), i, parent) && Valid(St())
      ensures ok ==>
                j >= 2 && FreeSlot(old(St()), parent.dp, j) && St() == LinkDone(old(St()), parent.dp, j, parent.name, i)
      ensures ok ==> (Valid(St()) <==> old(ino[parent.dp].nlink) > 0)
      ensures ok && old(ino[parent.dp].nlink) > 0 ==>
                |ino[parent.dp].ents| > j && ino[parent.dp].ents[j] == Entry(i, parent.name) && ino[i] == old(ino[i])
    {
      if parent.NoParent? {
        LinkFailedKeeps(St(), i, parent);
        Undo(i);
        return false, 0;
      }
      var dp, k := parent.dp, -1;
      Ilock(dp);
      k := LinkIn(dp, parent.name, i);
      if k == -1 {
        LinkFailedKeeps(old(St()), i, parent);
        Iput(dp);
        Undo(i);
        return false, 0;
      }
      SlotIsFree(old(St()), dp, k, parent.name);
      LinkDoneKeepsIff(old(St()), dp, k, parent.name, i);
      if old(ino[dp].nlink) > 0 { LinkNamed(old(St()), dp, k, parent.name, i); }
      Iput(dp);
      Iput(i);
      ok, j := true, k;
    }

    /** The entry, which one pending link was for. */
    method LinkIn(dp: nat, name: string, i: nat) returns (k: int)
      requires dp < |ino| == |pending| && ino[dp].kind.Dir? && 0 < i < |ino|
      modifies this`ino, this`pending
      ensures k == -1 <==> !old(Absent(ino[dp].ents, |ino[dp].ents|, name))
      ensures k == -1 ==> St() == old(St())
      ensures k != -1 ==> 0 <= k <= |old(ino[dp].ents)| && St() == LinkAdd(old(St()), dp, k, name, i)
      ensures k != -1 && k < |old(ino[dp].ents)| ==> old(ino[dp].ents[k].inum) == 0
    {
      k := Dirlink(dp, name, i);
      if k != -1 { pending := pending[i := pending[i] - 1]; }
    }

    method Undo(i: nat)
      requires 0 < i < |ino| == |refs| == |valid| == |pending| && refs[i] >= 1
      modifies this
      ensures St() == Iputted(Locked(LinkStart(old(St()), i, -1), i), i)
    {
      Ilock(i);
      ino := ino[i := ino[i].(nlink := ino[i].nlink - 1)];
      pending := pending[i := pending[i] - 1];
      Iput(i);
    }

    /** `sys_unlink`. The caller has dp from `nameiparent`. It fails exactly on ".", "..", a missing name and
        a directory with entries. The inode goes with its last name, unless somebody holds it. */
    method Unlink(dp: nat, name: string) returns (ok: bool, ghost j: int, ghost i: int)
      requires Valid(St()) && 0 < dp < |ino| && ino[dp].kind.Dir? && refs[dp] >= 1
      modifies this
      ensures Valid(St())
      ensures ok ==> j >= 2 && i > 0 && NamesAt(old(St()), dp, j, i) && old(ino[dp].ents[j].name) == name
      ensures ok ==> St() == Unlinked(old(St()), dp, j, i)
      ensures ok ==> Removal(old(St()), St(), dp, j, i) == true
      ensures !ok ==> St() == Iputted(Locked(old(St()), dp), dp)
      ensures ok <==> exists k :: Removable(old(St()), dp, k, name)
    {
      ghost var s := St();
      Ilock(dp);
      var k := -1;
      if name != "." && name != ".." { k := Dirlookup(dp, name); }
      if k == -1 {
        Drop(dp);
        return false, 0, 0;
      }
      FoundIsNamed(s, dp, k, name);
      OnlySlot(s, dp, k, name);
      var ip := ino[dp].ents[k].inum;
      var empty := IsDirEmpty(ip);
      if ino[ip].kind.Dir? && !empty {
        // the reference dirlookup took and the one iunlockput gives back cancel out
        Drop(dp);
        return false, 0, ip;
      }
      assert Removable(s, dp, k, name);
      UnlinkedKeeps(s, dp, k, ip);
      Remove(dp, k, ip, s);
      ok, j, i := true, k, ip;
    }

    /** The rest of `sys_unlink`, once the entry may go; s was the state before `ilock`. */
    method Remove(dp: nat, j: nat, i: nat, ghost s: State)
      requires 0 < dp < |ino| == |refs| == |valid| && 0 < i < |ino| && i != dp && refs[dp] >= 1 && refs[i] >= 0
      requires dp < |s.valid| == |s.ino| == |s.refs| && St() == Locked(s, dp)
      requires j < |ino[dp].ents| && ino[dp].nlink > (if ino[i].kind.Dir? then 1 else 0)
      modifies this
      ensures St() == Unlinked(s, dp, j, i)
    {
      ghost var t := LessName(St(), dp, j, i);
      refs := refs[i := refs[i] + 1];
      Ilock(i);
      ino := ino[dp := ino[dp].(ents := ino[dp].ents[j := Entry(0, "")])];
      if ino[i].kind.Dir? {
        ino := ino[dp := ino[dp].(nlink := ino[dp].nlink - 1)];
      }
      assert ino[dp].nlink > 0;
      Iput(dp);
      ino := ino[i := ino[i].(nlink := ino[i].nlink - 1)];
      assert ino == t.ino;
      assert St() == Iputted(Locked(Gotten(t, i), i), dp);
      Iput(i);
    }

    method Drop(i: nat)
      requires Valid(St()) && 0 < i < |ino| && refs[i] >= 1
      modifies this
      ensures Valid(St()) && St() == Iputted(old(St()), i)
    {
      IputValid(St(), i);
      Iput(i);
    }

    /** `ialloc`'s search: the first free inode, or 0. */
    method Ialloc() returns (i: nat)
      requires |ino| > 0
      ensures i < |ino| && (i > 0 ==> ino[i].kind.Free?)
      ensures forall k :: 1 <= k < (if i == 0 then |ino| else i) ==> !ino[k].kind.Free?
    {
      i := 1;
      while i < |ino|
        invariant 1 <= i <= |ino|
        invariant forall k :: 1 <= k < i ==> !ino[k].kind.Free?
      {
        if ino[i].kind.Free? { return; }
        i := i + 1;
      }
      i := 0;
    }

    /** `create`. The caller has dp from `nameiparent`. */
    method Create(dp: nat, name: string, kind: Kind) returns (r: Created, ghost j: int)
      requires Valid(St()) && 0 < dp < |ino| && ino[dp].kind.Dir? && refs[dp] >= 1 && !kind.Free?
      modifies this
      ensures old(Absent(ino[dp].ents, |ino[dp].ents|, name)) ==>
                CreateNew(old(St()), St(), dp, name, kind, r, j) == true
      ensures !old(Absent(ino[dp].ents, |ino[dp].ents|, name)) ==>
                CreateOld(old(St()), St(), dp, name, kind, r, j) == true
    {
      ghost var s := St();
      var k := Dirlookup(dp, name);
      j := k;
      if k != -1 {
        CreateFound(s, dp, k, name, kind);
        r := Reopen(dp, ino[dp].ents[k].inum, kind);
        return;
      }
      var i := Ialloc();
      if i == 0 { return Panic, j; }
      Ilock(dp);
      var at := Name(dp, name, i, kind);
      j := at;
      CreateMade(s, dp, at, name, i, kind);
      Iput(dp);
      r := Made(i);
    }

    /** From directory dp to inode i: `iget` it, and let go of dp. */
    method Enter(dp: nat, i: nat)
      requires 0 < dp < |ino| == |refs| == |valid| && refs[dp] >= 1 && 0 < i < |ino| && refs[i] >= 0
      modifies this
      ensures St() == AfterLookup(old(St()), dp, i) && refs[i] >= 1
      ensures ino[i] == old(ino[i])
    {
      Ilock(dp);
      refs := refs[i := refs[i] + 1];
      Iput(dp);
    }

    /** `create` when the name is there already. */
    method Reopen(dp: nat, i: nat, kind: Kind) returns (r: Created)
      requires 0 < dp < |ino| == |refs| == |valid| && refs[dp] >= 1 && 0 < i < |ino| && refs[i] >= 0
      modifies this
      ensures r == Answer(old(ino), i, kind) && St() == AfterFound(old(St()), dp, i, kind)
    {
      if ino[i].kind.Free? { return Panic; }
      Enter(dp, i);
      Ilock(i);
      if kind.File? && ino[i].kind.File? { return Existed(i); }
      Iput(i);
      r := Refused;
    }

    /** `create` from the fresh inode to the entry in dp. */
    method Name(dp: nat, name: string, i: nat, kind: Kind) returns (j: nat)
      requires Valid(St()) && 0 < dp < |ino| && ino[dp].kind.Dir? && 0 < i < |ino| && ino[i].kind.Free? && !kind.Free?
      requires Absent(ino[dp].ents, |ino[dp].ents|, name)
      modifies this
      ensures j <= |old(ino[dp].ents)| && (j < |old(ino[dp].ents)| ==> old(ino[dp].ents[j].inum) == 0)
      ensures St() == FreshHeldBy(old(St()), dp, j, name, i, kind)
    {
      ino := ino[i := Inode(kind, 1, [])];
      refs := refs[i := 1];
      Ilock(i);
      if kind.Dir? {
        ino := ino[dp := ino[dp].(nlink := ino[dp].nlink + 1)];
        var dot := Dirlink(i, ".", i);
        var dotdot := Dirlink(i, "..", dp);
        assert ino[i] == NewDir(i, dp);
      }
      var k := Dirlink(dp, name, i);
      j := k;
      if kind.Dir? { place := place[i := (dp, j)]; }
      assert ino == Fresh(old(St()), dp, j, name, i, kind).ino;
    }
  }
}
