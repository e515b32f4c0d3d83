/** kalloc.c, vm.c and the page-fault branch of trap.c: the frame allocator and the operations on address spaces. */
module VirtualMemory {
  import opened Guards
  import opened PageTables

  const KERNBASE := USERPAGES * PGSIZE
  const UPERM := PTE_W + PTE_U

  /** PGROUNDUP, in pages. */
  function PagesUp(sz: nat): (n: nat)
    ensures n * PGSIZE >= sz && (n == 0 || (n - 1) * PGSIZE < sz)
  {
    (sz + PGSIZE - 1) / PGSIZE
  }

  // ---------- the frame free list ----------

  function Head(free: seq<nat>): (f: nat) {
    if free == [] then 0 else free[0]
  }

  /** Each free frame holds the next one in its first word. */
  ghost predicate LinkOk(mem: Mem, role: Roles, free: seq<nat>, i: nat)
    requires i < |free|
  {
    && free[i] in role && role[free[i]] == Free && free[i] < |mem|
    && mem[free[i]][0] == if i + 1 < |free| then free[i + 1] else 0
  }

  ghost predicate ChainOk(mem: Mem, role: Roles, free: seq<nat>) {
    forall i | 0 <= i < |free| :: LinkOk(mem, role, free, i)
  }

  ghost predicate FreeOk(mem: Mem, role: Roles, head: nat, free: seq<nat>) {
    && RolesOk(mem, role) && head == Head(free)
    && forall x: nat | Parts(x) ::
      && ChainOk(mem, role, free)
      && (forall i, j | 0 <= i < j < |free| :: free[i] != free[j])
      && (forall f | f in role && role[f] == Free :: f in free)
  }

  /** The list does not depend on frames that are in use. */
  lemma FreeFrame(mem: Mem, role: Roles, head: nat, free: seq<nat>, mem': Mem, role': Roles)
    requires FreeOk(mem, role, head, free) && |mem'| == |mem| && role'.Keys == role.Keys
    requires forall f | f in role && role[f] == Free :: role'[f] == Free && mem'[f] == mem[f]
    requires forall f | f in role && role'[f] == Free :: role[f] == Free
    ensures FreeOk(mem', role', head, free)
  {
    assert Parts(0);
    forall i | 0 <= i < |free| ensures LinkOk(mem', role', free, i) {
      assert LinkOk(mem, role, free, i);
    }
  }

  // ---------- what an operation on one address space leaves alone ----------

  /** The frame is a table of pd. */
  predicate IsTable(r: Role, pd: nat) {
    r.Table? && r.pd == pd
  }

  /** Frames in use for anything but address space pd keep their role and contents, and none comes to be used for
      another one. */
  ghost predicate Untouched(mem: Mem, role: Roles, mem': Mem, role': Roles, pd: nat) {
    && role'.Keys == role.Keys && |mem'| == |mem| && RolesOk(mem, role)
    && (forall f | f in role && role[f] != Free && !Concerns(role[f], pd) && f != pd ::
          role'[f] == role[f] && mem'[f] == mem[f])
    && (forall f | f in role && role'[f] != role[f] ::
          role'[f] == Free || role'[f] == Other || Concerns(role'[f], pd) || (f == pd && role'[f] == Dir))
    && (pd in role ==> role[pd] == Dir || role[pd] == Free)
  }

  /** So another address space keeps its entries and the contents of its pages. */
  lemma OtherSpace(mem: Mem, role: Roles, mem': Mem, role': Roles, pd: nat, p: nat)
    requires SpaceOk(mem, role, p) && Untouched(mem, role, mem', role', pd) && p != pd
    ensures SpaceOk(mem', role', p) && SameEntries(mem, mem', p)
    ensures forall v | 0 <= v < USERPAGES && Present(Entry(mem, p, v)) ::
              FrameOf(Entry(mem, p, v)) < |mem| && mem'[FrameOf(Entry(mem, p, v))] == mem[FrameOf(Entry(mem, p, v))]
  {
    assert Parts(0);
    forall v | 0 <= v < ALLPAGES ensures Entry(mem', p, v) == Entry(mem, p, v) {
      var d := mem[p][PDX(v)];
      assert Present(d) ==> role[FrameOf(d)] == Table(p, PDX(v));
    }
  }

  /** Every table and page belongs to a directory. */
  ghost predicate Owned(role: Roles) {
    forall f | f in role && (role[f].Table? || role[f].Data?) :: role[f].pd in role && role[role[f].pd] == Dir
  }

  /** All address spaces are in order. */
  ghost predicate World(mem: Mem, role: Roles) {
    && RolesOk(mem, role)
    && forall x: nat | Parts(x) :: Owned(role) && forall p | p in role && role[p] == Dir :: SpaceOk(mem, role, p)
  }

  lemma SpaceOf(mem: Mem, role: Roles, pd: nat)
    requires World(mem, role) && pd in role && role[pd] == Dir
    ensures SpaceOk(mem, role, pd)
  {
    assert Parts(0);
  }

  lemma WorldKept(mem: Mem, role: Roles, mem': Mem, role': Roles, pd: nat)
    requires World(mem, role) && Untouched(mem, role, mem', role', pd)
    requires pd in role' && (role'[pd] == Dir ==> SpaceOk(mem', role', pd))
    requires role'[pd] != Dir ==> forall f | f in role' :: !Concerns(role'[f], pd)
    ensures World(mem', role')
  {
    OwnedKept(mem, role, mem', role', pd);
    forall p | p in role' && role'[p] == Dir ensures SpaceOk(mem', role', p) {
      if p != pd {
        WorldSpace(mem, role, p);
        OtherSpace(mem, role, mem', role', pd, p);
      }
    }
  }

  lemma WorldSpace(mem: Mem, role: Roles, p: nat)
    requires World(mem, role)
    ensures p in role && role[p] == Dir ==> SpaceOk(mem, role, p)
  {
    assert Parts(0);
  }

  lemma OwnedKept(mem: Mem, role: Roles, mem': Mem, role': Roles, pd: nat)
    requires World(mem, role) && Untouched(mem, role, mem', role', pd) && pd in role'
    requires role'[pd] != Dir ==> forall f | f in role' :: !Concerns(role'[f], pd)
    ensures Owned(role') && RolesOk(mem', role')
  {
    assert Parts(0);
  }

  /** The address space grows: frames in use keep their role, and their contents too unless they are its directory and
      tables. Free frames become tables, pages of [lo, hi), or the frame in hand, x. */
  ghost predicate Grew(mem: Mem, role: Roles, mem': Mem, role': Roles, pd: nat, lo: nat, hi: nat, x: nat) {
    && role'.Keys == role.Keys && |mem'| == |mem| && RolesOk(mem, role)
    && forall y: nat | Parts(y) ::
      && (forall f | f in role && role[f] != Free ::
            role'[f] == role[f] && (f != pd && !IsTable(role[f], pd) ==> mem'[f] == mem[f]))
      && (forall f | f in role && role[f] == Free :: Recruited(role'[f], pd, lo, hi, f, x))
  }

  predicate Recruited(r: Role, pd: nat, lo: nat, hi: nat, f: nat, x: nat) {
    || r == Free || IsTable(r, pd) || (r.Data? && r.pd == pd && lo <= r.v < hi)
    || (f == x && r == Other) || (f == pd && r == Dir)
  }

  /** Pages [lo, hi) have been mapped to the frames from f on, and no other entry has changed. */
  ghost predicate Mapped(mem: Mem, mem': Mem, pd: nat, lo: nat, hi: nat, f: nat, perm: nat)
    requires pd < |mem| == |mem'| && perm < PGSIZE
  {
    forall x: nat | Parts(x) :: forall u | 0 <= u < ALLPAGES ::
      Entry(mem', pd, u) == if lo <= u < hi then MakeEntry(f + (u - lo), perm) else Entry(mem, pd, u)
  }

  lemma MappedMore(mem: Mem, mem1: Mem, mem2: Mem, pd: nat, lo: nat, k: nat, f: nat, perm: nat)
    requires pd < |mem| == |mem1| == |mem2| && perm < PGSIZE && lo <= k < ALLPAGES
    requires Mapped(mem, mem1, pd, lo, k, f, perm) && Mapped(mem1, mem2, pd, k, k + 1, f + (k - lo), perm)
    ensures Mapped(mem, mem2, pd, lo, k + 1, f, perm)
  {
    assert Parts(0);
  }

  /** mappages gives a user page the frame in hand. */
  ghost predicate Lent(mem: Mem, role: Roles, mem': Mem, role': Roles, pd: nat, f: nat) {
    && role'.Keys == role.Keys && |mem'| == |mem| && RolesOk(mem, role)
    && forall x: nat | Parts(x) ::
      && (forall g | g in role && role[g] != Free ::
            (g != f ==> role'[g] == role[g]) && (g != pd && !IsTable(role[g], pd) ==> mem'[g] == mem[g]))
      && (forall g | g in role && role[g] == Free :: role'[g] == Free || IsTable(role'[g], pd))
  }

  /** Of the directory only the slot of page v may have changed; it has a table now if ok. */
  ghost predicate Tabled(mem: Mem, mem': Mem, pd: nat, v: nat, ok: bool)
    requires pd < |mem| == |mem'| && v < ALLPAGES
  {
    (ok ==> HasTable(mem', pd, v)) && forall d | 0 <= d < NPTE && d != PDX(v) :: mem'[pd][d] == mem[pd][d]
  }

  lemma LentMore(mem: Mem, role: Roles, mem1: Mem, role1: Roles, mem2: Mem, role2: Roles, pd: nat)
    requires Lent(mem, role, mem1, role1, pd, 0) && Lent(mem1, role1, mem2, role2, pd, 0)
    ensures Lent(mem, role, mem2, role2, pd, 0)
  {
    assert Parts(0);
  }

  /** Outside the range the entries are as before. */
  lemma MappedElse(mem: Mem, mem': Mem, pd: nat, lo: nat, hi: nat, f: nat, perm: nat, u: nat)
    requires pd < |mem| == |mem'| && perm < PGSIZE && Mapped(mem, mem', pd, lo, hi, f, perm) && u < ALLPAGES
    requires !(lo <= u < hi)
    ensures Entry(mem', pd, u) == Entry(mem, pd, u)
  {
    assert Parts(0);
  }

  lemma MappedAt(mem: Mem, mem': Mem, pd: nat, k: nat, f: nat, perm: nat)
    requires pd < |mem| == |mem'| && perm < PGSIZE && Mapped(mem, mem', pd, k, k + 1, f, perm) && k < ALLPAGES
    ensures Entry(mem', pd, k) == MakeEntry(f, perm)
  {
    assert Parts(0);
  }

  lemma MappedNone(mem: Mem, mem': Mem, pd: nat, lo: nat, f: nat, perm: nat)
    requires pd < |mem| == |mem'| && perm < PGSIZE && Mapped(mem, mem', pd, lo, lo, f, perm)
    ensures SameEntries(mem, mem', pd)
  {
    assert Parts(0);
  }

  lemma NoneMapped(mem: Mem, mem': Mem, pd: nat, lo: nat, f: nat, perm: nat)
    requires pd < |mem| == |mem'| && perm < PGSIZE && SameEntries(mem, mem', pd)
    ensures Mapped(mem, mem', pd, lo, lo, f, perm)
  {}

  /** walkpgdir and the store of the entry, together. */
  lemma WalkedAndSet(mem: Mem, role: Roles, mem1: Mem, role1: Roles, mem2: Mem, role2: Roles, pd: nat, v: nat, t: nat,
                     f: nat, perm: nat)
    requires pd < |mem| == |mem1| == |mem2| && perm < PGSIZE && SameEntries(mem, mem1, pd)
    requires Grew(mem, role, mem1, role1, pd, 0, 0, 0) && Mapped(mem1, mem2, pd, v, v + 1, f, perm)
    requires t in role1 && IsTable(role1[t], pd) && forall g | 0 <= g < |mem1| && g != t :: mem2[g] == mem1[g]
    requires role2 == if v < USERPAGES then role1[f := Data(pd, v)] else role1
    requires (v < USERPAGES ==> f in role && role[f] == Other) && pd in role && role[pd] == Dir
    ensures Mapped(mem, mem2, pd, v, v + 1, f, perm)
    ensures Lent(mem, role, mem2, role2, pd, if v < USERPAGES then f else 0)
  {
    assert Parts(0);
  }

  lemma GrewLent(mem: Mem, role: Roles, mem': Mem, role': Roles, pd: nat, f: nat)
    requires Grew(mem, role, mem', role', pd, 0, 0, 0) && pd in role && role[pd] == Dir
    ensures Lent(mem, role, mem', role', pd, f)
  {
    assert Parts(0);
  }

  lemma GrewOther(mem: Mem, role: Roles, mem': Mem, role': Roles, pd: nat, f: nat)
    requires Grew(mem, role, mem', role', pd, 0, 0, 0) && f in role && role[f] == Other
    ensures f in role' && role'[f] == Other
  {
    assert Parts(0);
  }

  lemma TableFrame(mem: Mem, role: Roles, pd: nat, v: nat)
    requires SpaceOk(mem, role, pd) && v < ALLPAGES && HasTable(mem, pd, v)
    ensures var t := FrameOf(mem[pd][PDX(v)]); t in role && t < |mem| && role[t] == Table(pd, PDX(v))
  {
    assert Parts(0);
  }

  lemma PageFrame(mem: Mem, role: Roles, pd: nat, v: nat)
    requires SpaceOk(mem, role, pd) && v < USERPAGES && Present(Entry(mem, pd, v))
    ensures var f := FrameOf(Entry(mem, pd, v)); f in role && 0 < f < |mem| && role[f] == Data(pd, v)
  {
    assert Parts(0);
  }

  // ---------- giving pages up ----------

  predicate Within(r: Role, pd: nat, lo: nat, hi: nat) {
    r.Data? && r.pd == pd && lo <= r.v < hi
  }

  /** The frames of pages [lo, hi), and no others, have become free; those pages, and no others, are unmapped. */
  ghost predicate Shrunk(mem: Mem, role: Roles, mem': Mem, role': Roles, pd: nat, lo: nat, hi: nat)
    requires pd < |mem|
  {
    && role'.Keys == role.Keys && |mem'| == |mem| && RolesOk(mem, role) && mem'[pd] == mem[pd]
    && forall x: nat | Parts(x) ::
      && (forall f | f in role :: role'[f] == if Within(role[f], pd, lo, hi) then Free else role[f])
      && (forall f | f in role && role[f] != Free && !Within(role[f], pd, lo, hi) && !IsTable(role[f], pd) ::
            mem'[f] == mem[f])
      && (forall u | 0 <= u < ALLPAGES ::
            Entry(mem', pd, u) == if lo <= u < hi && Present(Entry(mem, pd, u)) then 0 else Entry(mem, pd, u))
  }

  lemma ShrunkNone(mem: Mem, role: Roles, pd: nat, lo: nat)
    requires SpaceOk(mem, role, pd)
    ensures Shrunk(mem, role, mem, role, pd, lo, lo)
  {
    assert Parts(0);
  }

  lemma ShrunkOther(mem: Mem, role: Roles, mem': Mem, role': Roles, pd: nat, lo: nat, hi: nat, f: nat)
    requires pd < |mem| && Shrunk(mem, role, mem', role', pd, lo, hi) && f in role && role[f] == Other
    ensures f in role' && role'[f] == Other
  {
    assert Parts(0);
  }

  /** Pages that are not mapped can be passed over. */
  lemma ShrunkOver(mem: Mem, role: Roles, mem': Mem, role': Roles, pd: nat, lo: nat, k: nat, k': nat)
    requires SpaceOk(mem, role, pd) && Shrunk(mem, role, mem', role', pd, lo, k) && k <= k' <= USERPAGES
    requires forall u | k <= u < k' :: !Present(Entry(mem', pd, u))
    ensures Shrunk(mem, role, mem', role', pd, lo, k')
  {
    assert Parts(0);
    forall f | f in role ensures Within(role[f], pd, lo, k') == Within(role[f], pd, lo, k) {
      assert role[f].Data? && role[f].pd == pd ==> role[f].v < USERPAGES && Present(Entry(mem, pd, role[f].v));
    }
  }

  /** A whole table that is absent holds no mapped page. */
  lemma NoTable(mem: Mem, pd: nat, v: nat)
    requires pd < |mem| && v < ALLPAGES && !HasTable(mem, pd, v)
    ensures forall u | 0 <= v <= u < (PDX(v) + 1) * NPTE && u < ALLPAGES :: !Present(Entry(mem, pd, u))
  {
    assert Parts(0);
    forall u | 0 <= v <= u < (PDX(v) + 1) * NPTE && u < ALLPAGES ensures !Present(Entry(mem, pd, u)) {
      assert PDX(u) == PDX(v);
    }
  }

  /** kfree of the page's frame, then *pte = 0. */
  lemma DropPage(mem: Mem, role: Roles, pd: nat, v: nat, mem1: Mem, mem2: Mem)
    requires SpaceOk(mem, role, pd) && v < USERPAGES && HasTable(mem, pd, v) && Present(Entry(mem, pd, v))
    requires |mem1| == |mem| && forall g | 0 <= g < |mem| && g != FrameOf(Entry(mem, pd, v)) :: mem1[g] == mem[g]
    requires FrameOf(mem[pd][PDX(v)]) < |mem|
    requires var t := FrameOf(mem[pd][PDX(v)]); mem2 == mem1[t := mem1[t][PTX(v) := 0]]
    ensures var role2 := role[FrameOf(Entry(mem, pd, v)) := Free];
            SpaceOk(mem2, role2, pd) && Shrunk(mem, role, mem2, role2, pd, v, v + 1)
  {
    assert Parts(0);
    var t := FrameOf(mem[pd][PDX(v)]);
    var f := FrameOf(Entry(mem, pd, v));
    assert role[t] == Table(pd, PDX(v)) && role[f] == Data(pd, v);
    var mem' := mem[t := mem[t][PTX(v) := 0]];
    UnmapPage(mem, role, pd, v, mem', role[f := Other]);
    FrameSpace(mem', role[f := Other], mem2, role[f := Free], pd, f);
    forall g | g in role ensures Within(role[g], pd, v, v + 1) == (g == f) {}
  }

  lemma ShrunkMore(mem: Mem, role: Roles, mem1: Mem, role1: Roles, mem2: Mem, role2: Roles, pd: nat, lo: nat, k: nat)
    requires pd < |mem| && Shrunk(mem, role, mem1, role1, pd, lo, k) && lo <= k
    requires Shrunk(mem1, role1, mem2, role2, pd, k, k + 1)
    ensures Shrunk(mem, role, mem2, role2, pd, lo, k + 1)
  {
    assert Parts(0);
  }

  // ---------- growing ----------

  /** Pages [lo, hi) are mapped, writable, each to a zeroed frame that was free, and no other entry has changed. */
  ghost predicate Zeroed(mem: Mem, role: Roles, mem': Mem, pd: nat, lo: nat, hi: nat)
    requires pd < |mem| == |mem'|
  {
    forall x: nat | Parts(x) ::
      && (forall u | 0 <= u < ALLPAGES && !(lo <= u < hi) :: Entry(mem', pd, u) == Entry(mem, pd, u))
      && (forall u | lo <= u < hi && u < ALLPAGES :: ZeroedAt(role, mem', Entry(mem', pd, u)))
  }

  /** The entry maps, writable, a zeroed frame that was free. */
  ghost predicate ZeroedAt(role: Roles, mem': Mem, e: nat) {
    var f := FrameOf(e);
    e == MakeEntry(f, UPERM) && f in role && role[f] == Free && f < |mem'| && mem'[f] == ZeroPage()
  }

  lemma ZeroedEntry(mem: Mem, role: Roles, mem': Mem, pd: nat, lo: nat, hi: nat, u: nat)
    requires pd < |mem| == |mem'| && Zeroed(mem, role, mem', pd, lo, hi) && lo <= u < hi && u < ALLPAGES
    ensures ZeroedAt(role, mem', Entry(mem', pd, u)) && Present(Entry(mem', pd, u))
  {
    assert Parts(0);
  }

  /** User code may read and write pages [lo, hi), and may do with other pages what it might before. */
  ghost predicate Opened(mem: Mem, mem': Mem, pd: nat, lo: nat, hi: nat)
    requires pd < |mem| == |mem'|
  {
    forall u | 0 <= u < ALLPAGES ::
      && (UserReads(mem', pd, u) <==> lo <= u < hi || UserReads(mem, pd, u))
      && (UserWrites(mem', pd, u) <==> lo <= u < hi || UserWrites(mem, pd, u))
  }

  lemma GrowthOpened(mem: Mem, role: Roles, mem': Mem, role': Roles, pd: nat, lo: nat, hi: nat)
    requires SpaceOk(mem, role, pd) && SpaceOk(mem', role', pd) && |mem| == |mem'|
    requires Zeroed(mem, role, mem', pd, lo, hi)
    ensures Opened(mem, mem', pd, lo, hi)
  {
    assert Parts(0);
    forall u | 0 <= u < ALLPAGES
      ensures UserReads(mem', pd, u) <==> lo <= u < hi || UserReads(mem, pd, u)
      ensures UserWrites(mem', pd, u) <==> lo <= u < hi || UserWrites(mem, pd, u)
    {
      Granted(mem, role, pd, u);
      Granted(mem', role', pd, u);
      if lo <= u < hi {
        assert ZeroedAt(role, mem', Entry(mem', pd, u));
      }
    }
  }

  /** The frames that mapping [lo, k) takes: one for each page, and one for each table that is not there yet. */
  function Need(mem: Mem, pd: nat, lo: nat, k: nat): (n: nat)
    requires pd < |mem| && k <= ALLPAGES
    decreases k
  {
    if k <= lo then 0
    else Need(mem, pd, lo, k - 1) + if HasTable(mem, pd, k - 1) || SharesTable(lo, k - 1) then 1 else 2
  }

  lemma NeedOne(mem: Mem, pd: nat, v: nat)
    requires pd < |mem| && v < ALLPAGES
    ensures Need(mem, pd, v, v + 1) == if HasTable(mem, pd, v) then 1 else 2
  {
    assert Need(mem, pd, v, v) == 0;
  }

  lemma Whole(v: nat)
    ensures PagesUp(v * PGSIZE) == v && PagesUp((v + 1) * PGSIZE) == v + 1
  {}

  /** The page before v is in the range too and has the same table. */
  predicate SharesTable(lo: nat, v: nat) {
    v > lo && PDX(v - 1) == PDX(v)
  }

  lemma {:induction false} NeedGrows(mem: Mem, pd: nat, lo: nat, k: nat, hi: nat)
    requires pd < |mem| && lo <= k <= hi <= ALLPAGES
    ensures Need(mem, pd, lo, k) + (hi - k) <= Need(mem, pd, lo, hi)
    decreases hi - k
  {
    if k == hi {
    } else {
      NeedGrows(mem, pd, lo, k + 1, hi);
    }
  }

  /** The directory after pages [lo, k) have been given tables. */
  ghost predicate TablesTo(mem: Mem, mem': Mem, pd: nat, lo: nat, k: nat)
    requires pd < |mem| == |mem'| && lo <= k <= ALLPAGES
  {
    forall x: nat | Parts(x) ::
      && (k > lo ==> HasTable(mem', pd, k - 1))
      && forall d | 0 <= d < NPTE && (k > lo ==> d * NPTE >= k) :: mem'[pd][d] == mem[pd][d]
  }

  lemma TablesMore(mem: Mem, mem1: Mem, mem2: Mem, pd: nat, lo: nat, k: nat)
    requires pd < |mem| == |mem1| == |mem2| && lo <= k < ALLPAGES
    requires TablesTo(mem, mem1, pd, lo, k) && Tabled(mem1, mem2, pd, k, true)
    ensures TablesTo(mem, mem2, pd, lo, k + 1)
  {
    assert Parts(0);
  }

  lemma TableThere(mem: Mem, mem1: Mem, pd: nat, lo: nat, k: nat)
    requires pd < |mem| == |mem1| && lo <= k < ALLPAGES && TablesTo(mem, mem1, pd, lo, k)
    ensures Need(mem, pd, lo, k + 1) == Need(mem, pd, lo, k) + if HasTable(mem1, pd, k) then 1 else 2
  {
    assert Parts(0);
  }

  /** Of n free frames, `left` are left after the pages [lo, k). */
  ghost predicate Paid(mem: Mem, pd: nat, lo: nat, k: nat, left: nat, n: nat)
    requires pd < |mem| && k <= ALLPAGES
  {
    forall x: nat | Parts(x) :: left + Need(mem, pd, lo, k) == n
  }

  /** What holds up to page k + 1 holds up to the page that the loop goes on with. */
  lemma Advance(mem: Mem, role: Roles, mem': Mem, role': Roles, pd: nat, lo: nat, k: nat, next: nat, left: nat, n: nat)
    requires pd < |mem| == |mem'| && lo <= k < next == k + 1 <= USERPAGES
    requires Grew(mem, role, mem', role', pd, lo, k + 1, 0) && Zeroed(mem, role, mem', pd, lo, k + 1)
    requires TablesTo(mem, mem', pd, lo, k + 1) && Paid(mem, pd, lo, k + 1, left, n)
    ensures Grew(mem, role, mem', role', pd, lo, next, 0) && Zeroed(mem, role, mem', pd, lo, next)
    ensures TablesTo(mem, mem', pd, lo, next) && Paid(mem, pd, lo, next, left, n)
  {}

  lemma PaidStart(mem: Mem, pd: nat, lo: nat, n: nat)
    requires pd < |mem| && lo <= ALLPAGES
    ensures Paid(mem, pd, lo, lo, n, n)
  {}

  lemma PaidMore(mem: Mem, mem1: Mem, pd: nat, lo: nat, k: nat, left: nat, left': nat, n: nat)
    requires pd < |mem| == |mem1| && lo <= k < ALLPAGES && TablesTo(mem, mem1, pd, lo, k)
    requires Paid(mem, pd, lo, k, left, n)
    requires left' + (if HasTable(mem1, pd, k) then 1 else 2) == left
    ensures Paid(mem, pd, lo, k + 1, left', n)
  {
    assert Parts(0);
    TableThere(mem, mem1, pd, lo, k);
  }

  lemma PaidShort(mem: Mem, mem1: Mem, pd: nat, lo: nat, k: nat, hi: nat, left: nat, n: nat)
    requires pd < |mem| == |mem1| && lo <= k < hi <= ALLPAGES && TablesTo(mem, mem1, pd, lo, k)
    requires Paid(mem, pd, lo, k, left, n) && left < if HasTable(mem1, pd, k) then 1 else 2
    ensures n < Need(mem, pd, lo, hi)
  {
    assert Parts(0);
    TableThere(mem, mem1, pd, lo, k);
    NeedGrows(mem, pd, lo, k + 1, hi);
  }

  lemma PaidAll(mem: Mem, pd: nat, lo: nat, k: nat, hi: nat, left: nat, n: nat)
    requires pd < |mem| && k == hi <= ALLPAGES && Paid(mem, pd, lo, k, left, n)
    ensures n >= Need(mem, pd, lo, hi)
  {
    assert Parts(0);
  }

  /** The tables alone. */
  function Tables(mem: Mem, pd: nat, lo: nat, k: nat): (n: int)
    requires pd < |mem| && lo <= k <= ALLPAGES
  {
    Need(mem, pd, lo, k) - (k - lo)
  }

  lemma TablesGrow(mem: Mem, pd: nat, lo: nat, k: nat, hi: nat)
    requires pd < |mem| && lo <= k <= hi <= ALLPAGES
    ensures Tables(mem, pd, lo, k) <= Tables(mem, pd, lo, hi)
  {
    NeedGrows(mem, pd, lo, k, hi);
  }

  /** The directory after pages [lo, k) have been given tables, slot by slot. */
  ghost predicate Spread(mem: Mem, mem': Mem, pd: nat, lo: nat, k: nat)
    requires pd < |mem| == |mem'|
  {
    forall x: nat | Parts(x) :: forall d | 0 <= d < NPTE ::
      if PDX(lo) <= d && d * NPTE < k && lo < k then Present(mem'[pd][d]) else mem'[pd][d] == mem[pd][d]
  }

  /** One page more takes a frame exactly if its table is not there. */
  lemma SpreadNeeds(mem: Mem, mem1: Mem, pd: nat, lo: nat, k: nat)
    requires pd < |mem| == |mem1| && lo <= k < ALLPAGES && Spread(mem, mem1, pd, lo, k)
    ensures Tables(mem, pd, lo, k + 1) == Tables(mem, pd, lo, k) + if HasTable(mem1, pd, k) then 0 else 1
  {
    assert Parts(0);
    assert k > lo && PDX(k - 1) == PDX(k) ==> PDX(k) * NPTE < k;
    assert PDX(k) * NPTE <= k;
  }

  lemma SpreadMore(mem: Mem, mem1: Mem, mem2: Mem, pd: nat, lo: nat, k: nat)
    requires pd < |mem| == |mem1| == |mem2| && lo <= k < ALLPAGES && Spread(mem, mem1, pd, lo, k)
    requires Tabled(mem1, mem2, pd, k, true)
    ensures Spread(mem, mem2, pd, lo, k + 1)
  {
    assert Parts(0);
    assert PDX(lo) <= PDX(k) && PDX(k) * NPTE <= k < (PDX(k) + 1) * NPTE;
  }

  /** Frame f is taken, filled with c, and mapped as page k: the address space has grown by that page. */
  lemma PageGrew(mem: Mem, role: Roles, mem1: Mem, role1: Roles, f: nat, c: Page, mem3: Mem, role3: Roles, pd: nat,
                 lo: nat, k: nat)
    requires SpaceOk(mem1, role1, pd) && Grew(mem, role, mem1, role1, pd, lo, k, 0) && lo <= k
    requires f in role1 && role1[f] == Free && f < |mem1|
    requires Lent(mem1[f := c], role1[f := Other], mem3, role3, pd, f) && role3[f] == Data(pd, k)
    ensures Grew(mem, role, mem3, role3, pd, lo, k + 1, 0) && f in role && role[f] == Free && f < |mem3| && mem3[f] == c
  {
    assert Parts(0);
  }

  /** The pages mapped before keep their entries and contents. */
  lemma PageStays(mem1: Mem, role1: Roles, f: nat, c: Page, mem3: Mem, role3: Roles, pd: nat, k: nat, perm: nat, u: nat)
    requires SpaceOk(mem1, role1, pd) && f in role1 && role1[f] == Free && perm < PGSIZE && f < |mem1| == |mem3|
    requires Lent(mem1[f := c], role1[f := Other], mem3, role3, pd, f) && SameEntries(mem1, mem1[f := c], pd)
    requires Mapped(mem1[f := c], mem3, pd, k, k + 1, f, perm) && u < USERPAGES && u != k && Present(Entry(mem1, pd, u))
    ensures var g := FrameOf(Entry(mem1, pd, u));
            Entry(mem3, pd, u) == Entry(mem1, pd, u) && g < |mem1| && mem3[g] == mem1[g]
  {
    assert Parts(0);
    assert role1[FrameOf(Entry(mem1, pd, u))] == Data(pd, u);
  }

  /** One round of allocuvm's loop: frame f is taken, zeroed, and mapped as page k. */
  lemma AllocStep(mem: Mem, role: Roles, mem1: Mem, role1: Roles, f: nat, mem3: Mem, role3: Roles, pd: nat, lo: nat,
                  k: nat)
    requires SpaceOk(mem1, role1, pd) && Grew(mem, role, mem1, role1, pd, lo, k, 0) && pd < |mem| && f < |mem1|
    requires f in role1 && role1[f] == Free && lo <= k < USERPAGES
    requires Zeroed(mem, role, mem1, pd, lo, k)
    requires Lent(mem1[f := ZeroPage()], role1[f := Other], mem3, role3, pd, f)
    requires SameEntries(mem1, mem1[f := ZeroPage()], pd) && Mapped(mem1[f := ZeroPage()], mem3, pd, k, k + 1, f, UPERM)
    requires role3[f] == Data(pd, k)
    ensures Grew(mem, role, mem3, role3, pd, lo, k + 1, 0) && Zeroed(mem, role, mem3, pd, lo, k + 1)
  {
    PageGrew(mem, role, mem1, role1, f, ZeroPage(), mem3, role3, pd, lo, k);
    forall u | lo <= u < k
      ensures ZeroedAt(role, mem1, Entry(mem1, pd, u)) && Entry(mem3, pd, u) == Entry(mem1, pd, u)
      ensures ZeroedAt(role, mem3, Entry(mem3, pd, u))
    {
      ZeroedEntry(mem, role, mem1, pd, lo, k, u);
      PageStays(mem1, role1, f, ZeroPage(), mem3, role3, pd, k, UPERM, u);
    }
    MappedAt(mem1[f := ZeroPage()], mem3, pd, k, f, UPERM);
    forall u | 0 <= u < ALLPAGES && !(lo <= u < k + 1) ensures Entry(mem3, pd, u) == Entry(mem, pd, u) {
      MappedElse(mem1[f := ZeroPage()], mem3, pd, k, k + 1, f, UPERM, u);
      ZeroedElse(mem, role, mem1, pd, lo, k, u);
    }
    ZeroedIs(mem, role, mem3, pd, lo, k + 1);
  }

  lemma ZeroedIs(mem: Mem, role: Roles, mem': Mem, pd: nat, lo: nat, hi: nat)
    requires pd < |mem| == |mem'|
    requires forall u | 0 <= u < ALLPAGES && !(lo <= u < hi) :: Entry(mem', pd, u) == Entry(mem, pd, u)
    requires forall u | lo <= u < hi && u < ALLPAGES :: ZeroedAt(role, mem', Entry(mem', pd, u))
    ensures Zeroed(mem, role, mem', pd, lo, hi)
  {}

  /** A round that could not get its table: frame f is still in hand. */
  lemma AllocStuck(mem: Mem, role: Roles, mem1: Mem, role1: Roles, f: nat, mem3: Mem, role3: Roles, pd: nat, lo: nat,
                   k: nat)
    requires Grew(mem, role, mem1, role1, pd, lo, k, 0) && pd < |mem| && pd != f && f < |mem1|
    requires f in role1 && role1[f] == Free && Zeroed(mem, role, mem1, pd, lo, k)
    requires Lent(mem1[f := ZeroPage()], role1[f := Other], mem3, role3, pd, f) && role3[f] == Other
    requires SameEntries(mem1, mem1[f := ZeroPage()], pd) && SameEntries(mem1[f := ZeroPage()], mem3, pd)
    ensures Midway(mem, role, mem3, role3, pd, lo, k, f) && f in role && role[f] == Free
  {
    assert Parts(0);
  }

  lemma ZeroedElse(mem: Mem, role: Roles, mem': Mem, pd: nat, lo: nat, hi: nat, u: nat)
    requires pd < |mem| == |mem'| && Zeroed(mem, role, mem', pd, lo, hi) && u < ALLPAGES && !(lo <= u < hi)
    ensures Entry(mem', pd, u) == Entry(mem, pd, u)
  {
    assert Parts(0);
  }

  lemma ZeroedOne(mem: Mem, role: Roles, mem': Mem, pd: nat, v: nat)
    requires pd < |mem| == |mem'| && Zeroed(mem, role, mem', pd, v, v + 1) && v < ALLPAGES
    ensures Present(Entry(mem', pd, v))
    ensures forall u | 0 <= u < ALLPAGES && u != v :: Entry(mem', pd, u) == Entry(mem, pd, u)
  {
    assert Parts(0);
  }

  /** The same pages are mapped to the same frames with the same flags. */
  ghost predicate SameMap(mem: Mem, mem': Mem, pd: nat)
    requires pd < |mem| == |mem'|
  {
    forall u | 0 <= u < ALLPAGES ::
      Entry(mem', pd, u) == Entry(mem, pd, u) || (!Present(Entry(mem, pd, u)) && !Present(Entry(mem', pd, u)))
  }

  /** What allocuvm has come to at page k, with frame x in hand. */
  ghost predicate Midway(mem: Mem, role: Roles, mem1: Mem, role1: Roles, pd: nat, lo: nat, k: nat, x: nat)
    requires pd < |mem|
  {
    && Grew(mem, role, mem1, role1, pd, lo, k, x)
    && forall u | 0 <= u < ALLPAGES && !(lo <= u < k) :: Entry(mem1, pd, u) == Entry(mem, pd, u)
  }

  lemma MidwayNow(mem: Mem, role: Roles, mem1: Mem, role1: Roles, pd: nat, lo: nat, k: nat)
    requires pd < |mem| && Grew(mem, role, mem1, role1, pd, lo, k, 0) && Zeroed(mem, role, mem1, pd, lo, k)
    ensures Midway(mem, role, mem1, role1, pd, lo, k, 0)
  {
    assert Parts(0);
  }

  /** deallocuvm over the range undoes what was mapped of it. */
  lemma RolledMap(mem: Mem, role: Roles, mem1: Mem, role1: Roles, mem2: Mem, role2: Roles, pd: nat, lo: nat, k: nat,
                  hi: nat, x: nat)
    requires pd < |mem| && Midway(mem, role, mem1, role1, pd, lo, k, x) && lo <= k <= hi <= USERPAGES
    requires forall u | lo <= u < hi :: !Present(Entry(mem, pd, u))
    requires Shrunk(mem1, role1, mem2, role2, pd, lo, hi)
    ensures SameMap(mem, mem2, pd)
  {
    assert Parts(0);
  }

  lemma RolledRoles(mem: Mem, role: Roles, mem1: Mem, role1: Roles, mem2: Mem, role2: Roles, pd: nat, lo: nat, k: nat,
                    hi: nat, x: nat)
    requires SpaceOk(mem, role, pd) && Grew(mem, role, mem1, role1, pd, lo, k, x) && lo <= k <= hi <= USERPAGES
    requires forall u | lo <= u < hi :: !Present(Entry(mem, pd, u))
    requires Shrunk(mem1, role1, mem2, role2, pd, lo, hi)
    ensures Grew(mem, role, mem2, role2, pd, lo, lo, x)
  {
    assert Parts(0);
    forall f | f in role && role[f] != Free
      ensures !Within(role1[f], pd, lo, hi)
    {
      assert role1[f] == role[f];
      assert Concerns(role[f], pd) && role[f].Data? ==> role[f].v < USERPAGES && Present(Entry(mem, pd, role[f].v));
    }
  }

  /** kfree of the frame in hand. */
  lemma Returned(mem: Mem, role: Roles, mem1: Mem, role1: Roles, mem2: Mem, pd: nat, lo: nat, f: nat)
    requires SpaceOk(mem1, role1, pd) && Grew(mem, role, mem1, role1, pd, lo, lo, f) && SameMap(mem, mem1, pd)
    requires f in role && role[f] == Free && role1[f] == Other
    requires |mem2| == |mem1| && forall g | 0 <= g < |mem1| && g != f :: mem2[g] == mem1[g]
    ensures SpaceOk(mem2, role1[f := Free], pd)
    ensures Grew(mem, role, mem2, role1[f := Free], pd, lo, lo, 0) && SameMap(mem, mem2, pd)
  {
    assert Parts(0);
    FrameSpace(mem1, role1, mem2, role1[f := Free], pd, f);
  }

  // ---------- giving a whole address space up ----------

  predicate Gone(r: Role, pd: nat, i: nat) {
    (r.Data? && r.pd == pd) || (IsTable(r, pd) && r.i < i)
  }

  /** freevm's loop at directory slot i: the pages and the tables before i have come free. */
  ghost predicate Releasing(mem: Mem, role: Roles, mem': Mem, role': Roles, pd: nat, i: nat)
    requires pd < |mem|
  {
    && role'.Keys == role.Keys && |mem'| == |mem| && RolesOk(mem, role) && mem'[pd] == mem[pd]
    && (forall f | f in role :: role'[f] == if Gone(role[f], pd, i) then Free else role[f])
    && (forall f | f in role && role[f] != Free && !Concerns(role[f], pd) :: mem'[f] == mem[f])
  }

  lemma ReleaseStart(mem: Mem, role: Roles, mem': Mem, role': Roles, pd: nat)
    requires SpaceOk(mem, role, pd) && Shrunk(mem, role, mem', role', pd, 0, USERPAGES)
    ensures Releasing(mem, role, mem', role', pd, 0)
  {
    assert Parts(0);
  }

  lemma TableHeld(mem: Mem, role: Roles, mem1: Mem, role1: Roles, pd: nat, i: nat)
    requires SpaceOk(mem, role, pd) && Releasing(mem, role, mem1, role1, pd, i) && i < NPTE && Present(mem[pd][i])
    ensures var t := FrameOf(mem[pd][i]); 0 < t < |mem| && t in role1 && role1[t] != Free
  {
    assert Parts(0);
  }

  lemma ReleaseTable(mem: Mem, role: Roles, mem1: Mem, role1: Roles, mem2: Mem, pd: nat, i: nat)
    requires SpaceOk(mem, role, pd) && Releasing(mem, role, mem1, role1, pd, i) && i < NPTE && Present(mem[pd][i])
    requires |mem2| == |mem1| && forall g | 0 <= g < |mem1| && g != FrameOf(mem[pd][i]) :: mem2[g] == mem1[g]
    ensures FrameOf(mem[pd][i]) in role1 && role1[FrameOf(mem[pd][i])] != Free
    ensures Releasing(mem, role, mem2, role1[FrameOf(mem[pd][i]) := Free], pd, i + 1)
  {
    assert Parts(0);
  }

  lemma ReleaseNone(mem: Mem, role: Roles, mem1: Mem, role1: Roles, pd: nat, i: nat)
    requires SpaceOk(mem, role, pd) && Releasing(mem, role, mem1, role1, pd, i) && i < NPTE && !Present(mem[pd][i])
    ensures Releasing(mem, role, mem1, role1, pd, i + 1)
  {
    assert Parts(0);
  }

  /** Every frame of the address space, and no other, has come free. */
  ghost predicate Released(mem: Mem, role: Roles, mem': Mem, role': Roles, pd: nat) {
    && role'.Keys == role.Keys && |mem'| == |mem| && RolesOk(mem, role)
    && forall x: nat | Parts(x) ::
      && (forall f | f in role :: role'[f] == if f == pd || Concerns(role[f], pd) then Free else role[f])
      && (forall f | f in role && role[f] != Free && f != pd && !Concerns(role[f], pd) :: mem'[f] == mem[f])
  }

  /** Building an address space on free frames and then giving it up leaves every frame in the use it was in. */
  lemma BuiltAndReleased(mem: Mem, role: Roles, mem1: Mem, role1: Roles, mem2: Mem, role2: Roles, pd: nat, hi: nat)
    requires World(mem, role) && pd in role && role[pd] == Free
    requires Grew(mem, role, mem1, role1, pd, 0, hi, 0) && Released(mem1, role1, mem2, role2, pd)
    ensures role2 == role && forall f | f in role && role[f] != Free :: mem2[f] == mem[f]
  {
    assert Parts(0);
    forall f | f in role ensures role2[f] == role[f] {
      assert role[f] != Free ==> role1[f] == role[f] && !Concerns(role[f], pd);
    }
  }

  // ---------- the kernel's half ----------

  const EXTMEM := 0x100
  const PHYSTOP := 0xE000
  const DEVSPACE := 0xF_E000

  /** An entry of kmap, in pages. */
  datatype Range = Range(virt: nat, start: nat, end: nat, perm: nat)

  /** kmap; data is the first physical page of the kernel's data. */
  function Kmap(data: nat): (k: seq<Range>)
    requires EXTMEM < data < PHYSTOP
  {
    [Range(USERPAGES, 0, EXTMEM, PTE_W),
     Range(USERPAGES + EXTMEM, EXTMEM, data, 0),
     Range(USERPAGES + data, data, PHYSTOP, PTE_W),
     Range(DEVSPACE, DEVSPACE, ALLPAGES, PTE_W)]
  }

  /** What every address space maps page v of the kernel's half to: physical memory at KERNBASE, read-only where the
      text is, and the devices in place. */
  function KernelEntry(data: nat, v: nat): (e: nat) {
    if USERPAGES <= v < USERPAGES + PHYSTOP then
      MakeEntry(v - USERPAGES, if EXTMEM <= v - USERPAGES < data then 0 else PTE_W)
    else if DEVSPACE <= v < ALLPAGES then MakeEntry(v, PTE_W)
    else 0
  }

  /** The tables that the kernel's half takes below page v: 56 for physical memory and 8 for the devices. */
  function KernelTables(v: nat): (n: nat) {
    if v <= USERPAGES then 0
    else if v <= USERPAGES + PHYSTOP then (v - USERPAGES + NPTE - 1) / NPTE
    else if v <= DEVSPACE then PHYSTOP / NPTE
    else PHYSTOP / NPTE + (v - DEVSPACE + NPTE - 1) / NPTE
  }

  /** What a new address space takes: the directory and those tables. */
  const KERNELFRAMES := 65

  /** The directory has the tables of the kernel's half below page v, and no others. */
  ghost predicate KernelDir(mem: Mem, pd: nat, v: nat)
    requires pd < |mem|
  {
    forall d | 0 <= d < NPTE :: Present(mem[pd][d]) <==> InHalf(d) && d * NPTE < v
  }

  predicate InHalf(d: nat) {
    USERPAGES <= d * NPTE < USERPAGES + PHYSTOP || DEVSPACE <= d * NPTE < ALLPAGES
  }

  /** A range of kmap lies in one of the two parts. */
  predicate InPart(lo: nat, hi: nat) {
    (USERPAGES <= lo < hi <= USERPAGES + PHYSTOP) || (lo == DEVSPACE < hi <= ALLPAGES)
  }

  lemma {:induction false} KernelNeeds(mem: Mem, pd: nat, lo: nat, hi: nat)
    requires pd < |mem| && KernelDir(mem, pd, lo) && lo <= hi && (lo < hi ==> InPart(lo, hi)) && hi <= ALLPAGES
    ensures lo < hi ==> Tables(mem, pd, lo, hi) == KernelTables(hi) - KernelTables(lo)
    ensures lo == hi ==> Tables(mem, pd, lo, hi) == 0
    decreases hi
  {
    if lo == hi {
      assert Need(mem, pd, lo, hi) == 0;
    } else {
      var k: nat := hi - 1;
      KernelNeeds(mem, pd, lo, k);
      KernelPage(lo, k);
      assert HasTable(mem, pd, k) <==> PDX(k) * NPTE < lo;
    }
  }

  /** A table is due at every page number that is a multiple of 1024, and at no other. */
  lemma KernelPage(lo: nat, k: nat)
    requires InPart(lo, k + 1) && lo <= k
    ensures InHalf(PDX(k)) && (PDX(k) * NPTE < lo || SharesTable(lo, k) <==> k % NPTE != 0)
    ensures KernelTables(k + 1) == KernelTables(k) + if k % NPTE == 0 then 1 else 0
  {}

  lemma KernelDirMore(mem: Mem, mem': Mem, pd: nat, lo: nat, hi: nat)
    requires pd < |mem| == |mem'| && KernelDir(mem, pd, lo) && InPart(lo, hi) && Spread(mem, mem', pd, lo, hi)
    ensures KernelDir(mem', pd, hi)
  {
    assert Parts(0);
    forall d | 0 <= d < NPTE ensures Present(mem'[pd][d]) <==> InHalf(d) && d * NPTE < hi {
      assert PDX(lo) * NPTE <= lo < (PDX(lo) + 1) * NPTE;
    }
  }

  /** The gap between the two parts has no tables. */
  lemma KernelDirGap(mem: Mem, pd: nat)
    requires pd < |mem| && KernelDir(mem, pd, USERPAGES + PHYSTOP)
    ensures KernelDir(mem, pd, DEVSPACE)
  {
    assert Parts(0);
  }

  /** With no tables below it, copying n pages takes n frames and one more for every 1024 of them. */
  lemma {:induction false} UserNeeds(mem: Mem, pd: nat, n: nat)
    requires pd < |mem| && n <= USERPAGES && forall v | 0 <= v < USERPAGES :: !HasTable(mem, pd, v)
    ensures Need(mem, pd, 0, n) == n + (n + NPTE - 1) / NPTE
  {
    if n == 0 {
      assert Need(mem, pd, 0, n) == 0;
    } else {
      UserNeeds(mem, pd, n - 1);
    }
  }

  /** The entries of an address space that has the kernel's part below page hi and nothing else. */
  ghost predicate KernelTo(mem: Mem, pd: nat, data: nat, hi: nat)
    requires pd < |mem|
  {
    forall u | 0 <= u < ALLPAGES :: Entry(mem, pd, u) == if u < hi then KernelEntry(data, u) else 0
  }

  /** What that means: physical memory and the devices are mapped in place, the kernel may write all of it but the
      text, and user code may not even read any. */
  ghost predicate KernelOnly(mem: Mem, pd: nat, data: nat)
    requires pd < |mem|
  {
    && (forall u | 0 <= u < ALLPAGES :: !UserReads(mem, pd, u))
    && (forall u | USERPAGES <= u < USERPAGES + PHYSTOP :: var e := Entry(mem, pd, u);
          Present(e) && FrameOf(e) == u - USERPAGES && (Writable(e) <==> !(EXTMEM <= u - USERPAGES < data)))
    && (forall u | DEVSPACE <= u < ALLPAGES :: var e := Entry(mem, pd, u); Present(e) && FrameOf(e) == u && Writable(e))
  }

  lemma KernelHalf(mem: Mem, role: Roles, pd: nat, data: nat)
    requires SpaceOk(mem, role, pd) && KernelTo(mem, pd, data, ALLPAGES)
    ensures KernelOnly(mem, pd, data)
  {
    forall u | 0 <= u < ALLPAGES ensures !UserReads(mem, pd, u) {
      Granted(mem, role, pd, u);
    }
  }

  /** The page at which entry k of kmap starts. */
  function Bound(data: nat, k: nat): (v: nat)
    requires EXTMEM < data < PHYSTOP && k <= 4
  {
    if k < 4 then Kmap(data)[k].virt else ALLPAGES
  }

  /** Each entry of kmap ends where the next begins, but for the gap before the devices. */
  lemma RangePart(data: nat, k: nat)
    requires EXTMEM < data < PHYSTOP && k < 4
    ensures var r := Kmap(data)[k]; var end := r.virt + (r.end - r.start);
            && InPart(r.virt, end) && (k != 2 ==> end == Bound(data, k + 1)) && (k == 2 ==> end == USERPAGES + PHYSTOP)
            && KernelTables(end) == KernelTables(Bound(data, k + 1)) <= KERNELFRAMES - 1
  {}

  lemma KernelMore(mem: Mem, mem': Mem, pd: nat, data: nat, k: nat, hi: nat)
    requires pd < |mem| == |mem'| && EXTMEM < data < PHYSTOP && k < 4
    requires KernelTo(mem, pd, data, Kmap(data)[k].virt)
    requires var r := Kmap(data)[k]; Mapped(mem, mem', pd, r.virt, r.virt + (r.end - r.start), r.start, r.perm)
    requires hi == if k < 3 then Kmap(data)[k + 1].virt else ALLPAGES
    ensures KernelTo(mem', pd, data, hi)
  {
    assert Parts(0);
  }

  /** An address space starts from a zeroed frame. */
  lemma NewDirectory(mem: Mem, role: Roles, d: nat, data: nat)
    requires World(mem, role) && d in role && role[d] == Free
    ensures var mem' := mem[d := ZeroPage()]; var role' := role[d := Dir];
            && SpaceOk(mem', role', d) && KernelTo(mem', d, data, USERPAGES) && Grew(mem, role, mem', role', d, 0, 0, 0)
            && KernelDir(mem', d, USERPAGES)
  {
    assert Parts(0);
    var mem', role' := mem[d := ZeroPage()], role[d := Dir];
    forall f | f in role' ensures !Concerns(role'[f], d) {}
    forall u | 0 <= u < ALLPAGES ensures Entry(mem', d, u) == 0 {}
  }

  /** Tables for the kernel's part. */
  lemma LentGrew(mem: Mem, role: Roles, mem1: Mem, role1: Roles, mem2: Mem, role2: Roles, pd: nat, hi: nat)
    requires Grew(mem, role, mem1, role1, pd, 0, hi, 0) && Lent(mem1, role1, mem2, role2, pd, 0)
    ensures Grew(mem, role, mem2, role2, pd, 0, hi, 0)
  {
    assert Parts(0);
  }

  // ---------- every operation keeps all address spaces in order ----------

  lemma GrewUntouched(mem: Mem, role: Roles, mem': Mem, role': Roles, pd: nat, lo: nat, hi: nat)
    requires Grew(mem, role, mem', role', pd, lo, hi, 0) && pd in role && (role[pd] == Dir || role[pd] == Free)
    ensures Untouched(mem, role, mem', role', pd)
  {
    assert Parts(0);
  }

  lemma GrewWorld(mem: Mem, role: Roles, mem': Mem, role': Roles, pd: nat, lo: nat, hi: nat)
    requires World(mem, role) && pd in role && (role[pd] == Dir || role[pd] == Free)
    requires Grew(mem, role, mem', role', pd, lo, hi, 0) && SpaceOk(mem', role', pd)
    ensures World(mem', role')
  {
    assert Parts(0);
    GrewUntouched(mem, role, mem', role', pd, lo, hi);
    WorldKept(mem, role, mem', role', pd);
  }

  lemma ShrunkWorld(mem: Mem, role: Roles, mem': Mem, role': Roles, pd: nat, lo: nat, hi: nat)
    requires World(mem, role) && pd in role && role[pd] == Dir && Shrunk(mem, role, mem', role', pd, lo, hi)
    requires SpaceOk(mem', role', pd)
    ensures World(mem', role')
  {
    assert Parts(0);
    WorldKept(mem, role, mem', role', pd);
  }

  lemma ReleasedWorld(mem: Mem, role: Roles, mem': Mem, role': Roles, pd: nat)
    requires World(mem, role) && pd in role && role[pd] == Dir && Released(mem, role, mem', role', pd)
    ensures World(mem', role')
  {
    assert Parts(0);
    WorldKept(mem, role, mem', role', pd);
  }

  lemma SameWorld(mem: Mem, role: Roles, mem': Mem)
    requires World(mem, role) && |mem'| == |mem| && forall f | f in role && role[f] != Free :: mem'[f] == mem[f]
    ensures World(mem', role)
  {
    assert Parts(0);
    forall p | p in role && role[p] == Dir ensures SpaceOk(mem', role, p) {
      OtherSpace(mem, role, mem', role, 0, p);
    }
  }

  // ---------- copying ----------

  /** Pages below k of d hold what those of pd held, with the same flags, each on a frame that was free; the rest is the
      kernel's half. */
  ghost predicate Copied(mem: Mem, role: Roles, mem': Mem, pd: nat, d: nat, data: nat, k: nat)
    requires pd < |mem| && d < |mem'| == |mem|
  {
    forall x: nat | Parts(x) ::
      && (forall u | 0 <= u < ALLPAGES && u >= k :: Entry(mem', d, u) == KernelEntry(data, u))
      && (forall u | 0 <= u < k && u < ALLPAGES :: CopyOf(mem, role, mem', Entry(mem, pd, u), Entry(mem', d, u)))
  }

  ghost predicate CopyOf(mem: Mem, role: Roles, mem': Mem, e: nat, e': nat) {
    && Present(e') && FlagsOf(e') == FlagsOf(e)
    && FrameOf(e') in role && role[FrameOf(e')] == Free && FrameOf(e') < |mem'| && FrameOf(e) < |mem|
    && mem'[FrameOf(e')] == mem[FrameOf(e)]
  }

  /** User code may do in the copy, below page k, exactly what it may do in the parent, and nothing elsewhere. */
  ghost predicate SameRights(mem: Mem, mem': Mem, pd: nat, d: nat, k: nat)
    requires pd < |mem| && d < |mem'| == |mem|
  {
    forall u | 0 <= u < ALLPAGES ::
      && (UserReads(mem', d, u) <==> u < k && UserReads(mem, pd, u))
      && (UserWrites(mem', d, u) <==> u < k && UserWrites(mem, pd, u))
  }

  lemma CopyRights(mem: Mem, role: Roles, mem': Mem, role': Roles, pd: nat, d: nat, data: nat, k: nat)
    requires SpaceOk(mem, role, pd) && SpaceOk(mem', role', d) && |mem'| == |mem| && k <= USERPAGES
    requires Copied(mem, role, mem', pd, d, data, k) && forall u | 0 <= u < k :: Present(Entry(mem, pd, u))
    ensures SameRights(mem, mem', pd, d, k)
  {
    assert Parts(0);
    forall u | 0 <= u < ALLPAGES
      ensures UserReads(mem', d, u) <==> u < k && UserReads(mem, pd, u)
      ensures UserWrites(mem', d, u) <==> u < k && UserWrites(mem, pd, u)
    {
      Granted(mem, role, pd, u);
      Granted(mem', role', d, u);
      assert u < k ==> CopyOf(mem, role, mem', Entry(mem, pd, u), Entry(mem', d, u));
    }
  }

  /** The parent is as it was. */
  lemma ParentKept(mem: Mem, role: Roles, mem1: Mem, role1: Roles, d: nat, pd: nat, i: nat)
    requires World(mem, role) && pd in role && role[pd] == Dir && d in role && role[d] == Free && i < USERPAGES
    requires Grew(mem, role, mem1, role1, d, 0, i, 0) && Present(Entry(mem, pd, i))
    ensures SpaceOk(mem1, role1, pd) && Entry(mem1, pd, i) == Entry(mem, pd, i)
    ensures FrameOf(Entry(mem, pd, i)) < |mem| && mem1[FrameOf(Entry(mem, pd, i))] == mem[FrameOf(Entry(mem, pd, i))]
  {
    assert Parts(0);
    GrewUntouched(mem, role, mem1, role1, d, 0, i);
    OtherSpace(mem, role, mem1, role1, d, pd);
  }

  /** What holds up to page k + 1 holds up to the page that the loop goes on with. */
  lemma AdvanceCopy(mem: Mem, role: Roles, memd: Mem, mem': Mem, role': Roles, pd: nat, d: nat, data: nat, k: nat,
                    next: nat, left: nat, n: nat)
    requires pd < |mem| == |mem'| == |memd| && d < |mem| && next == k + 1 <= USERPAGES
    requires Grew(mem, role, mem', role', d, 0, k + 1, 0) && Copied(mem, role, mem', pd, d, data, k + 1)
    requires TablesTo(memd, mem', d, 0, k + 1) && Paid(memd, d, 0, k + 1, left, n)
    ensures Grew(mem, role, mem', role', d, 0, next, 0) && Copied(mem, role, mem', pd, d, data, next)
    ensures TablesTo(memd, mem', d, 0, next) && Paid(memd, d, 0, next, left, n)
  {}

  lemma CopiedElse(mem: Mem, role: Roles, mem': Mem, pd: nat, d: nat, data: nat, k: nat)
    requires pd < |mem| && d < |mem'| == |mem| && Copied(mem, role, mem', pd, d, data, k) && k < USERPAGES
    ensures Entry(mem', d, k) == 0
  {
    assert Parts(0);
  }

  lemma CopyStep(mem: Mem, role: Roles, mem1: Mem, role1: Roles, f: nat, mem3: Mem, role3: Roles, pd: nat, d: nat,
                 data: nat, k: nat, e: nat, c: Page, perm: nat)
    requires SpaceOk(mem1, role1, d) && Grew(mem, role, mem1, role1, d, 0, k, 0) && pd < |mem| && f < |mem1|
    requires f in role1 && role1[f] == Free && k < USERPAGES && Copied(mem, role, mem1, pd, d, data, k)
    requires e == Entry(mem, pd, k) && Present(e) && FrameOf(e) < |mem| && c == mem[FrameOf(e)] && perm == FlagsOf(e)
    requires Lent(mem1[f := c], role1[f := Other], mem3, role3, d, f) && SameEntries(mem1, mem1[f := c], d)
    requires Mapped(mem1[f := c], mem3, d, k, k + 1, f, perm) && role3[f] == Data(d, k)
    ensures Grew(mem, role, mem3, role3, d, 0, k + 1, 0) && Copied(mem, role, mem3, pd, d, data, k + 1)
  {
    PageGrew(mem, role, mem1, role1, f, c, mem3, role3, d, 0, k);
    forall u | 0 <= u < k ensures CopyOf(mem, role, mem3, Entry(mem, pd, u), Entry(mem3, d, u)) {
      CopiedEntry(mem, role, mem1, pd, d, data, k, u);
      PageStays(mem1, role1, f, c, mem3, role3, d, k, perm, u);
    }
    MappedAt(mem1[f := c], mem3, d, k, f, perm);
    assert CopyOf(mem, role, mem3, Entry(mem, pd, k), Entry(mem3, d, k));
    forall u | 0 <= u < ALLPAGES && u >= k + 1 ensures Entry(mem3, d, u) == KernelEntry(data, u) {
      MappedElse(mem1[f := c], mem3, d, k, k + 1, f, perm, u);
      CopiedRest(mem, role, mem1, pd, d, data, k, u);
    }
    CopiedIs(mem, role, mem3, pd, d, data, k + 1);
  }

  lemma CopiedIs(mem: Mem, role: Roles, mem': Mem, pd: nat, d: nat, data: nat, k: nat)
    requires pd < |mem| && d < |mem'| == |mem|
    requires forall u | 0 <= u < ALLPAGES && u >= k :: Entry(mem', d, u) == KernelEntry(data, u)
    requires forall u | 0 <= u < k && u < ALLPAGES :: CopyOf(mem, role, mem', Entry(mem, pd, u), Entry(mem', d, u))
    ensures Copied(mem, role, mem', pd, d, data, k)
  {}

  lemma KernelCopied(mem: Mem, role: Roles, mem': Mem, pd: nat, d: nat, data: nat)
    requires pd < |mem| && d < |mem'| == |mem| && KernelTo(mem', d, data, ALLPAGES)
    ensures Copied(mem, role, mem', pd, d, data, 0)
  {}

  lemma CopiedEntry(mem: Mem, role: Roles, mem': Mem, pd: nat, d: nat, data: nat, k: nat, u: nat)
    requires pd < |mem| && d < |mem'| == |mem| && Copied(mem, role, mem', pd, d, data, k) && u < k && u < ALLPAGES
    ensures CopyOf(mem, role, mem', Entry(mem, pd, u), Entry(mem', d, u))
  {
    assert Parts(0);
  }

  lemma CopiedRest(mem: Mem, role: Roles, mem': Mem, pd: nat, d: nat, data: nat, k: nat, u: nat)
    requires pd < |mem| && d < |mem'| == |mem| && Copied(mem, role, mem', pd, d, data, k) && k <= u < ALLPAGES
    ensures Entry(mem', d, u) == KernelEntry(data, u)
  {
    assert Parts(0);
  }

  /** A page that could not be mapped: frame f is in hand. */
  lemma CopyHeld(mem: Mem, role: Roles, mem1: Mem, role1: Roles, f: nat, mem2: Mem, mem3: Mem, role3: Roles, d: nat,
                 k: nat)
    requires Grew(mem, role, mem1, role1, d, 0, k, 0) && f in role1 && role1[f] == Free
    requires |mem2| == |mem1| && forall g | 0 <= g < |mem1| && g != f :: mem2[g] == mem1[g]
    requires Lent(mem2, role1[f := Other], mem3, role3, d, f) && role3[f] == Other
    ensures Grew(mem, role, mem3, role3, d, 0, k, f) && f in role && role[f] == Free
  {
    assert Parts(0);
  }

  lemma CopyStuck(mem: Mem, role: Roles, mem1: Mem, role1: Roles, f: nat, mem2: Mem, mem3: Mem, role3: Roles,
                  mem4: Mem, d: nat, k: nat)
    requires Grew(mem, role, mem1, role1, d, 0, k, 0) && f in role1 && role1[f] == Free && SpaceOk(mem3, role3, d)
    requires |mem2| == |mem1| && forall g | 0 <= g < |mem1| && g != f :: mem2[g] == mem1[g]
    requires Lent(mem2, role1[f := Other], mem3, role3, d, f) && role3[f] == Other
    requires |mem4| == |mem3| && forall g | 0 <= g < |mem3| && g != f :: mem4[g] == mem3[g]
    ensures Grew(mem, role, mem4, role3[f := Free], d, 0, k, 0) && SpaceOk(mem4, role3[f := Free], d)
  {
    CopyHeld(mem, role, mem1, role1, f, mem2, mem3, role3, d, k);
    FrameSpace(mem3, role3, mem4, role3[f := Free], d, f);
    HeldReturned(mem, role, mem3, role3, mem4, d, k, f);
  }

  /** kfree of the frame in hand. */
  lemma HeldReturned(mem: Mem, role: Roles, mem3: Mem, role3: Roles, mem4: Mem, d: nat, k: nat, f: nat)
    requires Grew(mem, role, mem3, role3, d, 0, k, f) && f in role && role[f] == Free
    requires |mem4| == |mem3| && forall g | 0 <= g < |mem3| && g != f :: mem4[g] == mem3[g]
    ensures Grew(mem, role, mem4, role3[f := Free], d, 0, k, 0)
  {
    assert Parts(0);
  }

  // ---------- pages on demand ----------

  /** How many of the pages below n are mapped. */
  function CountPages(mem: Mem, pd: nat, n: nat): (c: nat)
    requires pd < |mem| && n <= ALLPAGES
  {
    if n == 0 then 0 else CountPages(mem, pd, n - 1) + if Present(Entry(mem, pd, n - 1)) then 1 else 0
  }

  /** Mapping one page more counts one more. */
  lemma {:induction false} CountOneMore(mem: Mem, mem': Mem, pd: nat, v: nat, n: nat)
    requires pd < |mem| == |mem'| && n <= ALLPAGES && v < ALLPAGES
    requires !Present(Entry(mem, pd, v)) && Present(Entry(mem', pd, v))
    requires forall u | 0 <= u < ALLPAGES && u != v :: Entry(mem', pd, u) == Entry(mem, pd, u)
    ensures CountPages(mem', pd, n) == CountPages(mem, pd, n) + if v < n then 1 else 0
  {
    if n == 0 {
    } else {
      CountOneMore(mem, mem', pd, v, n - 1);
    }
  }

  lemma {:induction false} CountSame(mem: Mem, mem': Mem, pd: nat, n: nat)
    requires pd < |mem| == |mem'| && n <= ALLPAGES && SameMap(mem, mem', pd)
    ensures CountPages(mem', pd, n) == CountPages(mem, pd, n)
  {
    if n == 0 {
    } else {
      CountSame(mem, mem', pd, n - 1);
    }
  }

  lemma MappedFrame(mem: Mem, role: Roles, pd: nat, v: nat)
    requires SpaceOk(mem, role, pd) && v < USERPAGES
    ensures Present(Entry(mem, pd, v)) ==> FrameOf(Entry(mem, pd, v)) != 0
    ensures CountPages(mem, pd, v + 1) == CountPages(mem, pd, v) + if Present(Entry(mem, pd, v)) then 1 else 0
  {
    assert Parts(0);
  }

  /** A process's memory: its size and its page directory. */
  class Process {
    var sz: nat
    const pgdir: nat

    constructor (pgdir: nat)
      ensures this.pgdir == pgdir && sz == 0
    {
      this.pgdir, sz := pgdir, 0;
    }

    /** sys_mmap: whole pages are added to the size, and nothing is mapped. */
    method Mmap(n: int) returns (r: int)
      requires sz < 0x1_0000_0000 && n < 0x8000_0000
      modifies this
      ensures if n <= 0 || n % PGSIZE != 0 then r == 0 && sz == old(sz)
              else r == old(sz) && sz == (old(sz) + n) % 0x1_0000_0000
    {
      if n <= 0 || n % PGSIZE != 0 { return 0; }
      r := sz;
      sz := (r + n) % 0x1_0000_0000;
    }
  }

  /** kalloc on the list: the head leaves it. */
  lemma PopFree(mem: Mem, role: Roles, head: nat, free: seq<nat>)
    requires FreeOk(mem, role, head, free) && head != 0
    ensures head in role && role[head] == Free && head < |mem|
    ensures FreeOk(mem, role[head := Other], mem[head][0], free[1..])
  {
    assert Parts(0);
    var rest := free[1..];
    var role' := role[head := Other];
    assert LinkOk(mem, role, free, 0);
    assert head == free[0] && mem[head][0] == Head(rest);
    forall i | 0 <= i < |rest| ensures LinkOk(mem, role', rest, i) {
      assert LinkOk(mem, role, free, i + 1);
    }
    forall g | g in role' && role'[g] == Free ensures g in rest {
      assert g in free;
    }
  }

  /** kfree on the list: a frame that is not on it becomes its head. */
  lemma PushFree(mem: Mem, role: Roles, head: nat, free: seq<nat>, f: nat, mem': Mem)
    requires FreeOk(mem, role, head, free) && 0 < f < |mem| == |mem'| && (f in role ==> role[f] != Free)
    requires mem'[f][0] == head && forall g | 0 <= g < |mem| && g != f :: mem'[g] == mem[g]
    ensures FreeOk(mem', role[f := Free], f, [f] + free)
  {
    assert Parts(0);
    var all := [f] + free;
    var role' := role[f := Free];
    forall i | 0 <= i < |all|
      ensures LinkOk(mem', role', all, i) && (i > 0 ==> all[i] != f)
    {
      assert i > 0 ==> LinkOk(mem, role, free, i - 1);
    }
    forall g | g in role' && role'[g] == Free ensures g in all {
      assert g != f ==> g in free;
    }
  }

  class Vm {
    var mem: Mem
    var freelist: nat
    ghost var free: seq<nat>
    ghost var role: Roles

    ghost predicate Valid()
      reads this
    {
      FreeOk(mem, role, freelist, free)
    }

    constructor (mem: Mem)
      ensures Valid() && this.mem == mem && role == map[] && free == []
    {
      this.mem, freelist, free, role := mem, 0, [], map[];
    }

    /** kalloc: a frame that was free, or 0 if there is none. */
    method Kalloc() returns (f: nat)
      requires Valid()
      modifies this`freelist, this`free, this`role
      ensures Valid()
      ensures f == 0 <==> forall g | g in old(role) :: old(role)[g] != Free
      ensures f == 0 ==> role == old(role) && free == old(free) == []
      ensures f != 0 ==> old(free) != [] && free == old(free)[1..]
      ensures f != 0 ==> f in old(role) && old(role)[f] == Free && role == old(role)[f := Other]
    {
      assert Parts(0);
      f := freelist;
      assert free != [] ==> LinkOk(mem, role, free, 0);
      if f != 0 {
        PopFree(mem, role, freelist, free);
        freelist := mem[f][0];
        role := role[f := Other];
        free := free[1..];
      }
    }

    /** kfree: the frame is filled with junk and put at the head of the list. */
    method Kfree(f: nat)
      requires Valid() && 0 < f < |mem| && (f in role ==> role[f] != Free)
      modifies this
      ensures Valid() && role == old(role)[f := Free] && free == [f] + old(free)
      ensures |mem| == |old(mem)| && forall g | 0 <= g < |mem| && g != f :: mem[g] == old(mem)[g]
    {
      var junk: Page := seq(NPTE, _ => 0x0101_0101);
      mem := mem[f := junk];
      mem := mem[f := mem[f][0 := freelist]];
      PushFree(old(mem), role, freelist, free, f, mem);
      freelist := f;
      role := role[f := Free];
      free := [f] + free;
    }

    /** freerange: the whole pages of [vstart, vend) come into the allocator's care, all free. */
    method Freerange(vstart: nat, vend: nat)
      requires Valid() && 0 < vstart && vend <= |mem| * PGSIZE
      requires forall f | PagesUp(vstart) <= f < vend / PGSIZE :: f !in role
      modifies this
      ensures Valid()
      ensures forall f :: f in role <==> f in old(role) || PagesUp(vstart) <= f < vend / PGSIZE
      ensures forall f | f in role :: role[f] == if f in old(role) then old(role)[f] else Free
      ensures |free| == |old(free)| + if PagesUp(vstart) <= vend / PGSIZE then vend / PGSIZE - PagesUp(vstart) else 0
    {
      var p := PagesUp(vstart);
      while p * PGSIZE + PGSIZE <= vend
        invariant PagesUp(vstart) <= p && (p <= vend / PGSIZE || p == PagesUp(vstart))
        invariant Valid() && |mem| == |old(mem)|
        invariant forall f :: f in role <==> f in old(role) || PagesUp(vstart) <= f < p
        invariant forall f | f in role :: role[f] == if f in old(role) then old(role)[f] else Free
        invariant |free| == |old(free)| + p - PagesUp(vstart)
        decreases vend / PGSIZE - p
      {
        Kfree(p);
        p := p + 1;
      }
    }

    /** walkpgdir: the table that holds the entry of page v, or 0. No entry changes. */
    method Walk(pd: nat, v: nat, alloc: bool) returns (t: nat)
      requires Valid() && SpaceOk(mem, role, pd) && v < ALLPAGES
      modifies this
      ensures Valid() && SpaceOk(mem, role, pd) && |mem| == |old(mem)| && SameEntries(old(mem), mem, pd)
      ensures t != 0 <==> HasTable(mem, pd, v)
      ensures t != 0 ==> t == FrameOf(mem[pd][PDX(v)]) && t < |mem|
      ensures !alloc || old(HasTable(mem, pd, v)) ==> mem == old(mem) && role == old(role)
      ensures Grew(old(mem), old(role), mem, role, pd, 0, 0, 0)
      ensures alloc && t == 0 ==> free == []
      ensures |free| == |old(free)| - if t != 0 && !old(HasTable(mem, pd, v)) then 1 else 0
      ensures forall d | 0 <= d < NPTE && d != PDX(v) :: mem[pd][d] == old(mem)[pd][d]
    {
      var pde := mem[pd][PDX(v)];
      if Present(pde) {
        TableFrame(mem, role, pd, v);
        t := FrameOf(pde);
        return;
      }
      if !alloc { return 0; }
      t := Kalloc();
      if t != 0 {
        SetTable(pd, v, t, old(role));
      }
    }

    /** memset of the new table, and *pde = V2P(pgtab) | PTE_P | PTE_W | PTE_U. */
    method SetTable(pd: nat, v: nat, t: nat, ghost role0: Roles)
      requires Valid() && SpaceOk(mem, role0, pd) && v < ALLPAGES && !HasTable(mem, pd, v)
      requires t in role0 && role0[t] == Free && role == role0[t := Other]
      modifies this`mem, this`role
      ensures Valid() && SpaceOk(mem, role, pd) && |mem| == |old(mem)| && SameEntries(old(mem), mem, pd)
      ensures t != 0 && HasTable(mem, pd, v) && t == FrameOf(mem[pd][PDX(v)]) && t < |mem|
      ensures Grew(old(mem), role0, mem, role, pd, 0, 0, 0)
      ensures forall d | 0 <= d < NPTE && d != PDX(v) :: mem[pd][d] == old(mem)[pd][d]
    {
      ghost var role1 := role;
      mem := mem[t := ZeroPage()];
      FrameSpace(old(mem), role0, mem, role, pd, t);
      ghost var mem1 := mem;
      mem := mem[pd := mem[pd][PDX(v) := MakeEntry(t, PTE_P + PTE_W + PTE_U)]];
      role := role[t := Table(pd, PDX(v))];
      AddTable(mem1, role1, pd, v, t, mem, role);
      FreeFrame(old(mem), role1, freelist, free, mem, role);
    }

    /** The body of mappages' loop: page v is mapped to frame f. */
    method MapOne(pd: nat, v: nat, f: nat, perm: nat) returns (ok: bool)
      requires Valid() && SpaceOk(mem, role, pd) && v < ALLPAGES && !Present(Entry(mem, pd, v)) && perm < PGSIZE
      requires v < USERPAGES ==> f in role && role[f] == Other
      modifies this
      ensures Valid() && SpaceOk(mem, role, pd) && |mem| == |old(mem)|
      ensures Mapped(old(mem), mem, pd, v, if ok then v + 1 else v, f, perm)
      ensures Lent(old(mem), old(role), mem, role, pd, if v < USERPAGES then f else 0)
      ensures v < USERPAGES ==> role[f] == if ok then Data(pd, v) else Other
      ensures !ok ==> free == []
      ensures |free| == |old(free)| - if ok && !old(HasTable(mem, pd, v)) then 1 else 0
      ensures ok ==> HasTable(mem, pd, v)
      ensures old(HasTable(mem, pd, v)) ==> ok
      ensures Tabled(old(mem), mem, pd, v, ok)
    {
      var t := Walk(pd, v, true);
      GrewLent(old(mem), old(role), mem, role, pd, if v < USERPAGES then f else 0);
      if v < USERPAGES { GrewOther(old(mem), old(role), mem, role, pd, f); }
      if t == 0 {
        NoneMapped(old(mem), mem, pd, v, f, perm);
        return false;
      }
      ghost var mem1, role1 := mem, role;
      SetEntry(pd, v, t, f, perm);
      WalkedAndSet(old(mem), old(role), mem1, role1, mem, role, pd, v, t, f, perm);
      return true;
    }

    /** *pte = pa | perm | PTE_P, through table t. */
    method SetEntry(pd: nat, v: nat, t: nat, f: nat, perm: nat)
      requires Valid() && SpaceOk(mem, role, pd) && v < ALLPAGES && !Present(Entry(mem, pd, v)) && perm < PGSIZE
      requires HasTable(mem, pd, v) && t == FrameOf(mem[pd][PDX(v)])
      requires v < USERPAGES ==> f in role && role[f] == Other
      modifies this`mem, this`role
      ensures Valid() && SpaceOk(mem, role, pd) && |mem| == |old(mem)| && mem[pd] == old(mem)[pd]
      ensures Mapped(old(mem), mem, pd, v, v + 1, f, perm)
      ensures t in old(role) && IsTable(old(role)[t], pd)
      ensures forall g | 0 <= g < |mem| && g != t :: mem[g] == old(mem)[g]
      ensures role == if v < USERPAGES then old(role)[f := Data(pd, v)] else old(role)
    {
      assert Parts(0);
      ghost var mem1, role1 := mem, role;
      assert role1[t] == Table(pd, PDX(v));
      mem := mem[t := mem[t][PTX(v) := MakeEntry(f, perm)]];
      if v < USERPAGES {
        role := role[f := Data(pd, v)];
        MapPage(mem1, role1, pd, v, f, perm, mem, role);
      } else {
        MapKernel(mem1, role1, pd, v, f, perm, mem);
      }
      FreeFrame(mem1, role1, freelist, free, mem, role);
    }

    /** mappages: the pages that meet [va, va + size) are mapped to consecutive frames, exactly if there are frames
        for the tables that are missing. */
    method Mappages(pd: nat, va: nat, size: nat, pa: nat, perm: nat) returns (ok: bool)
      requires Valid() && SpaceOk(mem, role, pd) && size > 0 && va + size <= ALLPAGES * PGSIZE && perm < PGSIZE
      requires forall u | va / PGSIZE <= u <= (va + size - 1) / PGSIZE :: !Present(Entry(mem, pd, u))
      requires va / PGSIZE >= USERPAGES || ((va + size - 1) / PGSIZE == va / PGSIZE && pa in role && role[pa] == Other)
      modifies this
      ensures Valid() && SpaceOk(mem, role, pd) && |mem| == |old(mem)|
      ensures ok ==> Mapped(old(mem), mem, pd, va / PGSIZE, (va + size - 1) / PGSIZE + 1, pa, perm)
      ensures ok ==> Spread(old(mem), mem, pd, va / PGSIZE, (va + size - 1) / PGSIZE + 1)
      ensures ok <==> |old(free)| >= Tables(old(mem), pd, va / PGSIZE, (va + size - 1) / PGSIZE + 1)
      ensures ok ==> |free| == |old(free)| - Tables(old(mem), pd, va / PGSIZE, (va + size - 1) / PGSIZE + 1)
      ensures !ok ==> free == []
      ensures Lent(old(mem), old(role), mem, role, pd, if va / PGSIZE < USERPAGES then pa else 0)
      ensures va / PGSIZE < USERPAGES ==>
                && role[pa] == (if ok then Data(pd, va / PGSIZE) else Other)
                && Tabled(old(mem), mem, pd, va / PGSIZE, ok)
                && (!ok ==> SameEntries(old(mem), mem, pd))
    {
      var lo := va / PGSIZE;
      var last := (va + size - 1) / PGSIZE;
      ghost var mem0, role0, free0 := mem, role, free;
      SpreadNeeds(mem, mem, pd, lo, lo);
      assert Tables(mem, pd, lo, lo) == 0;
      ok := MapOne(pd, lo, pa, perm);
      if ok {
        SpreadMore(mem0, mem0, mem, pd, lo, lo);
        if lo != last {
          ok := MapRest(pd, lo, last, pa, perm, mem0, role0, |free0|);
        }
      } else {
        TablesGrow(mem0, pd, lo, lo + 1, last + 1);
        MappedNone(mem0, mem, pd, lo, pa, perm);
      }
    }

    /** The loop of mappages after its first round, which only the kernel's ranges reach. */
    method MapRest(pd: nat, lo: nat, last: nat, pa: nat, perm: nat, ghost mem0: Mem, ghost role0: Roles, ghost n: nat)
      returns (ok: bool)
      requires USERPAGES <= lo < last < ALLPAGES && perm < PGSIZE && pd < |mem0| == |mem|
      requires Valid() && SpaceOk(mem, role, pd) && forall u | lo < u <= last :: !Present(Entry(mem0, pd, u))
      requires Mapped(mem0, mem, pd, lo, lo + 1, pa, perm) && Lent(mem0, role0, mem, role, pd, 0)
      requires Spread(mem0, mem, pd, lo, lo + 1) && |free| + Tables(mem0, pd, lo, lo + 1) == n
      modifies this
      ensures Valid() && SpaceOk(mem, role, pd) && |mem| == |mem0| && Lent(mem0, role0, mem, role, pd, 0)
      ensures ok ==> Mapped(mem0, mem, pd, lo, last + 1, pa, perm) && Spread(mem0, mem, pd, lo, last + 1)
      ensures ok <==> n >= Tables(mem0, pd, lo, last + 1)
      ensures ok ==> |free| + Tables(mem0, pd, lo, last + 1) == n
      ensures !ok ==> free == []
    {
      var a := lo + 1;
      while a <= last
        invariant lo < a <= last + 1 && Valid() && SpaceOk(mem, role, pd) && |mem| == |mem0|
        invariant Mapped(mem0, mem, pd, lo, a, pa, perm) && Lent(mem0, role0, mem, role, pd, 0)
        invariant Spread(mem0, mem, pd, lo, a) && |free| + Tables(mem0, pd, lo, a) == n
      {
        ghost var mem1, role1 := mem, role;
        SpreadNeeds(mem0, mem1, pd, lo, a);
        TablesGrow(mem0, pd, lo, a + 1, last + 1);
        MappedElse(mem0, mem1, pd, lo, a, pa, perm, a);
        ok := MapOne(pd, a, pa + (a - lo), perm);
        LentMore(mem0, role0, mem1, role1, mem, role, pd);
        if !ok { return; }
        MappedMore(mem0, mem1, mem, pd, lo, a, pa, perm);
        SpreadMore(mem0, mem1, mem, pd, lo, a);
        a := a + 1;
      }
      ok := true;
    }

    /** mappages of a single user page, as its callers in vm.c use it. */
    method MapPageAt(pd: nat, v: nat, f: nat, perm: nat) returns (ok: bool)
      requires Valid() && SpaceOk(mem, role, pd) && v < USERPAGES && !Present(Entry(mem, pd, v)) && perm < PGSIZE
      requires f in role && role[f] == Other
      modifies this
      ensures Valid() && SpaceOk(mem, role, pd) && |mem| == |old(mem)|
      ensures if ok then Mapped(old(mem), mem, pd, v, v + 1, f, perm) else SameEntries(old(mem), mem, pd)
      ensures Lent(old(mem), old(role), mem, role, pd, f) && role[f] == if ok then Data(pd, v) else Other
      ensures Tabled(old(mem), mem, pd, v, ok) && (old(HasTable(mem, pd, v)) ==> ok)
      ensures |free| == |old(free)| - if ok && !old(HasTable(mem, pd, v)) then 1 else 0
      ensures !ok ==> free == []
    {
      var va := v * PGSIZE;
      assert va / PGSIZE == v && (va + PGSIZE - 1) / PGSIZE == v;
      NeedOne(mem, pd, v);
      ok := Mappages(pd, va, PGSIZE, f, perm);
    }

    /** One round of deallocuvm's loop: page a is unmapped, or its absent table is passed over. */
    method DropOne(pd: nat, a: nat) returns (next: nat)
      requires Valid() && SpaceOk(mem, role, pd) && a < USERPAGES
      modifies this
      ensures Valid() && SpaceOk(mem, role, pd) && a < next <= USERPAGES
      ensures Shrunk(old(mem), old(role), mem, role, pd, a, a + 1)
      ensures forall u | a < u < next :: !Present(Entry(mem, pd, u))
    {
      ShrunkNone(mem, role, pd, a);
      var t := Walk(pd, a, false);
      if t == 0 {
        NoTable(mem, pd, a);
        ShrunkOver(mem, role, mem, role, pd, a, a, a + 1);
        return (PDX(a) + 1) * NPTE;
      }
      var pte := mem[t][PTX(a)];
      assert pte == Entry(mem, pd, a);
      TableFrame(mem, role, pd, a);
      if Present(pte) {
        PageFrame(mem, role, pd, a);
        Kfree(FrameOf(pte));
        ghost var mem1 := mem;
        mem := mem[t := mem[t][PTX(a) := 0]];
        DropPage(old(mem), old(role), pd, a, mem1, mem);
        FreeFrame(mem1, role, freelist, free, mem, role);
      } else {
        ShrunkOver(mem, role, mem, role, pd, a, a, a + 1);
      }
      return a + 1;
    }

    /** deallocuvm: exactly the pages of [PGROUNDUP(newsz), oldsz) are unmapped and exactly their frames come free, as
        if every page had been looked at. */
    method Deallocuvm(pd: nat, oldsz: nat, newsz: nat) returns (r: nat)
      requires Valid() && SpaceOk(mem, role, pd) && oldsz <= KERNBASE
      modifies this
      ensures Valid() && SpaceOk(mem, role, pd) && r == if newsz >= oldsz then oldsz else newsz
      ensures newsz >= oldsz ==> mem == old(mem) && role == old(role)
      ensures newsz < oldsz ==> Shrunk(old(mem), old(role), mem, role, pd, PagesUp(newsz), PagesUp(oldsz))
    {
      if newsz >= oldsz { return oldsz; }
      var lo := PagesUp(newsz);
      var a := lo;
      ghost var done := lo;
      ShrunkNone(mem, role, pd, lo);
      while a * PGSIZE < oldsz
        invariant lo <= done <= a <= USERPAGES && done <= PagesUp(oldsz) && (a <= PagesUp(oldsz) ==> a == done)
        invariant a > PagesUp(oldsz) ==> done == PagesUp(oldsz)
        invariant Valid() && SpaceOk(mem, role, pd) && Shrunk(old(mem), old(role), mem, role, pd, lo, done)
        decreases USERPAGES - a
      {
        ghost var mem1, role1 := mem, role;
        var next := DropOne(pd, a);
        ShrunkMore(old(mem), old(role), mem1, role1, mem, role, pd, lo, a);
        done := if next <= PagesUp(oldsz) then next else PagesUp(oldsz);
        ShrunkOver(old(mem), old(role), mem, role, pd, lo, a + 1, done);
        a := next;
      }
      return newsz;
    }

    /** kalloc, and memset or memmove. */
    method TakeFilled(pd: nat, contents: Page) returns (f: nat)
      requires Valid() && SpaceOk(mem, role, pd)
      modifies this
      ensures Valid() && SpaceOk(mem, role, pd)
      ensures f == 0 ==> mem == old(mem) && role == old(role) && free == old(free) == []
      ensures f != 0 ==> |free| == |old(free)| - 1 && f in old(role) && old(role)[f] == Free && f < |old(mem)|
      ensures f != 0 ==> mem == old(mem)[f := contents] && role == old(role)[f := Other]
      ensures f != 0 ==> SameEntries(old(mem), mem, pd)
    {
      f := Kalloc();
      if f != 0 {
        mem := mem[f := contents];
        FrameSpace(old(mem), old(role), mem, role, pd, f);
        FreeFrame(old(mem), role, freelist, free, mem, role);
      }
    }

    /** One round of allocuvm's loop. f is the frame it took: 0 if there was none, in hand if there was none for a
        table. */
    method AllocOne(pd: nat, a: nat, ghost mem0: Mem, ghost role0: Roles, ghost lo: nat, ghost hi: nat, ghost n: nat)
      returns (f: nat, ok: bool)
      requires Valid() && SpaceOk(mem, role, pd) && lo <= a < hi <= USERPAGES && pd < |mem0| == |mem|
      requires !Present(Entry(mem0, pd, a)) && Paid(mem0, pd, lo, a, |free|, n)
      requires Grew(mem0, role0, mem, role, pd, lo, a, 0) && Zeroed(mem0, role0, mem, pd, lo, a)
      requires TablesTo(mem0, mem, pd, lo, a)
      modifies this
      ensures Valid() && SpaceOk(mem, role, pd) && |mem| == |old(mem)|
      ensures ok ==> Grew(mem0, role0, mem, role, pd, lo, a + 1, 0) && Zeroed(mem0, role0, mem, pd, lo, a + 1)
      ensures ok ==> TablesTo(mem0, mem, pd, lo, a + 1) && Paid(mem0, pd, lo, a + 1, |free|, n)
      ensures !ok ==> n < Need(mem0, pd, lo, hi) && Midway(mem0, role0, mem, role, pd, lo, a, f)
      ensures !ok && f != 0 ==> f in role && role[f] == Other && f in role0 && role0[f] == Free
    {
      ghost var mem1, left := mem, |free|;
      ZeroedElse(mem0, role0, mem, pd, lo, a, a);
      f := TakeFilled(pd, ZeroPage());
      if f == 0 {
        MidwayNow(mem0, role0, mem, role, pd, lo, a);
        PaidShort(mem0, mem1, pd, lo, a, hi, left, n);
        return f, false;
      }
      ok := MapPageAt(pd, a, f, UPERM);
      if ok {
        AllocStep(mem0, role0, old(mem), old(role), f, mem, role, pd, lo, a);
        TablesMore(mem0, old(mem), mem, pd, lo, a);
        PaidMore(mem0, mem1, pd, lo, a, left, |free|, n);
      } else {
        AllocStuck(mem0, role0, old(mem), old(role), f, mem, role, pd, lo, a);
        PaidShort(mem0, mem1, pd, lo, a, hi, left, n);
      }
    }

    /** The way back: what was mapped of the range is unmapped, and the frame in hand is returned. */
    method Undo(pd: nat, newsz: nat, oldsz: nat, f: nat, ghost mem0: Mem, ghost role0: Roles, ghost k: nat)
      requires Valid() && SpaceOk(mem, role, pd) && SpaceOk(mem0, role0, pd) && oldsz < newsz <= KERNBASE
      requires PagesUp(oldsz) <= k <= PagesUp(newsz) && Midway(mem0, role0, mem, role, pd, PagesUp(oldsz), k, f)
      requires forall u | PagesUp(oldsz) <= u < PagesUp(newsz) :: !Present(Entry(mem0, pd, u))
      requires f != 0 ==> f in role && role[f] == Other && f in role0 && role0[f] == Free
      modifies this
      ensures Valid() && SpaceOk(mem, role, pd) && |mem| == |mem0|
      ensures SameMap(mem0, mem, pd) && Grew(mem0, role0, mem, role, pd, PagesUp(oldsz), PagesUp(oldsz), 0)
    {
      ghost var lo, hi := PagesUp(oldsz), PagesUp(newsz);
      var _ := Deallocuvm(pd, newsz, oldsz);
      RolledMap(mem0, role0, old(mem), old(role), mem, role, pd, lo, k, hi, f);
      RolledRoles(mem0, role0, old(mem), old(role), mem, role, pd, lo, k, hi, f);
      if f != 0 {
        ghost var mem1, role1 := mem, role;
        ShrunkOther(old(mem), old(role), mem, role, pd, lo, hi, f);
        Kfree(f);
        Returned(mem0, role0, mem1, role1, mem, pd, lo, f);
      }
    }

    /** allocuvm's loop from page lo on: it stops at newsz, or at page a when frames run short. */
    method AllocLoop(pd: nat, lo: nat, newsz: nat, ghost hi: nat) returns (a: nat, f: nat, ok: bool)
      requires Valid() && SpaceOk(mem, role, pd) && lo <= hi == PagesUp(newsz) && newsz < KERNBASE
      requires forall u | lo <= u < hi :: !Present(Entry(mem, pd, u))
      modifies this
      ensures Valid() && SpaceOk(mem, role, pd) && |mem| == |old(mem)| && lo <= a <= hi
      ensures ok <==> |old(free)| >= Need(old(mem), pd, lo, hi)
      ensures ok ==> a == hi && Grew(old(mem), old(role), mem, role, pd, lo, a, 0)
      ensures ok ==> Zeroed(old(mem), old(role), mem, pd, lo, a)
      ensures !ok ==> a < hi && Midway(old(mem), old(role), mem, role, pd, lo, a, f)
      ensures !ok && f != 0 ==> f in role && role[f] == Other && f in old(role) && old(role)[f] == Free
    {
      ghost var mem0, role0, n := mem, role, |free|;
      PaidStart(mem0, pd, lo, n);
      var v := lo;
      ghost var left := n;
      while v * PGSIZE < newsz
        invariant lo <= v <= hi <= USERPAGES && Valid() && SpaceOk(mem, role, pd) && |mem| == |mem0|
        invariant Grew(mem0, role0, mem, role, pd, lo, v, 0) && Zeroed(mem0, role0, mem, pd, lo, v)
        invariant TablesTo(mem0, mem, pd, lo, v) && left == |free| && Paid(mem0, pd, lo, v, left, n)
        decreases hi - v
      {
        var g, more := AllocOne(pd, v, mem0, role0, lo, hi, n);
        if !more { return v, g, false; }
        var next := v + 1;
        Advance(mem0, role0, mem, role, pd, lo, v, next, |free|, n);
        v, left := next, |free|;
      }
      PaidAll(mem0, pd, lo, v, hi, left, n);
      return v, 0, true;
    }

    /** The loop, and its way out. */
    method AllocRange(pd: nat, oldsz: nat, newsz: nat) returns (ok: bool)
      requires Valid() && SpaceOk(mem, role, pd) && oldsz <= newsz < KERNBASE
      requires forall u | PagesUp(oldsz) <= u < PagesUp(newsz) :: !Present(Entry(mem, pd, u))
      modifies this
      ensures Valid() && SpaceOk(mem, role, pd) && |mem| == |old(mem)|
      ensures ok <==> |old(free)| >= Need(old(mem), pd, PagesUp(oldsz), PagesUp(newsz))
      ensures ok ==> Zeroed(old(mem), old(role), mem, pd, PagesUp(oldsz), PagesUp(newsz))
      ensures ok ==> Grew(old(mem), old(role), mem, role, pd, PagesUp(oldsz), PagesUp(newsz), 0)
      ensures !ok ==> SameMap(old(mem), mem, pd)
      ensures !ok ==> Grew(old(mem), old(role), mem, role, pd, PagesUp(oldsz), PagesUp(oldsz), 0)
    {
      ghost var mem0, role0 := mem, role;
      var a, f;
      a, f, ok := AllocLoop(pd, PagesUp(oldsz), newsz, PagesUp(newsz));
      if !ok {
        Undo(pd, newsz, oldsz, f, mem0, role0, a);
      }
    }

    /** allocuvm: exactly the pages of [PGROUNDUP(oldsz), newsz) are added, each on a zeroed frame of its own and for
        user code to read and write, if and only if there are frames enough for them and their tables. Otherwise the
        map is as before, and so is the use of all frames, save free ones that have become tables. */
    method Allocuvm(pd: nat, oldsz: nat, newsz: nat) returns (r: nat)
      requires Valid() && SpaceOk(mem, role, pd)
      requires forall u | PagesUp(oldsz) <= u < PagesUp(newsz) && u < USERPAGES :: !Present(Entry(mem, pd, u))
      modifies this
      ensures Valid() && SpaceOk(mem, role, pd) && |mem| == |old(mem)|
      ensures newsz >= KERNBASE ==> r == 0 && mem == old(mem) && role == old(role)
      ensures newsz < oldsz && newsz < KERNBASE ==> r == oldsz && mem == old(mem) && role == old(role)
      ensures oldsz <= newsz < KERNBASE && |old(free)| >= Need(old(mem), pd, PagesUp(oldsz), PagesUp(newsz)) ==>
                && r == newsz && Zeroed(old(mem), old(role), mem, pd, PagesUp(oldsz), PagesUp(newsz))
                && Opened(old(mem), mem, pd, PagesUp(oldsz), PagesUp(newsz))
                && Grew(old(mem), old(role), mem, role, pd, PagesUp(oldsz), PagesUp(newsz), 0)
      ensures oldsz <= newsz < KERNBASE && |old(free)| < Need(old(mem), pd, PagesUp(oldsz), PagesUp(newsz)) ==>
                && r == 0 && SameMap(old(mem), mem, pd)
                && Grew(old(mem), old(role), mem, role, pd, PagesUp(oldsz), PagesUp(oldsz), 0)
    {
      if newsz >= KERNBASE { return 0; }
      if newsz < oldsz { return oldsz; }
      var ok := AllocRange(pd, oldsz, newsz);
      if ok { GrowthOpened(old(mem), old(role), mem, role, pd, PagesUp(oldsz), PagesUp(newsz)); }
      return if ok then newsz else 0;
    }

    /** freevm: the address space's pages, tables and directory come free, each once, and nothing else changes. */
    method Freevm(pd: nat)
      requires Valid() && SpaceOk(mem, role, pd)
      modifies this
      ensures Valid() && Released(old(mem), old(role), mem, role, pd)
    {
      ghost var mem0, role0 := mem, role;
      var _ := Deallocuvm(pd, KERNBASE, 0);
      ReleaseStart(mem0, role0, mem, role, pd);
      var i := 0;
      while i < NPTE
        invariant 0 <= i <= NPTE && Valid() && Releasing(mem0, role0, mem, role, pd, i)
      {
        ghost var mem1, role1 := mem, role;
        if Present(mem[pd][i]) {
          TableHeld(mem0, role0, mem, role, pd, i);
          Kfree(FrameOf(mem[pd][i]));
          ReleaseTable(mem0, role0, mem1, role1, mem, pd, i);
        } else {
          ReleaseNone(mem0, role0, mem, role, pd, i);
        }
        i := i + 1;
      }
      Kfree(pd);
    }

    /** setupkvm: a new address space with the kernel's half alone, out of reach of user code; or nothing at all. */
    method Setupkvm(data: nat) returns (d: nat)
      requires Valid() && World(mem, role) && EXTMEM < data < PHYSTOP
      modifies this
      ensures Valid() && |mem| == |old(mem)|
      ensures d == 0 ==> role == old(role) && forall f | f in role && role[f] != Free :: mem[f] == old(mem)[f]
      ensures d != 0 ==> SpaceOk(mem, role, d) && KernelTo(mem, d, data, ALLPAGES) && KernelDir(mem, d, ALLPAGES)
      ensures d != 0 ==> KernelOnly(mem, d, data)
      ensures d != 0 ==> d in old(role) && old(role)[d] == Free && Grew(old(mem), old(role), mem, role, d, 0, 0, 0)
      ensures d != 0 <==> |old(free)| >= KERNELFRAMES
      ensures d != 0 ==> |free| == |old(free)| - KERNELFRAMES
    {
      ghost var n := |free|;
      d := Kalloc();
      if d == 0 { return; }
      ghost var role1 := role;
      mem := mem[d := ZeroPage()];
      role := role[d := Dir];
      FreeFrame(old(mem), role1, freelist, free, mem, role);
      NewDirectory(old(mem), old(role), d, data);
      assert role == old(role)[d := Dir];
      var k := 0;
      while k < 4
        invariant 0 <= k <= 4 && Valid() && |mem| == |old(mem)| && SpaceOk(mem, role, d)
        invariant KernelTo(mem, d, data, Bound(data, k)) && KernelDir(mem, d, Bound(data, k))
        invariant Grew(old(mem), old(role), mem, role, d, 0, 0, 0) && |free| + 1 + KernelTables(Bound(data, k)) == n
      {
        ghost var mem1, role1 := mem, role;
        var ok := MapRange(d, data, k);
        LentGrew(old(mem), old(role), mem1, role1, mem, role, d, 0);
        if !ok {
          ghost var mem2, role2 := mem, role;
          Freevm(d);
          BuiltAndReleased(old(mem), old(role), mem2, role2, mem, role, d, 0);
          return 0;
        }
        k := k + 1;
      }
      KernelHalf(mem, role, d, data);
    }

    /** mappages for one entry of kmap. */
    method MapRange(pd: nat, data: nat, k: nat) returns (ok: bool)
      requires Valid() && SpaceOk(mem, role, pd) && EXTMEM < data < PHYSTOP && k < 4
      requires KernelTo(mem, pd, data, Bound(data, k)) && KernelDir(mem, pd, Bound(data, k))
      modifies this
      ensures Valid() && SpaceOk(mem, role, pd) && |mem| == |old(mem)|
      ensures ok ==> KernelTo(mem, pd, data, Bound(data, k + 1)) && KernelDir(mem, pd, Bound(data, k + 1))
      ensures ok ==> |free| + KernelTables(Bound(data, k + 1)) == |old(free)| + KernelTables(Bound(data, k))
      ensures !ok ==> |old(free)| + KernelTables(Bound(data, k)) < KERNELFRAMES - 1
      ensures Lent(old(mem), old(role), mem, role, pd, 0)
    {
      var r := Kmap(data)[k];
      var va, size := r.virt * PGSIZE, (r.end - r.start) * PGSIZE;
      assert va / PGSIZE == r.virt && (va + size - 1) / PGSIZE + 1 == r.virt + (r.end - r.start);
      RangePart(data, k);
      KernelNeeds(mem, pd, r.virt, r.virt + (r.end - r.start));
      ok := Mappages(pd, va, size, r.start, r.perm);
      if ok {
        KernelMore(old(mem), mem, pd, data, k, Bound(data, k + 1));
        KernelDirMore(old(mem), mem, pd, r.virt, r.virt + (r.end - r.start));
        if k == 2 { KernelDirGap(mem, pd); }
      }
    }

    /** walkpgdir without alloc, and the entry it finds. */
    method Lookup(pd: nat, v: nat) returns (pte: nat)
      requires Valid() && SpaceOk(mem, role, pd) && v < ALLPAGES && Present(Entry(mem, pd, v))
      modifies this
      ensures Valid() && mem == old(mem) && role == old(role) && |free| == |old(free)| && pte == Entry(mem, pd, v)
    {
      var t := Walk(pd, v, false);
      pte := mem[t][PTX(v)];
    }

    /** One round of copyuvm's loop: page i of pd is copied to d. */
    method CopyOne(pd: nat, d: nat, i: nat, data: nat, ghost mem0: Mem, ghost role0: Roles, ghost memd: Mem,
                   ghost hi: nat, ghost n: nat)
      returns (ok: bool)
      requires d < |memd| == |mem| && i < hi <= USERPAGES && TablesTo(memd, mem, d, 0, i)
      requires Paid(memd, d, 0, i, |free|, n)
      requires Valid() && World(mem0, role0) && pd in role0 && role0[pd] == Dir && |mem| == |mem0| && i < USERPAGES
      requires d in role0 && role0[d] == Free && SpaceOk(mem, role, d) && Present(Entry(mem0, pd, i))
      requires Grew(mem0, role0, mem, role, d, 0, i, 0) && Copied(mem0, role0, mem, pd, d, data, i)
      modifies this
      ensures Valid() && SpaceOk(mem, role, d) && |mem| == |mem0|
      ensures Grew(mem0, role0, mem, role, d, 0, if ok then i + 1 else i, 0)
      ensures ok ==> Copied(mem0, role0, mem, pd, d, data, i + 1) && TablesTo(memd, mem, d, 0, i + 1)
      ensures ok ==> Paid(memd, d, 0, i + 1, |free|, n)
      ensures !ok ==> n < Need(memd, d, 0, hi)
    {
      ghost var left := |free|;
      CopiedElse(mem0, role0, mem, pd, d, data, i);
      ParentKept(mem0, role0, mem, role, d, pd, i);
      var pte := Lookup(pd, i);
      ghost var mem1, role1 := mem, role;
      var f := TakeFilled(d, mem[FrameOf(pte)]);
      if f == 0 {
        PaidShort(memd, mem1, d, 0, i, hi, left, n);
        return false;
      }
      ghost var mem2 := mem;
      ok := MapPageAt(d, i, f, FlagsOf(pte));
      if ok {
        CopyStep(mem0, role0, mem1, role1, f, mem, role, pd, d, data, i, pte, mem0[FrameOf(pte)], FlagsOf(pte));
        TablesMore(memd, mem1, mem, d, 0, i);
        PaidMore(memd, mem1, d, 0, i, left, |free|, n);
      } else {
        PaidShort(memd, mem1, d, 0, i, hi, left, n);
        ghost var mem3, role3 := mem, role;
        Kfree(f);
        CopyStuck(mem0, role0, mem1, role1, f, mem2, mem3, role3, mem, d, i);
      }
    }

    /** copyuvm: a new address space with equal bytes and flags on fresh frames, which gives user code the rights it has
        in the parent, the parent untouched; or, if frames run short, every frame in the use it was in. */
    method Copyuvm(pd: nat, sz: nat, data: nat) returns (d: nat)
      requires Valid() && World(mem, role) && pd in role && role[pd] == Dir && EXTMEM < data < PHYSTOP && sz <= KERNBASE
      requires forall u | 0 <= u < PagesUp(sz) :: Present(Entry(mem, pd, u))
      modifies this
      ensures Valid() && World(mem, role) && |mem| == |old(mem)|
      ensures d == 0 ==> role == old(role) && forall f | f in role && role[f] != Free :: mem[f] == old(mem)[f]
      ensures d != 0 ==> d in old(role) && old(role)[d] == Free && SpaceOk(mem, role, d)
      ensures d != 0 ==> Copied(old(mem), old(role), mem, pd, d, data, PagesUp(sz))
      ensures d != 0 ==> SameRights(old(mem), mem, pd, d, PagesUp(sz))
      ensures d != 0 ==> Grew(old(mem), old(role), mem, role, d, 0, PagesUp(sz), 0)
      ensures d != 0 <==> |old(free)| >= KERNELFRAMES + PagesUp(sz) + (PagesUp(sz) + NPTE - 1) / NPTE
    {
      ghost var mem0, role0 := mem, role;
      d := Setupkvm(data);
      if d == 0 {
        SameWorld(mem0, role0, mem);
        return;
      }
      UserNeeds(mem, d, PagesUp(sz));
      KernelCopied(mem0, role0, mem, pd, d, data);
      var ok, i := CopyPages(pd, d, sz, data, mem0, role0);
      if ok {
        SpaceOf(mem0, role0, pd);
        CopyRights(mem0, role0, mem, role, pd, d, data, PagesUp(sz));
        GrewWorld(mem0, role0, mem, role, d, 0, PagesUp(sz));
      } else {
        ghost var mem1, role1 := mem, role;
        Freevm(d);
        BuiltAndReleased(mem0, role0, mem1, role1, mem, role, d, i);
        SameWorld(mem0, role0, mem);
        d := 0;
      }
    }

    /** copyuvm's loop: it goes through exactly if the free frames suffice. */
    method CopyPages(pd: nat, d: nat, sz: nat, data: nat, ghost mem0: Mem, ghost role0: Roles)
      returns (ok: bool, ghost k: nat)
      requires Valid() && World(mem0, role0) && pd in role0 && role0[pd] == Dir && |mem| == |mem0| && sz <= KERNBASE
      requires d in role0 && role0[d] == Free && SpaceOk(mem, role, d)
      requires forall u | 0 <= u < PagesUp(sz) :: Present(Entry(mem0, pd, u))
      requires Grew(mem0, role0, mem, role, d, 0, 0, 0) && Copied(mem0, role0, mem, pd, d, data, 0)
      modifies this
      ensures Valid() && SpaceOk(mem, role, d) && |mem| == |mem0| && Grew(mem0, role0, mem, role, d, 0, k, 0)
      ensures ok ==> k == PagesUp(sz) && Copied(mem0, role0, mem, pd, d, data, k)
      ensures ok <==> |old(free)| >= Need(old(mem), d, 0, PagesUp(sz))
    {
      ghost var memd, n, hi := mem, |free|, PagesUp(sz);
      PaidStart(memd, d, 0, n);
      var i: nat := 0;
      ghost var left := n;
      while i * PGSIZE < sz
        invariant 0 <= i <= hi <= USERPAGES && Valid() && SpaceOk(mem, role, d) && |mem| == |mem0|
        invariant Grew(mem0, role0, mem, role, d, 0, i, 0) && Copied(mem0, role0, mem, pd, d, data, i)
        invariant TablesTo(memd, mem, d, 0, i) && left == |free| && Paid(memd, d, 0, i, left, n)
        decreases hi - i
      {
        var more := CopyOne(pd, d, i, data, mem0, role0, memd, hi, n);
        if !more { return false, i; }
        var next := i + 1;
        AdvanceCopy(mem0, role0, memd, mem, role, pd, d, data, i, next, |free|, n);
        i, left := next, |free|;
      }
      PaidAll(memd, d, 0, i, hi, left, n);
      return true, i;
    }

    /** The test that count_physical_pages makes for page a. */
    method Counts(pd: nat, a: nat) returns (yes: bool)
      requires Valid() && SpaceOk(mem, role, pd) && a < USERPAGES
      modifies this
      ensures mem == old(mem) && role == old(role) && Valid() && yes == Present(Entry(mem, pd, a))
    {
      var t := Walk(pd, a, false);
      MappedFrame(mem, role, pd, a);
      yes := t != 0 && Present(mem[t][PTX(a)]) && FrameOf(mem[t][PTX(a)]) != 0;
    }

    /** count_physical_pages */
    method CountPhysicalPages(pd: nat, sz: nat) returns (count: nat)
      requires Valid() && SpaceOk(mem, role, pd) && sz <= KERNBASE
      modifies this
      ensures mem == old(mem) && role == old(role) && Valid() && count == CountPages(mem, pd, PagesUp(sz))
    {
      count := 0;
      var a := 0;
      ghost var hi, mem0, role0 := PagesUp(sz), mem, role;
      while a * PGSIZE < sz
        invariant 0 <= a <= hi <= USERPAGES && mem == mem0 && role == role0 && Valid()
        invariant count == CountPages(mem0, pd, a)
        decreases hi - a
      {
        var yes := Counts(pd, a);
        MappedFrame(mem0, role0, pd, a);
        if yes { count := count + 1; }
        a := a + 1;
      }
    }

    /** The page-fault branch of trap: a fault below sz on an absent page maps exactly that page, to a zeroed frame, if
        there is a frame for it and, where needed, one for its table. */
    method PageFault(p: Process, va: nat)
      requires Valid() && World(mem, role) && p.pgdir in role && role[p.pgdir] == Dir && va / PGSIZE < USERPAGES
      requires p.sz <= KERNBASE - PGSIZE && !Present(Entry(mem, p.pgdir, va / PGSIZE))
      modifies this
      ensures Valid() && World(mem, role) && |mem| == |old(mem)|
      ensures va >= p.sz ==> mem == old(mem) && role == old(role)
      ensures va < p.sz && |old(free)| >= (if old(HasTable(mem, p.pgdir, va / PGSIZE)) then 1 else 2) ==>
                && Zeroed(old(mem), old(role), mem, p.pgdir, va / PGSIZE, va / PGSIZE + 1)
                && Opened(old(mem), mem, p.pgdir, va / PGSIZE, va / PGSIZE + 1)
                && Grew(old(mem), old(role), mem, role, p.pgdir, va / PGSIZE, va / PGSIZE + 1, 0)
                && CountPages(mem, p.pgdir, PagesUp(p.sz)) == CountPages(old(mem), p.pgdir, PagesUp(p.sz)) + 1
      ensures va < p.sz && |old(free)| < (if old(HasTable(mem, p.pgdir, va / PGSIZE)) then 1 else 2) ==>
                && SameMap(old(mem), mem, p.pgdir)
                && CountPages(mem, p.pgdir, PagesUp(p.sz)) == CountPages(old(mem), p.pgdir, PagesUp(p.sz))
    {
      if va >= p.sz { return; }
      var vadown := va / PGSIZE * PGSIZE;
      var vaup := PagesUp(va) * PGSIZE;
      if vadown == vaup { vaup := vaup + PGSIZE; }
      MapOnDemand(p.pgdir, vadown, vaup, va / PGSIZE, PagesUp(p.sz));
    }

    /** allocuvm for the one page v, below n. */
    method MapOnDemand(pd: nat, vadown: nat, vaup: nat, ghost v: nat, ghost n: nat)
      requires vadown == v * PGSIZE && vaup == (v + 1) * PGSIZE
      requires Valid() && World(mem, role) && pd in role && role[pd] == Dir && v < n < USERPAGES
      requires !Present(Entry(mem, pd, v))
      modifies this
      ensures Valid() && World(mem, role) && |mem| == |old(mem)|
      ensures |old(free)| >= (if old(HasTable(mem, pd, v)) then 1 else 2) ==>
                && Zeroed(old(mem), old(role), mem, pd, v, v + 1) && Opened(old(mem), mem, pd, v, v + 1)
                && Grew(old(mem), old(role), mem, role, pd, v, v + 1, 0)
                && CountPages(mem, pd, n) == CountPages(old(mem), pd, n) + 1
      ensures |old(free)| < (if old(HasTable(mem, pd, v)) then 1 else 2) ==>
                SameMap(old(mem), mem, pd) && CountPages(mem, pd, n) == CountPages(old(mem), pd, n)
    {
      ghost var mem0, role0 := mem, role;
      Whole(v);
      NeedOne(mem0, pd, v);
      var r := Allocuvm(pd, vadown, vaup);
      if r == vaup {
        ZeroedOne(mem0, role0, mem, pd, v);
        CountOneMore(mem0, mem, pd, v, n);
        GrewWorld(mem0, role0, mem, role, pd, v, v + 1);
      } else {
        CountSame(mem0, mem, pd, n);
        GrewWorld(mem0, role0, mem, role, pd, v, v);
      }
    }
  }
}
