/** Two-level x86 page tables over physical frames. Memory is a sequence of 4096-byte frames, each seen as 1024 words;
    a frame is named by its number, and 0 is the null pointer. Every frame that the allocator manages has one role. */
module PageTables {
  import opened Guards

  const PGSIZE := 4096
  const NPTE := 1024
  const USERPAGES := 0x8_0000      // KERNBASE / PGSIZE
  const ALLPAGES := 0x10_0000
  const PTE_P := 1
  const PTE_W := 2
  const PTE_U := 4

  type Page = p: seq<nat> | |p| == NPTE witness seq(NPTE, _ => 0)
  type Mem = seq<Page>

  function ZeroPage(): (p: Page) {
    seq(NPTE, _ => 0)
  }

  /** What a frame is in use for; pd is the page directory of the address space it belongs to. */
  datatype Role = Free | Other | Dir | Table(pd: nat, i: nat) | Data(pd: nat, v: nat)

  type Roles = map<nat, Role>

  // ---------- entries ----------

  predicate Present(e: nat) {
    e % 2 == 1
  }

  /** PTE_ADDR, as a frame number. */
  function FrameOf(e: nat): (f: nat) {
    e / PGSIZE
  }

  function FlagsOf(e: nat): (p: nat) {
    e % PGSIZE
  }

  /** The bits W and U of an entry. */
  predicate Writable(e: nat) {
    FlagsOf(e) / 2 % 2 == 1
  }

  predicate ForUser(e: nat) {
    FlagsOf(e) / 4 % 2 == 1
  }

  lemma EntryParts(f: nat, p: nat)
    requires p < PGSIZE
    ensures (f * PGSIZE + p) / PGSIZE == f && (f * PGSIZE + p) % PGSIZE == p
  {}

  lemma EntryParity(f: nat, p: nat)
    ensures (f * PGSIZE + p) % 2 == p % 2
  {
    assert f * PGSIZE + p == 2 * (2048 * f) + p;
  }

  /** pa | perm | PTE_P */
  function MakeEntry(f: nat, perm: nat): (e: nat)
    requires perm < PGSIZE
    ensures Present(e) && FrameOf(e) == f && FlagsOf(e) == if perm % 2 == 1 then perm else perm + PTE_P
  {
    var p := if perm % 2 == 1 then perm else perm + PTE_P;
    EntryParts(f, p);
    EntryParity(f, p);
    f * PGSIZE + p
  }

  function PDX(v: nat): (i: nat) {
    v / NPTE
  }

  function PTX(v: nat): (j: nat) {
    v % NPTE
  }

  /** The page-table entry of page v; 0 if there is no table for it. */
  function Entry(mem: Mem, pd: nat, v: nat): (e: nat)
    requires pd < |mem| && v < ALLPAGES
  {
    var d := mem[pd][PDX(v)];
    if Present(d) && FrameOf(d) < |mem| then mem[FrameOf(d)][PTX(v)] else 0
  }

  /** Page v has a table. */
  predicate HasTable(mem: Mem, pd: nat, v: nat)
    requires pd < |mem| && v < ALLPAGES
  {
    Present(mem[pd][PDX(v)])
  }

  /** What the processor lets user code do with page v: both entries on the way must grant it. */
  predicate UserReads(mem: Mem, pd: nat, v: nat)
    requires pd < |mem| && v < ALLPAGES
  {
    var d, e := mem[pd][PDX(v)], Entry(mem, pd, v);
    Present(d) && ForUser(d) && Present(e) && ForUser(e)
  }

  predicate UserWrites(mem: Mem, pd: nat, v: nat)
    requires pd < |mem| && v < ALLPAGES
  {
    UserReads(mem, pd, v) && Writable(mem[pd][PDX(v)]) && Writable(Entry(mem, pd, v))
  }

  // ---------- who owns what ----------

  ghost predicate RolesOk(mem: Mem, role: Roles) {
    0 !in role && forall f | f in role :: f < |mem|
  }

  /** The directory's tables are frames of their own, and the directory grants all that they may grant. */
  ghost predicate TablesOk(mem: Mem, role: Roles, pd: nat)
    requires pd < |mem|
  {
    forall i | 0 <= i < NPTE && Present(mem[pd][i]) ::
      && FrameOf(mem[pd][i]) in role && FrameOf(mem[pd][i]) < |mem| && role[FrameOf(mem[pd][i])] == Table(pd, i)
      && Writable(mem[pd][i]) && ForUser(mem[pd][i])
  }

  /** Every mapped user page has a frame of its own. */
  ghost predicate DataOk(mem: Mem, role: Roles, pd: nat)
    requires pd < |mem|
  {
    forall v | 0 <= v < USERPAGES && Present(Entry(mem, pd, v)) ::
      FrameOf(Entry(mem, pd, v)) in role && role[FrameOf(Entry(mem, pd, v))] == Data(pd, v)
  }

  /** Frames in the role of a table or page of this address space are used as such. */
  ghost predicate UsedOk(mem: Mem, role: Roles, pd: nat)
    requires pd < |mem|
  {
    && (forall f | f in role && role[f].Table? && role[f].pd == pd ::
          role[f].i < NPTE && Present(mem[pd][role[f].i]) && FrameOf(mem[pd][role[f].i]) == f)
    && (forall f | f in role && role[f].Data? && role[f].pd == pd ::
          role[f].v < USERPAGES && Present(Entry(mem, pd, role[f].v)) && FrameOf(Entry(mem, pd, role[f].v)) == f)
  }

  ghost predicate SpaceOk(mem: Mem, role: Roles, pd: nat) {
    && RolesOk(mem, role) && pd in role && role[pd] == Dir && pd < |mem|
    && forall x: nat | Parts(x) :: TablesOk(mem, role, pd) && DataOk(mem, role, pd) && UsedOk(mem, role, pd)
  }

  /** The entries of two states agree on all pages. */
  ghost predicate SameEntries(mem: Mem, mem': Mem, pd: nat)
    requires pd < |mem| == |mem'|
  {
    forall v | 0 <= v < ALLPAGES :: Entry(mem', pd, v) == Entry(mem, pd, v)
  }

  /** So a page's own entry says what user code may do with it. */
  lemma Granted(mem: Mem, role: Roles, pd: nat, v: nat)
    requires SpaceOk(mem, role, pd) && v < ALLPAGES
    ensures var e := Entry(mem, pd, v);
            && (UserReads(mem, pd, v) <==> Present(e) && ForUser(e))
            && (UserWrites(mem, pd, v) <==> Present(e) && ForUser(e) && Writable(e))
  {
    assert Parts(0);
  }

  // ---------- steps ----------

  /** A frame that plays no part in an address space may change at will, if it does not come to play one. */
  lemma FrameSpace(mem: Mem, role: Roles, mem': Mem, role': Roles, pd: nat, f: nat)
    requires SpaceOk(mem, role, pd) && f in role && f < |mem|
    requires !Concerns(role[f], pd) && f != pd
    requires |mem'| == |mem| && (forall g | 0 <= g < |mem| && g != f :: mem'[g] == mem[g])
    requires role'.Keys == role.Keys && (forall g | g in role && g != f :: role'[g] == role[g])
    requires !Concerns(role'[f], pd)
    ensures SpaceOk(mem', role', pd) && SameEntries(mem, mem', pd)
  {
    assert Parts(0);
    forall v | 0 <= v < ALLPAGES ensures Entry(mem', pd, v) == Entry(mem, pd, v) {}
  }

  predicate Concerns(r: Role, pd: nat) {
    (r.Table? || r.Data?) && r.pd == pd
  }

  /** walkpgdir with alloc: a zeroed frame becomes the table for page v. No entry changes. */
  lemma AddTable(mem: Mem, role: Roles, pd: nat, v: nat, t: nat, mem': Mem, role': Roles)
    requires SpaceOk(mem, role, pd) && v < ALLPAGES && !HasTable(mem, pd, v)
    requires t in role && role[t] == Other && t < |mem| && mem[t] == ZeroPage()
    requires mem' == mem[pd := mem[pd][PDX(v) := MakeEntry(t, PTE_P + PTE_W + PTE_U)]]
    requires role' == role[t := Table(pd, PDX(v))]
    ensures SpaceOk(mem', role', pd) && SameEntries(mem, mem', pd) && HasTable(mem', pd, v)
    ensures FrameOf(mem'[pd][PDX(v)]) == t
  {
    assert Parts(0);
    forall u | 0 <= u < ALLPAGES ensures Entry(mem', pd, u) == Entry(mem, pd, u) {
      assert PDX(u) != PDX(v) ==> mem'[pd][PDX(u)] == mem[pd][PDX(u)];
    }
  }

  /** Pages are told apart by their two indices. */
  lemma Indices(u: nat, v: nat)
    ensures PDX(u) == PDX(v) && PTX(u) == PTX(v) <==> u == v
  {}

  /** Writing the entry of page v, through its table, changes that entry alone. */
  lemma WriteEntry(mem: Mem, role: Roles, pd: nat, v: nat, e: nat, mem': Mem)
    requires SpaceOk(mem, role, pd) && v < ALLPAGES && HasTable(mem, pd, v)
    requires FrameOf(mem[pd][PDX(v)]) < |mem|
    requires var t := FrameOf(mem[pd][PDX(v)]); mem' == mem[t := mem[t][PTX(v) := e]]
    ensures mem'[pd] == mem[pd]
    ensures forall u | 0 <= u < ALLPAGES :: Entry(mem', pd, u) == if u == v then e else Entry(mem, pd, u)
  {
    assert Parts(0);
    var t := FrameOf(mem[pd][PDX(v)]);
    assert role[t] == Table(pd, PDX(v));
    forall u | 0 <= u < ALLPAGES ensures Entry(mem', pd, u) == if u == v then e else Entry(mem, pd, u) {
      Indices(u, v);
      if Present(mem[pd][PDX(u)]) && FrameOf(mem[pd][PDX(u)]) == t {
        assert role[t] == Table(pd, PDX(u));
      }
    }
  }

  /** mappages for one page: frame f becomes page v. */
  lemma MapPage(mem: Mem, role: Roles, pd: nat, v: nat, f: nat, perm: nat, mem': Mem, role': Roles)
    requires SpaceOk(mem, role, pd) && v < USERPAGES && HasTable(mem, pd, v) && !Present(Entry(mem, pd, v))
    requires f in role && role[f] == Other && perm < PGSIZE && FrameOf(mem[pd][PDX(v)]) < |mem|
    requires var t := FrameOf(mem[pd][PDX(v)]); mem' == mem[t := mem[t][PTX(v) := MakeEntry(f, perm)]]
    requires role' == role[f := Data(pd, v)]
    ensures SpaceOk(mem', role', pd)
    ensures forall u | 0 <= u < ALLPAGES ::
              Entry(mem', pd, u) == if u == v then MakeEntry(f, perm) else Entry(mem, pd, u)
  {
    assert Parts(0);
    WriteEntry(mem, role, pd, v, MakeEntry(f, perm), mem');
  }

  /** The same for a page of the kernel's half, whose frames are nobody's. */
  lemma MapKernel(mem: Mem, role: Roles, pd: nat, v: nat, f: nat, perm: nat, mem': Mem)
    requires SpaceOk(mem, role, pd) && USERPAGES <= v < ALLPAGES && HasTable(mem, pd, v)
    requires perm < PGSIZE && FrameOf(mem[pd][PDX(v)]) < |mem|
    requires var t := FrameOf(mem[pd][PDX(v)]); mem' == mem[t := mem[t][PTX(v) := MakeEntry(f, perm)]]
    ensures SpaceOk(mem', role, pd)
    ensures forall u | 0 <= u < ALLPAGES ::
              Entry(mem', pd, u) == if u == v then MakeEntry(f, perm) else Entry(mem, pd, u)
  {
    assert Parts(0);
    WriteEntry(mem, role, pd, v, MakeEntry(f, perm), mem');
  }

  /** *pte = 0: page v gives up its frame. */
  lemma UnmapPage(mem: Mem, role: Roles, pd: nat, v: nat, mem': Mem, role': Roles)
    requires SpaceOk(mem, role, pd) && v < USERPAGES && HasTable(mem, pd, v) && Present(Entry(mem, pd, v))
    requires FrameOf(mem[pd][PDX(v)]) < |mem|
    requires var t := FrameOf(mem[pd][PDX(v)]); mem' == mem[t := mem[t][PTX(v) := 0]]
    requires role' == role[FrameOf(Entry(mem, pd, v)) := Other]
    ensures SpaceOk(mem', role', pd)
    ensures forall u | 0 <= u < ALLPAGES :: Entry(mem', pd, u) == if u == v then 0 else Entry(mem, pd, u)
  {
    assert Parts(0);
    WriteEntry(mem, role, pd, v, 0, mem');
  }
}
