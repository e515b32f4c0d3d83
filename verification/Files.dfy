/** The inode layer of fs.c over the block map that the log provides: block allocation, the mapping of file blocks
    through direct and indirect pointers, and the contents of a file. */
module Files {
  import opened Bytes
  import opened Guards
  import opened Options
  import opened Words

  const NDIRECT := 12
  const NINDIRECT := 128
  const MAXFILE := NDIRECT + NINDIRECT
  const IPB := 8
  const BPB := 4096
  const INODE_WORDS := 16

  /** The block pointers of an inode: 12 direct ones, the one to the indirect block (INDIRECT), and its 128 entries. */
  const INDIRECT := NDIRECT
  const SLOTS := NDIRECT + 1 + NINDIRECT

  type Blocks = seq<Block>

  /** datastart is the first block that mkfs leaves for data; everything before it is metadata. */
  datatype Superblock = Superblock(size: nat, ninodes: nat, inodestart: nat, bmapstart: nat, datastart: nat)

  datatype Inode = Inode(typ: nat, major: nat, minor: nat, nlink: nat, size: Uint, addrs: seq<Uint>)

  predicate InodeOk(ino: Inode) {
    ino.typ < 0x1_0000 && ino.major < 0x1_0000 && ino.minor < 0x1_0000 && ino.nlink < 0x1_0000
    && |ino.addrs| == NDIRECT + 1 && ino.size <= MAXFILE * BSIZE
  }

  /** mkfs's layout: inode blocks, then the free map, then data. */
  predicate LayoutOk(sb: Superblock) {
    && sb.inodestart + (sb.ninodes + IPB - 1) / IPB <= sb.bmapstart
    && sb.bmapstart + (sb.size + BPB - 1) / BPB <= sb.datastart <= sb.size < WORD_LIMIT
  }

  predicate DiskOk(sb: Superblock, blk: Blocks) {
    LayoutOk(sb) && |blk| == sb.size
  }

  // ---------- the free map ----------

  function BBlock(sb: Superblock, b: nat): (x: nat) {
    b / BPB + sb.bmapstart
  }

  /** The bit of block b in the free map. */
  predicate Used(sb: Superblock, blk: Blocks, b: nat)
    requires DiskOk(sb, blk) && b < sb.size
  {
    Bit(blk[BBlock(sb, b)][b % BPB / 8], b % BPB % 8)
  }

  /** balloc's and bfree's change of that bit. */
  function SetUsed(sb: Superblock, blk: Blocks, b: nat): (r: Blocks)
    requires DiskOk(sb, blk) && b < sb.size && !Used(sb, blk, b)
  {
    var x, i, m := BBlock(sb, b), b % BPB / 8, Mask(b % BPB % 8);
    SetBitFits(blk[x][i], b % BPB % 8, 8);
    ByteMask();
    blk[x := blk[x][i := blk[x][i] + m]]
  }

  function ClearUsed(sb: Superblock, blk: Blocks, b: nat): (r: Blocks)
    requires DiskOk(sb, blk) && b < sb.size && Used(sb, blk, b)
  {
    var x, i, m := BBlock(sb, b), b % BPB / 8, Mask(b % BPB % 8);
    ClearBit(blk[x][i], b % BPB % 8, 0);
    blk[x := blk[x][i := blk[x][i] - m]]
  }

  /** Two blocks with the same place in the free map are the same. */
  lemma BitPlace(b: nat, c: nat)
    requires b / BPB == c / BPB && b % BPB / 8 == c % BPB / 8 && b % BPB % 8 == c % BPB % 8
    ensures b == c
  {}

  lemma SetUsedReads(sb: Superblock, blk: Blocks, b: nat, c: nat)
    requires DiskOk(sb, blk) && b < sb.size && c < sb.size && !Used(sb, blk, b)
    ensures Used(sb, SetUsed(sb, blk, b), c) <==> c == b || Used(sb, blk, c)
  {
    var x, i := BBlock(sb, b), b % BPB / 8;
    if BBlock(sb, c) == x && c % BPB / 8 == i {
      SetBitFits(blk[x][i], b % BPB % 8, 8);
      ByteMask();
      SetBit(blk[x][i], b % BPB % 8, c % BPB % 8);
      if c % BPB % 8 == b % BPB % 8 {
        BitPlace(b, c);
      }
    }
  }

  lemma ClearUsedReads(sb: Superblock, blk: Blocks, b: nat, c: nat)
    requires DiskOk(sb, blk) && b < sb.size && c < sb.size && Used(sb, blk, b)
    ensures Used(sb, ClearUsed(sb, blk, b), c) <==> c != b && Used(sb, blk, c)
  {
    var x, i := BBlock(sb, b), b % BPB / 8;
    ClearBit(blk[x][i], b % BPB % 8, c % BPB % 8);
    if BBlock(sb, c) == x && c % BPB / 8 == i && c % BPB % 8 == b % BPB % 8 {
      BitPlace(b, c);
    }
  }

  // ---------- block pointers ----------

  /** Block pointer k of an inode; 0 is no block. */
  function Ref(blk: Blocks, ino: Inode, k: nat): (b: nat)
    requires |ino.addrs| == NDIRECT + 1 && k < SLOTS
  {
    if k <= INDIRECT then ino.addrs[k]
    else if ino.addrs[INDIRECT] == 0 || ino.addrs[INDIRECT] >= |blk| then 0
    else GetWord(blk[ino.addrs[INDIRECT]], k - INDIRECT - 1)
  }

  /** The pointer for file block bn. */
  function SlotOf(bn: nat): (k: nat) {
    if bn < NDIRECT then bn else bn + 1
  }

  type Owner = map<nat, (nat, nat)>

  /** Every block pointer of every inode owns its block: no two pointers share one. */
  ghost predicate RefsOwned(blk: Blocks, ip: seq<Inode>, owner: Owner)
    requires InodesOk(ip)
  {
    forall n, k | 0 <= n < |ip| && 0 <= k < SLOTS && Ref(blk, ip[n], k) != 0 ::
      Ref(blk, ip[n], k) in owner && owner[Ref(blk, ip[n], k)] == (n, k)
  }

  ghost predicate InodesOk(ip: seq<Inode>) {
    forall n | 0 <= n < |ip| :: InodeOk(ip[n])
  }

  /** An owned block is a data block, and the pointer that owns it is there. */
  ghost predicate OwnersReal(sb: Superblock, blk: Blocks, ip: seq<Inode>, owner: Owner)
    requires InodesOk(ip)
  {
    forall b | b in owner ::
      && sb.datastart <= b < sb.size && b != 0
      && owner[b].0 < |ip| && owner[b].1 < SLOTS && Ref(blk, ip[owner[b].0], owner[b].1) == b
  }

  /** The free map marks the metadata, the owned blocks and those of `extra`, and nothing else. */
  ghost predicate MapExact(sb: Superblock, blk: Blocks, owner: Owner, extra: set<nat>)
    requires DiskOk(sb, blk)
  {
    forall b | 0 <= b < sb.size :: Used(sb, blk, b) <==> b < sb.datastart || b in owner || b in extra
  }

  /** Block ownership, with the blocks of `extra` allocated but not pointed to yet. */
  ghost predicate Owned(sb: Superblock, blk: Blocks, ip: seq<Inode>, owner: Owner, extra: set<nat>) {
    && DiskOk(sb, blk) && sb.datastart > 0 && InodesOk(ip)
    && forall x: nat | Parts(x) ::
      RefsOwned(blk, ip, owner) && OwnersReal(sb, blk, ip, owner) && MapExact(sb, blk, owner, extra)
  }

  /** A pointer that is set owns its block, which is a data block and marked. */
  lemma RefOwned(sb: Superblock, blk: Blocks, ip: seq<Inode>, owner: Owner, extra: set<nat>, n: nat, k: nat)
    requires Owned(sb, blk, ip, owner, extra) && n < |ip| && k < SLOTS && Ref(blk, ip[n], k) != 0
    ensures var b := Ref(blk, ip[n], k);
            b in owner && owner[b] == (n, k) && sb.datastart <= b < sb.size && Used(sb, blk, b)
  {
    assert Parts(0);
  }

  /** So no block has two uses, and every block in use is a data block that the free map marks. */
  lemma BlocksExclusive(sb: Superblock, blk: Blocks, ip: seq<Inode>, owner: Owner, n: nat, k: nat, m: nat, j: nat)
    requires Owned(sb, blk, ip, owner, {}) && n < |ip| && m < |ip| && k < SLOTS && j < SLOTS && Ref(blk, ip[n], k) != 0
    ensures Ref(blk, ip[n], k) == Ref(blk, ip[m], j) <==> n == m && k == j
    ensures sb.datastart <= Ref(blk, ip[n], k) < sb.size && Used(sb, blk, Ref(blk, ip[n], k))
  {
    assert Parts(0);
    assert owner[Ref(blk, ip[n], k)] == (n, k);
  }

  /** Byte p of a file; a block that is not mapped reads as zeros. */
  function RawByte(blk: Blocks, ino: Inode, p: nat): (c: Byte)
    requires |ino.addrs| == NDIRECT + 1 && p < MAXFILE * BSIZE
  {
    var b := Ref(blk, ino, SlotOf(p / BSIZE));
    if b == 0 || b >= |blk| then 0 else blk[b][p % BSIZE]
  }

  /** The pointers and the bytes of all files are the same in both states. */
  ghost predicate SameBytes(blk: Blocks, ip: seq<Inode>, blk': Blocks, ip': seq<Inode>)
    requires InodesOk(ip) && InodesOk(ip')
  {
    |ip'| == |ip| && forall n, p | 0 <= n < |ip| && 0 <= p < MAXFILE * BSIZE ::
      RawByte(blk', ip'[n], p) == RawByte(blk, ip[n], p)
  }

  // ---------- allocation ----------

  /** The block map after balloc returned b: marked in use, and zeroed. */
  function AllocBlock(sb: Superblock, blk: Blocks, b: nat): (r: Blocks)
    requires DiskOk(sb, blk) && b < sb.size && !Used(sb, blk, b)
  {
    SetUsed(sb, blk, b)[b := ZeroBlock()]
  }

  /** Blocks below datastart apart, only b changes. */
  lemma AllocFrame(sb: Superblock, blk: Blocks, b: nat)
    requires DiskOk(sb, blk) && b < sb.size && !Used(sb, blk, b) && sb.datastart <= b
    ensures DiskOk(sb, AllocBlock(sb, blk, b))
    ensures forall x | sb.datastart <= x < sb.size && x != b :: AllocBlock(sb, blk, b)[x] == blk[x]
    ensures forall x | 0 <= x < sb.bmapstart :: AllocBlock(sb, blk, b)[x] == blk[x]
    ensures AllocBlock(sb, blk, b)[b] == ZeroBlock()
    ensures forall c | 0 <= c < sb.size :: Used(sb, AllocBlock(sb, blk, b), c) <==> c == b || Used(sb, blk, c)
  {
    forall c | 0 <= c < sb.size
      ensures Used(sb, AllocBlock(sb, blk, b), c) <==> c == b || Used(sb, blk, c)
    {
      SetUsedReads(sb, blk, b, c);
      assert BBlock(sb, c) != b;
    }
  }

  /** Blocks that agree on everything owned have the same pointers. */
  lemma RefsFrame(sb: Superblock, blk: Blocks, blk': Blocks, ip: seq<Inode>, owner: Owner, n: nat, k: nat)
    requires InodesOk(ip) && RefsOwned(blk, ip, owner) && |blk'| == |blk|
    requires forall b | b in owner && b < |blk| && owner[b].1 == INDIRECT :: blk'[b] == blk[b]
    requires n < |ip| && k < SLOTS
    ensures Ref(blk', ip[n], k) == Ref(blk, ip[n], k)
  {
    assert Parts(0);
    if k > INDIRECT {
      var a := ip[n].addrs[INDIRECT];
      assert Ref(blk, ip[n], INDIRECT) == a;
    }
  }

  lemma BytesFrame(sb: Superblock, blk: Blocks, blk': Blocks, ip: seq<Inode>, owner: Owner)
    requires InodesOk(ip) && RefsOwned(blk, ip, owner) && |blk'| == |blk|
    requires forall b | b in owner && b < |blk| :: blk'[b] == blk[b]
    ensures SameBytes(blk, ip, blk', ip)
  {
    assert Parts(0);
    forall n, p | 0 <= n < |ip| && 0 <= p < MAXFILE * BSIZE ensures RawByte(blk', ip[n], p) == RawByte(blk, ip[n], p) {
      RefsFrame(sb, blk, blk', ip, owner, n, SlotOf(p / BSIZE));
    }
  }

  /** balloc keeps every file as it is; the new block belongs to nobody yet. */
  lemma AllocOwned(sb: Superblock, blk: Blocks, ip: seq<Inode>, owner: Owner, extra: set<nat>, b: nat)
    requires Owned(sb, blk, ip, owner, extra) && b < sb.size && !Used(sb, blk, b)
    ensures sb.datastart <= b && b !in owner && b !in extra
    ensures Owned(sb, AllocBlock(sb, blk, b), ip, owner, extra + {b})
    ensures SameBytes(blk, ip, AllocBlock(sb, blk, b), ip)
    ensures forall n, k | 0 <= n < |ip| && 0 <= k < SLOTS :: Ref(AllocBlock(sb, blk, b), ip[n], k) == Ref(blk, ip[n], k)
  {
    assert Parts(0);
    var blk' := AllocBlock(sb, blk, b);
    AllocFrame(sb, blk, b);
    BytesFrame(sb, blk, blk', ip, owner);
    forall n, k | 0 <= n < |ip| && 0 <= k < SLOTS ensures Ref(blk', ip[n], k) == Ref(blk, ip[n], k) {
      RefsFrame(sb, blk, blk', ip, owner, n, k);
    }
  }

  // ---------- linking a new block ----------

  /** Pointer k of inode n now holds b, and every other pointer is as before. */
  ghost predicate Linked(blk: Blocks, ip: seq<Inode>, blk': Blocks, ip': seq<Inode>, n: nat, k: nat, b: nat)
    requires InodesOk(ip) && InodesOk(ip')
  {
    && |ip'| == |ip| && n < |ip| && k < SLOTS
    && forall m, j | 0 <= m < |ip| && 0 <= j < SLOTS ::
         Ref(blk', ip'[m], j) == if m == n && j == k then b else Ref(blk, ip[m], j)
  }

  /** Storing a fresh block in an empty pointer makes that pointer its owner. */
  lemma LinkOwned(sb: Superblock, blk: Blocks, ip: seq<Inode>, owner: Owner, extra: set<nat>,
                  blk': Blocks, ip': seq<Inode>, n: nat, k: nat, b: nat)
    requires Owned(sb, blk, ip, owner, extra) && DiskOk(sb, blk') && InodesOk(ip')
    requires Linked(blk, ip, blk', ip', n, k, b) && Ref(blk, ip[n], k) == 0
    requires b in extra && b !in owner && sb.datastart <= b < sb.size
    requires forall c | 0 <= c < sb.size :: Used(sb, blk', c) == Used(sb, blk, c)
    ensures Owned(sb, blk', ip', owner[b := (n, k)], extra - {b})
  {
    assert Parts(0);
  }

  /** If the fresh block is zeroed, no file changes. */
  lemma LinkBytes(sb: Superblock, blk: Blocks, ip: seq<Inode>, owner: Owner, extra: set<nat>,
                  blk': Blocks, ip': seq<Inode>, n: nat, k: nat, b: nat)
    requires Owned(sb, blk, ip, owner, extra) && |blk'| == |blk| && InodesOk(ip')
    requires Linked(blk, ip, blk', ip', n, k, b) && Ref(blk, ip[n], k) == 0
    requires 0 < b < sb.size && blk'[b] == ZeroBlock()
    requires forall x | x in owner && x < |blk| && owner[x].1 != INDIRECT :: blk'[x] == blk[x]
    ensures SameBytes(blk, ip, blk', ip')
  {
    assert Parts(0);
    forall m, p | 0 <= m < |ip| && 0 <= p < MAXFILE * BSIZE ensures RawByte(blk', ip'[m], p) == RawByte(blk, ip[m], p) {
      var j := SlotOf(p / BSIZE);
      var x := Ref(blk, ip[m], j);
      assert Ref(blk', ip'[m], j) == if m == n && j == k then b else x;
      if x != 0 {
        assert x in owner && owner[x] == (m, j);
      }
    }
  }

  function SetAddr(ip: seq<Inode>, n: nat, k: nat, b: Uint): (r: seq<Inode>)
    requires n < |ip| && k < |ip[n].addrs|
  {
    ip[n := ip[n].(addrs := ip[n].addrs[k := b])]
  }

  /** ip->addrs[k] = b */
  lemma LinkDirect(sb: Superblock, blk: Blocks, ip: seq<Inode>, owner: Owner, extra: set<nat>, n: nat, k: nat, b: nat)
    requires Owned(sb, blk, ip, owner, extra) && n < |ip| && k <= INDIRECT && ip[n].addrs[k] == 0
    requires b in extra && b !in owner && sb.datastart <= b < sb.size && blk[b] == ZeroBlock()
    ensures InodesOk(SetAddr(ip, n, k, b)) && Linked(blk, ip, blk, SetAddr(ip, n, k, b), n, k, b)
    ensures Owned(sb, blk, SetAddr(ip, n, k, b), owner[b := (n, k)], extra - {b})
    ensures SameBytes(blk, ip, blk, SetAddr(ip, n, k, b))
  {
    assert Parts(0);
    var ip' := SetAddr(ip, n, k, b);
    forall m, j | 0 <= m < |ip| && 0 <= j < SLOTS
      ensures Ref(blk, ip'[m], j) == if m == n && j == k then b else Ref(blk, ip[m], j)
    {
      if j > INDIRECT {
        ZeroWords(j - INDIRECT - 1);
      }
    }
    LinkOwned(sb, blk, ip, owner, extra, blk, ip', n, k, b);
    LinkBytes(sb, blk, ip, owner, extra, blk, ip', n, k, b);
  }

  /** The indirect block after a[k] = b. */
  function SetEntry(blk: Blocks, a: nat, i: nat, b: Uint): (r: Blocks)
    requires a < |blk| && i < NINDIRECT
  {
    blk[a := SetWord(blk[a], i, b)]
  }

  /** Data blocks lie outside the free map. */
  lemma DataWriteUsed(sb: Superblock, blk: Blocks, a: nat, v: Block, c: nat)
    requires DiskOk(sb, blk) && sb.datastart <= a < sb.size && c < sb.size
    ensures Used(sb, blk[a := v], c) == Used(sb, blk, c)
  {
    assert BBlock(sb, c) < sb.datastart;
  }

  lemma LinkEntry(sb: Superblock, blk: Blocks, ip: seq<Inode>, owner: Owner, extra: set<nat>, n: nat, i: nat, b: nat)
    requires Owned(sb, blk, ip, owner, extra) && n < |ip| && i < NINDIRECT
    requires ip[n].addrs[INDIRECT] != 0 && Ref(blk, ip[n], INDIRECT + 1 + i) == 0
    requires b in extra && b !in owner && sb.datastart <= b < sb.size && blk[b] == ZeroBlock()
    ensures sb.datastart <= ip[n].addrs[INDIRECT] < sb.size
    ensures var blk' := SetEntry(blk, ip[n].addrs[INDIRECT], i, b);
            && Linked(blk, ip, blk', ip, n, INDIRECT + 1 + i, b)
            && Owned(sb, blk', ip, owner[b := (n, INDIRECT + 1 + i)], extra - {b})
            && SameBytes(blk, ip, blk', ip)
  {
    var a, k := ip[n].addrs[INDIRECT], INDIRECT + 1 + i;
    assert Ref(blk, ip[n], INDIRECT) == a;
    RefOwned(sb, blk, ip, owner, extra, n, INDIRECT);
    var blk' := SetEntry(blk, a, i, b);
    forall m, j | 0 <= m < |ip| && 0 <= j < SLOTS
      ensures Ref(blk', ip[m], j) == if m == n && j == k then b else Ref(blk, ip[m], j)
    {
      EntryRefs(sb, blk, ip, owner, extra, n, i, b, m, j);
    }
    forall c | 0 <= c < sb.size ensures Used(sb, blk', c) == Used(sb, blk, c) {
      DataWriteUsed(sb, blk, a, blk'[a], c);
    }
    LinkOwned(sb, blk, ip, owner, extra, blk', ip, n, k, b);
    LinkBytes(sb, blk, ip, owner, extra, blk', ip, n, k, b);
  }

  /** Setting an entry of the indirect block sets that pointer alone. */
  lemma EntryRefs(sb: Superblock, blk: Blocks, ip: seq<Inode>, owner: Owner, extra: set<nat>, n: nat, i: nat, b: nat,
                  m: nat, j: nat)
    requires Owned(sb, blk, ip, owner, extra) && n < |ip| && i < NINDIRECT && m < |ip| && j < SLOTS && b < WORD_LIMIT
    requires 0 != ip[n].addrs[INDIRECT] < |blk|
    ensures Ref(SetEntry(blk, ip[n].addrs[INDIRECT], i, b), ip[m], j) ==
            if m == n && j == INDIRECT + 1 + i then b else Ref(blk, ip[m], j)
  {
    var a := ip[n].addrs[INDIRECT];
    assert Ref(blk, ip[n], INDIRECT) == a && Ref(blk, ip[m], INDIRECT) == ip[m].addrs[INDIRECT];
    RefOwned(sb, blk, ip, owner, extra, n, INDIRECT);
    if Ref(blk, ip[m], INDIRECT) != 0 { RefOwned(sb, blk, ip, owner, extra, m, INDIRECT); }
    if j > INDIRECT {
      SetWordReads(blk[a], i, b, j - INDIRECT - 1);
    }
  }

  // ---------- writing data ----------

  /** memmove(data + o, bytes, |bytes|) */
  function Splice(v: Block, o: nat, bytes: seq<Byte>): (r: Block)
    requires o + |bytes| <= BSIZE
  {
    v[..o] + bytes + v[o + |bytes|..]
  }

  /** The bytes part of the way through writei's loop, with tot bytes of src written at off of inode n. */
  ghost predicate BytesStage(blk0: Blocks, ip0: seq<Inode>, blk: Blocks, ip: seq<Inode>,
                             n: nat, off: nat, src: seq<Byte>, tot: nat)
    requires InodesOk(ip0) && InodesOk(ip) && |ip| == |ip0| && tot <= |src|
  {
    forall x: nat | Parts(x) :: forall m, p | 0 <= m < |ip| && 0 <= p < MAXFILE * BSIZE ::
      RawByte(blk, ip[m], p) == if m == n && off <= p < off + tot then src[p - off] else RawByte(blk0, ip0[m], p)
  }

  /** Writing part of one mapped data block changes those bytes of that file and nothing else. */
  lemma DataWrite(sb: Superblock, blk: Blocks, ip: seq<Inode>, owner: Owner, n: nat, bn: nat, o: nat, bytes: seq<Byte>,
                  at: nat)
    requires Owned(sb, blk, ip, owner, {}) && n < |ip| && bn < MAXFILE && o + |bytes| <= BSIZE && o < BSIZE
    requires Ref(blk, ip[n], SlotOf(bn)) != 0 && at == bn * BSIZE + o
    ensures sb.datastart <= Ref(blk, ip[n], SlotOf(bn)) < sb.size
    ensures var a := Ref(blk, ip[n], SlotOf(bn));
            var blk' := blk[a := Splice(blk[a], o, bytes)];
            && Owned(sb, blk', ip, owner, {})
            && (forall m, k | 0 <= m < |ip| && 0 <= k < SLOTS :: Ref(blk', ip[m], k) == Ref(blk, ip[m], k))
            && BytesStage(blk, ip, blk', ip, n, at, bytes, |bytes|)
  {
    var a := Ref(blk, ip[n], SlotOf(bn));
    RefOwned(sb, blk, ip, owner, {}, n, SlotOf(bn));
    DataOwned(sb, blk, ip, owner, a, Splice(blk[a], o, bytes));
    DataBytes(sb, blk, ip, owner, n, bn, o, bytes, at, Splice(blk[a], o, bytes));
  }

  /** A data block that is no indirect block may hold anything. */
  lemma DataOwned(sb: Superblock, blk: Blocks, ip: seq<Inode>, owner: Owner, a: nat, v: Block)
    requires Owned(sb, blk, ip, owner, {}) && a in owner && owner[a].1 != INDIRECT
    ensures sb.datastart <= a < sb.size && Owned(sb, blk[a := v], ip, owner, {})
    ensures forall m, k | 0 <= m < |ip| && 0 <= k < SLOTS :: Ref(blk[a := v], ip[m], k) == Ref(blk, ip[m], k)
  {
    OwnedData(sb, blk, ip, owner, a);
    var blk' := blk[a := v];
    forall m, k | 0 <= m < |ip| && 0 <= k < SLOTS ensures Ref(blk', ip[m], k) == Ref(blk, ip[m], k) {
      OwnedRefsFrame(sb, blk, blk', ip, owner, a, m, k);
    }
    forall c | 0 <= c < sb.size ensures Used(sb, blk', c) == Used(sb, blk, c) {
      DataWriteUsed(sb, blk, a, v, c);
    }
    SameRefsOwned(sb, blk, blk', ip, owner);
  }

  lemma OwnedData(sb: Superblock, blk: Blocks, ip: seq<Inode>, owner: Owner, a: nat)
    requires Owned(sb, blk, ip, owner, {}) && a in owner
    ensures sb.datastart <= a < sb.size
  {
    assert Parts(0);
  }

  lemma OwnedRefsFrame(sb: Superblock, blk: Blocks, blk': Blocks, ip: seq<Inode>, owner: Owner, a: nat, m: nat, k: nat)
    requires Owned(sb, blk, ip, owner, {}) && a in owner && owner[a].1 != INDIRECT && m < |ip| && k < SLOTS
    requires |blk'| == |blk| && forall x | 0 <= x < |blk| && x != a :: blk'[x] == blk[x]
    ensures Ref(blk', ip[m], k) == Ref(blk, ip[m], k)
  {
    assert Parts(0);
    RefsFrame(sb, blk, blk', ip, owner, m, k);
  }

  /** Ownership depends on the pointers and the free map alone. */
  lemma SameRefsOwned(sb: Superblock, blk: Blocks, blk': Blocks, ip: seq<Inode>, owner: Owner)
    requires Owned(sb, blk, ip, owner, {}) && DiskOk(sb, blk')
    requires forall m, k | 0 <= m < |ip| && 0 <= k < SLOTS :: Ref(blk', ip[m], k) == Ref(blk, ip[m], k)
    requires forall c | 0 <= c < sb.size :: Used(sb, blk', c) == Used(sb, blk, c)
    ensures Owned(sb, blk', ip, owner, {})
  {
    assert Parts(0);
    forall b | b in owner ensures Ref(blk', ip[owner[b].0], owner[b].1) == b {
      assert Ref(blk, ip[owner[b].0], owner[b].1) == b;
    }
  }

  lemma DataBytes(sb: Superblock, blk: Blocks, ip: seq<Inode>, owner: Owner, n: nat, bn: nat, o: nat, bytes: seq<Byte>,
                  at: nat, v: Block)
    requires Owned(sb, blk, ip, owner, {}) && n < |ip| && bn < MAXFILE && o + |bytes| <= BSIZE && o < BSIZE
    requires at == bn * BSIZE + o && Ref(blk, ip[n], SlotOf(bn)) != 0 && Ref(blk, ip[n], SlotOf(bn)) < |blk|
    requires v == Splice(blk[Ref(blk, ip[n], SlotOf(bn))], o, bytes)
    requires var blk' := blk[Ref(blk, ip[n], SlotOf(bn)) := v];
             forall m, k | 0 <= m < |ip| && 0 <= k < SLOTS :: Ref(blk', ip[m], k) == Ref(blk, ip[m], k)
    ensures BytesStage(blk, ip, blk[Ref(blk, ip[n], SlotOf(bn)) := v], ip, n, at, bytes, |bytes|)
  {
    assert Parts(0);
    var a := Ref(blk, ip[n], SlotOf(bn));
    var blk' := blk[a := v];
    forall m, p | 0 <= m < |ip| && 0 <= p < MAXFILE * BSIZE
      ensures RawByte(blk', ip[m], p) ==
              if m == n && at <= p < at + |bytes| then bytes[p - at] else RawByte(blk, ip[m], p)
    {
      var k := SlotOf(p / BSIZE);
      assert at <= p < at + |bytes| ==> p / BSIZE == bn;
      if Ref(blk, ip[m], k) == a {
        assert (m, k) == (n, SlotOf(bn)) && p / BSIZE == bn;
      }
    }
  }

  // ---------- inodes on disk ----------

  function IBlock(sb: Superblock, n: nat): (x: nat) {
    n / IPB + sb.inodestart
  }

  function InodeWords(ino: Inode): (ws: seq<Uint>)
    requires InodeOk(ino)
  {
    var head: seq<Uint> := [ino.typ + 0x1_0000 * ino.major, ino.minor + 0x1_0000 * ino.nlink, ino.size];
    head + ino.addrs
  }

  /** The fields of a stored inode. */
  function InodeOf(ws: seq<Uint>): (ino: Inode)
    requires |ws| == INODE_WORDS
  {
    Inode(ws[0] % 0x1_0000, ws[0] / 0x1_0000, ws[1] % 0x1_0000, ws[1] / 0x1_0000, ws[2], ws[3..])
  }

  lemma InodeRoundTrip(ino: Inode)
    requires InodeOk(ino)
    ensures InodeOf(InodeWords(ino)) == ino
  {
    assert InodeWords(ino)[3..] == ino.addrs;
  }

  /** The inode as ilock reads it from disk. */
  function DiskInode(sb: Superblock, blk: Blocks, n: nat): (ino: Inode)
    requires DiskOk(sb, blk) && n < sb.ninodes
  {
    InodeOf(GetWords(blk[IBlock(sb, n)], INODE_WORDS * (n % IPB), INODE_WORDS))
  }

  /** The block map after iupdate. */
  function PutInode(sb: Superblock, blk: Blocks, n: nat, ino: Inode): (r: Blocks)
    requires DiskOk(sb, blk) && n < sb.ninodes && InodeOk(ino)
  {
    var x := IBlock(sb, n);
    blk[x := PutWords(blk[x], INODE_WORDS * (n % IPB), InodeWords(ino))]
  }

  /** iupdate stores one inode, and ilock reads it back. */
  lemma PutInodeReads(sb: Superblock, blk: Blocks, n: nat, ino: Inode, m: nat)
    requires DiskOk(sb, blk) && n < sb.ninodes && m < sb.ninodes && InodeOk(ino)
    ensures DiskInode(sb, PutInode(sb, blk, n, ino), m) == if m == n then ino else DiskInode(sb, blk, m)
  {
    InodeRoundTrip(ino);
    if IBlock(sb, m) == IBlock(sb, n) {
      var o, o' := INODE_WORDS * (n % IPB), INODE_WORDS * (m % IPB);
      if m == n {
        PutGetSame(blk[IBlock(sb, n)], o, InodeWords(ino));
      } else {
        PutGetElsewhere(blk[IBlock(sb, n)], o, InodeWords(ino), o', INODE_WORDS);
      }
    }
  }

  /** Metadata outside the free map is no part of any file. */
  lemma InodeWriteOwned(sb: Superblock, blk: Blocks, ip: seq<Inode>, owner: Owner, x: nat, v: Block)
    requires Owned(sb, blk, ip, owner, {}) && x < sb.bmapstart
    ensures Owned(sb, blk[x := v], ip, owner, {}) && SameBytes(blk, ip, blk[x := v], ip)
    ensures forall m, k | 0 <= m < |ip| && 0 <= k < SLOTS :: Ref(blk[x := v], ip[m], k) == Ref(blk, ip[m], k)
  {
    assert Parts(0);
    var blk' := blk[x := v];
    forall c | 0 <= c < sb.size ensures Used(sb, blk', c) == Used(sb, blk, c) {
      assert BBlock(sb, c) != x;
    }
    BytesFrame(sb, blk, blk', ip, owner);
    forall m, k | 0 <= m < |ip| && 0 <= k < SLOTS ensures Ref(blk', ip[m], k) == Ref(blk, ip[m], k) {
      RefsFrame(sb, blk, blk', ip, owner, m, k);
    }
  }

  // ---------- freeing ----------

  /** bfree changes the free map alone. */
  lemma ClearFrame(sb: Superblock, blk: Blocks, b: nat)
    requires DiskOk(sb, blk) && b < sb.size && Used(sb, blk, b)
    ensures DiskOk(sb, ClearUsed(sb, blk, b))
    ensures forall x | (0 <= x < sb.bmapstart || sb.datastart <= x < sb.size) :: ClearUsed(sb, blk, b)[x] == blk[x]
    ensures forall c | 0 <= c < sb.size :: Used(sb, ClearUsed(sb, blk, b), c) <==> c != b && Used(sb, blk, c)
  {
    forall c | 0 <= c < sb.size ensures Used(sb, ClearUsed(sb, blk, b), c) <==> c != b && Used(sb, blk, c) {
      ClearUsedReads(sb, blk, b, c);
    }
  }

  /** The two block maps differ in the free map alone. */
  ghost predicate SameData(sb: Superblock, blk: Blocks, blk': Blocks) {
    && DiskOk(sb, blk) && DiskOk(sb, blk')
    && forall x | (0 <= x < sb.bmapstart || sb.datastart <= x < sb.size) :: blk'[x] == blk[x]
  }

  lemma SameDataRefs(sb: Superblock, blk: Blocks, blk': Blocks, ip: seq<Inode>, owner: Owner)
    requires InodesOk(ip) && RefsOwned(blk, ip, owner) && OwnersReal(sb, blk, ip, owner) && SameData(sb, blk, blk')
    ensures forall n, k | 0 <= n < |ip| && 0 <= k < SLOTS :: Ref(blk', ip[n], k) == Ref(blk, ip[n], k)
    ensures SameBytes(blk, ip, blk', ip)
  {
    assert Parts(0);
    forall n, k | 0 <= n < |ip| && 0 <= k < SLOTS ensures Ref(blk', ip[n], k) == Ref(blk, ip[n], k) {
      RefsFrame(sb, blk, blk', ip, owner, n, k);
    }
    BytesFrame(sb, blk, blk', ip, owner);
  }

  /** bfree of a direct block and ip->addrs[k] = 0. */
  lemma FreeAddr(sb: Superblock, blk: Blocks, ip: seq<Inode>, owner: Owner, n: nat, k: nat)
    requires Owned(sb, blk, ip, owner, {}) && n < |ip| && k < NDIRECT && ip[n].addrs[k] != 0
    ensures ip[n].addrs[k] < sb.size && Used(sb, blk, ip[n].addrs[k])
    ensures var b := ip[n].addrs[k];
            && b in owner && owner[b] == (n, k)
            && SameData(sb, blk, ClearUsed(sb, blk, b))
            && Owned(sb, ClearUsed(sb, blk, b), SetAddr(ip, n, k, 0), owner - {b}, {})
  {
    var b := ip[n].addrs[k];
    assert Ref(blk, ip[n], k) == b;
    RefOwned(sb, blk, ip, owner, {}, n, k);
    ClearFrame(sb, blk, b);
    var blk', ip' := ClearUsed(sb, blk, b), SetAddr(ip, n, k, 0);
    UnsetAddr(sb, blk, blk', ip, owner, n, k);
    UnlinkOwned(sb, blk, ip, owner, blk', ip', n, k, b);
  }

  /** Only that pointer is cleared. */
  lemma UnsetAddr(sb: Superblock, blk: Blocks, blk': Blocks, ip: seq<Inode>, owner: Owner, n: nat, k: nat)
    requires Owned(sb, blk, ip, owner, {}) && SameData(sb, blk, blk') && n < |ip| && k < NDIRECT
    ensures InodesOk(SetAddr(ip, n, k, 0)) && Linked(blk, ip, blk', SetAddr(ip, n, k, 0), n, k, 0)
  {
    assert Parts(0);
    SameDataRefs(sb, blk, blk', ip, owner);
    var ip' := SetAddr(ip, n, k, 0);
    forall m, j | 0 <= m < |ip| && 0 <= j < SLOTS
      ensures Ref(blk', ip'[m], j) == if m == n && j == k then 0 else Ref(blk, ip[m], j)
    {
      assert Ref(blk', ip[m], j) == Ref(blk, ip[m], j);
    }
  }

  /** Clearing a pointer and its mark takes its block out of ownership. */
  lemma UnlinkOwned(sb: Superblock, blk: Blocks, ip: seq<Inode>, owner: Owner, blk': Blocks, ip': seq<Inode>,
                    n: nat, k: nat, b: nat)
    requires Owned(sb, blk, ip, owner, {}) && DiskOk(sb, blk') && InodesOk(ip')
    requires Linked(blk, ip, blk', ip', n, k, 0) && Ref(blk, ip[n], k) == b && b in owner && owner[b] == (n, k)
    requires forall c | 0 <= c < sb.size :: Used(sb, blk', c) <==> Used(sb, blk, c) && c != b
    ensures Owned(sb, blk', ip', owner - {b}, {})
  {
    assert Parts(0);
    assert OwnersReal(sb, blk', ip', owner - {b}) by {
      forall c | c in owner - {b} ensures Ref(blk', ip'[owner[c].0], owner[c].1) == c {
        assert Ref(blk, ip[owner[c].0], owner[c].1) == c;
      }
    }
  }

  /** The blocks of the first j entries of inode n's indirect block. */
  ghost predicate EntryBlock(owner: Owner, n: nat, j: nat, b: nat) {
    b in owner && owner[b].0 == n && INDIRECT < owner[b].1 < INDIRECT + 1 + j
  }

  /** Part of the way through itrunc's second loop: the blocks of the first j entries are free again. */
  ghost predicate FreedEntries(sb: Superblock, blk: Blocks, blk': Blocks, owner: Owner, n: nat, j: nat) {
    && SameData(sb, blk, blk')
    && forall b | 0 <= b < sb.size :: Used(sb, blk', b) <==> Used(sb, blk, b) && !EntryBlock(owner, n, j, b)
  }

  /** An entry that is set still has its block marked, so bfree does not panic; freeing it is one more step. */
  lemma FreeEntry(sb: Superblock, blk: Blocks, blk': Blocks, ip: seq<Inode>, owner: Owner, n: nat, j: nat)
    requires Owned(sb, blk, ip, owner, {}) && n < |ip| && j < NINDIRECT && FreedEntries(sb, blk, blk', owner, n, j)
    ensures Ref(blk, ip[n], INDIRECT + 1 + j) == 0 ==> FreedEntries(sb, blk, blk', owner, n, j + 1)
    ensures Ref(blk, ip[n], INDIRECT + 1 + j) != 0 ==>
              var b := Ref(blk, ip[n], INDIRECT + 1 + j);
              && b < sb.size && Used(sb, blk', b)
              && FreedEntries(sb, blk, ClearUsed(sb, blk', b), owner, n, j + 1)
  {
    assert Parts(0);
    var b, k := Ref(blk, ip[n], INDIRECT + 1 + j), INDIRECT + 1 + j;
    forall c | 0 <= c < sb.size ensures EntryBlock(owner, n, j + 1, c) <==>
      EntryBlock(owner, n, j, c) || (b != 0 && c == b) {
      if c in owner && owner[c] == (n, k) {
        assert Ref(blk, ip[n], k) == c;
      }
    }
    if b != 0 {
      ClearFrame(sb, blk', b);
    }
  }

  /** Without an indirect block there are no entries. */
  lemma NoEntries(sb: Superblock, blk: Blocks, ip: seq<Inode>, owner: Owner, n: nat)
    requires Owned(sb, blk, ip, owner, {}) && n < |ip| && ip[n].addrs[INDIRECT] == 0
    ensures forall b :: !EntryBlock(owner, n, NINDIRECT, b)
  {
    assert Parts(0);
    forall b | b in owner ensures !EntryBlock(owner, n, NINDIRECT, b) {
      assert Ref(blk, ip[owner[b].0], owner[b].1) == b;
    }
  }

  /** What is left when inode n has given up all its blocks. */
  ghost function Others(owner: Owner, n: nat): (r: Owner) {
    map b | b in owner && owner[b].0 != n :: owner[b]
  }

  function NoAddrs(ip: seq<Inode>, n: nat): (r: seq<Inode>)
    requires n < |ip|
  {
    ip[n := ip[n].(addrs := seq(NDIRECT + 1, _ => 0))]
  }

  /** No block is left to an inode without pointers. */
  lemma AllFreed(sb: Superblock, blk: Blocks, ip: seq<Inode>, owner: Owner, blk': Blocks, n: nat)
    requires Owned(sb, blk, ip, owner, {}) && n < |ip| && SameData(sb, blk, blk')
    requires forall k | 0 <= k < NDIRECT :: ip[n].addrs[k] == 0
    requires forall b | 0 <= b < sb.size ::
               Used(sb, blk', b) <==> Used(sb, blk, b) && !EntryBlock(owner, n, NINDIRECT, b)
                                      && !(ip[n].addrs[INDIRECT] != 0 && b == ip[n].addrs[INDIRECT])
    ensures Owned(sb, blk', NoAddrs(ip, n), Others(owner, n), {})
    ensures forall m, k | 0 <= m < |ip| && 0 <= k < SLOTS ::
              Ref(blk', NoAddrs(ip, n)[m], k) == if m == n then 0 else Ref(blk, ip[m], k)
  {
    assert Parts(0);
    var ip', owner', a := NoAddrs(ip, n), Others(owner, n), ip[n].addrs[INDIRECT];
    SameDataRefs(sb, blk, blk', ip, owner);
    forall m, k | 0 <= m < |ip| && 0 <= k < SLOTS
      ensures Ref(blk', ip'[m], k) == if m == n then 0 else Ref(blk, ip[m], k) {
      assert Ref(blk', ip[m], k) == Ref(blk, ip[m], k);
    }
    assert OwnersReal(sb, blk', ip', owner') by {
      forall c | c in owner' ensures Ref(blk', ip'[owner[c].0], owner[c].1) == c {
        assert Ref(blk, ip[owner[c].0], owner[c].1) == c;
      }
    }
    forall b | 0 <= b < sb.size ensures Used(sb, blk', b) <==> b < sb.datastart || b in owner' {
      assert Ref(blk, ip[n], INDIRECT) == a;
      if b in owner && owner[b].0 == n {
        assert Ref(blk, ip[n], owner[b].1) == b;
      }
    }
  }

  // ---------- log_write ----------

  type BlockWrites = seq<(nat, Block)>

  /** The block map after the given log_write calls. */
  function Redo(blk: Blocks, w: BlockWrites): (r: Blocks)
    ensures |r| == |blk|
  {
    if w == [] then blk
    else
      var last, r := w[|w| - 1], Redo(blk, w[..|w| - 1]);
      if last.0 < |r| then r[last.0 := last.1] else r
  }

  /** The blocks that the calls are for. */
  ghost function Touched(w: BlockWrites): (s: set<nat>) {
    set i | 0 <= i < |w| :: w[i].0
  }

  lemma TouchedMore(w: BlockWrites, x: nat, v: Block)
    ensures Touched(w + [(x, v)]) == Touched(w) + {x}
  {
    var w' := w + [(x, v)];
    assert x == w'[|w|].0;
    forall y | y in Touched(w) ensures y in Touched(w') {
      var i :| 0 <= i < |w| && w[i].0 == y;
      assert w'[i].0 == y;
    }
  }

  lemma {:induction false} SubsetSize(s: set<nat>, t: set<nat>)
    requires s <= t
    ensures |s| <= |t|
  {
    if s == {} {
    } else {
      var x :| x in s;
      SubsetSize(s - {x}, t - {x});
    }
  }

  lemma RedoMore(blk: Blocks, w: BlockWrites, x: nat, v: Block)
    requires x < |blk|
    ensures Redo(blk, w + [(x, v)]) == Redo(blk, w)[x := v]
  {
    assert (w + [(x, v)])[..|w|] == w;
  }
}
