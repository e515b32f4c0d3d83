/** How many blocks are free, and how many a write still needs. balloc panics when they run out. */
module Space {
  import opened Bytes
  import opened Files
  import opened Guards

  /** The free blocks below k. */
  function FreeBelow(sb: Superblock, blk: Blocks, k: nat): (n: nat)
    requires DiskOk(sb, blk) && k <= sb.size
  {
    if k == 0 then 0 else FreeBelow(sb, blk, k - 1) + if Used(sb, blk, k - 1) then 0 else 1
  }

  function FreeBlocks(sb: Superblock, blk: Blocks): (n: nat)
    requires DiskOk(sb, blk)
  {
    FreeBelow(sb, blk, sb.size)
  }

  /** The file blocks of [lo, hi) that have no block. */
  function DataMissing(blk: Blocks, ino: Inode, lo: nat, hi: nat): (n: nat)
    requires InodeOk(ino) && hi <= MAXFILE
    decreases hi
  {
    if hi <= lo then 0
    else DataMissing(blk, ino, lo, hi - 1) + if Ref(blk, ino, SlotOf(hi - 1)) == 0 then 1 else 0
  }

  /** The blocks that mapping all of [lo, hi) takes: those, and the indirect block if one of them needs it. */
  function Missing(blk: Blocks, ino: Inode, lo: nat, hi: nat): (n: nat)
    requires InodeOk(ino) && hi <= MAXFILE
  {
    DataMissing(blk, ino, lo, hi) + if lo < hi && hi > NDIRECT && Ref(blk, ino, INDIRECT) == 0 then 1 else 0
  }

  /** What is left when [lo, hi) has been mapped; negative if the free blocks do not suffice. */
  function Slack(sb: Superblock, blk: Blocks, ino: Inode, lo: nat, hi: nat): (n: int)
    requires DiskOk(sb, blk) && InodeOk(ino) && hi <= MAXFILE
  {
    FreeBlocks(sb, blk) - Missing(blk, ino, lo, hi)
  }

  /** No block is left. */
  ghost predicate AllUsed(sb: Superblock, blk: Blocks)
    requires DiskOk(sb, blk)
  {
    forall c | 0 <= c < sb.size :: Used(sb, blk, c)
  }

  lemma {:induction false} NoneFree(sb: Superblock, blk: Blocks, k: nat)
    requires DiskOk(sb, blk) && k <= sb.size && AllUsed(sb, blk)
    ensures FreeBelow(sb, blk, k) == 0
  {
    if k == 0 {
    } else {
      NoneFree(sb, blk, k - 1);
    }
  }

  /** One more block is marked. */
  lemma {:induction false} OneMarked(sb: Superblock, blk: Blocks, blk': Blocks, b: nat, k: nat)
    requires DiskOk(sb, blk) && DiskOk(sb, blk') && k <= sb.size && b < sb.size && !Used(sb, blk, b)
    requires forall c | 0 <= c < sb.size :: Used(sb, blk', c) <==> c == b || Used(sb, blk, c)
    ensures FreeBelow(sb, blk', k) == FreeBelow(sb, blk, k) - if b < k then 1 else 0
  {
    if k == 0 {
    } else {
      OneMarked(sb, blk, blk', b, k - 1);
    }
  }

  lemma {:induction false} SameMarks(sb: Superblock, blk: Blocks, blk': Blocks, k: nat)
    requires DiskOk(sb, blk) && DiskOk(sb, blk') && k <= sb.size
    requires forall c | 0 <= c < sb.size :: Used(sb, blk', c) == Used(sb, blk, c)
    ensures FreeBelow(sb, blk', k) == FreeBelow(sb, blk, k)
  {
    if k == 0 {
    } else {
      SameMarks(sb, blk, blk', k - 1);
    }
  }

  /** Pointer k is for a file block of [lo, hi). */
  predicate InRange(k: nat, lo: nat, hi: nat) {
    k != INDIRECT && lo <= (if k < INDIRECT then k else k - 1) < hi
  }

  /** Pointer k, which was not set, is set. */
  lemma {:induction false} OneMapped(blk: Blocks, ino: Inode, blk': Blocks, ino': Inode, k: nat, b: nat, lo: nat,
                                     hi: nat)
    requires InodeOk(ino) && InodeOk(ino') && hi <= MAXFILE && k < SLOTS && Ref(blk, ino, k) == 0 && b != 0
    requires forall j | 0 <= j < SLOTS :: Ref(blk', ino', j) == if j == k then b else Ref(blk, ino, j)
    ensures DataMissing(blk', ino', lo, hi) == DataMissing(blk, ino, lo, hi) - if InRange(k, lo, hi) then 1 else 0
    decreases hi
  {
    if hi <= lo {
    } else {
      OneMapped(blk, ino, blk', ino', k, b, lo, hi - 1);
    }
  }

  lemma {:induction false} SameMissing(blk: Blocks, ino: Inode, blk': Blocks, ino': Inode, lo: nat, hi: nat)
    requires InodeOk(ino) && InodeOk(ino') && hi <= MAXFILE
    requires forall j | 0 <= j < SLOTS :: Ref(blk', ino', j) == Ref(blk, ino, j)
    ensures DataMissing(blk', ino', lo, hi) == DataMissing(blk, ino, lo, hi)
    decreases hi
  {
    if hi <= lo {
    } else {
      SameMissing(blk, ino, blk', ino', lo, hi - 1);
    }
  }

  /** Nothing is missing exactly if every file block of the range is mapped. */
  lemma {:induction false} NoneMissing(blk: Blocks, ino: Inode, lo: nat, hi: nat)
    requires InodeOk(ino) && hi <= MAXFILE
    ensures Missing(blk, ino, lo, hi) == 0 <==> forall bn | lo <= bn < hi :: Ref(blk, ino, SlotOf(bn)) != 0
    decreases hi
  {
    if hi <= lo {
    } else {
      NoneMissing(blk, ino, lo, hi - 1);
      assert hi > NDIRECT && Ref(blk, ino, INDIRECT) == 0 ==> Ref(blk, ino, SlotOf(hi - 1)) == 0;
    }
  }

  /** For every range with file block bn in it, as many blocks were taken as are not missing any more. */
  ghost predicate Spent(sb: Superblock, blk: Blocks, ino: Inode, blk': Blocks, ino': Inode, bn: nat)
    requires DiskOk(sb, blk) && DiskOk(sb, blk') && InodeOk(ino) && InodeOk(ino')
  {
    forall x: nat | Parts(x) ::
      forall lo: nat, hi: nat | lo <= bn < hi <= MAXFILE :: Slack(sb, blk', ino', lo, hi) == Slack(sb, blk, ino, lo, hi)
  }

  /** A new block for bn itself, or for the indirect block if bn needs it. */
  lemma LinkSpent(sb: Superblock, blk: Blocks, ino: Inode, blk': Blocks, ino': Inode, k: nat, b: nat, bn: nat)
    requires DiskOk(sb, blk) && DiskOk(sb, blk') && InodeOk(ino) && InodeOk(ino') && bn < MAXFILE
    requires k == SlotOf(bn) || (k == INDIRECT && bn >= NDIRECT)
    requires Ref(blk, ino, k) == 0 && 0 < b < sb.size && !Used(sb, blk, b)
    requires forall j | 0 <= j < SLOTS :: Ref(blk', ino', j) == if j == k then b else Ref(blk, ino, j)
    requires forall c | 0 <= c < sb.size :: Used(sb, blk', c) <==> c == b || Used(sb, blk, c)
    ensures Spent(sb, blk, ino, blk', ino', bn)
  {
    OneMarked(sb, blk, blk', b, sb.size);
    forall lo: nat, hi: nat | lo <= bn < hi <= MAXFILE
      ensures Slack(sb, blk', ino', lo, hi) == Slack(sb, blk, ino, lo, hi)
    {
      OneMapped(blk, ino, blk', ino', k, b, lo, hi);
    }
  }

  lemma SpentTrans(sb: Superblock, blk: Blocks, ino: Inode, blk1: Blocks, ino1: Inode, blk2: Blocks, ino2: Inode,
                   bn: nat)
    requires DiskOk(sb, blk) && DiskOk(sb, blk1) && DiskOk(sb, blk2) && InodeOk(ino) && InodeOk(ino1) && InodeOk(ino2)
    requires Spent(sb, blk, ino, blk1, ino1, bn) && Spent(sb, blk1, ino1, blk2, ino2, bn)
    ensures Spent(sb, blk, ino, blk2, ino2, bn)
  {
    assert Parts(0);
  }

  /** With no block left, a file block without one is one too many. */
  lemma TooFew(sb: Superblock, blk: Blocks, ino: Inode, bn: nat, lo: nat, hi: nat)
    requires DiskOk(sb, blk) && InodeOk(ino) && lo <= bn < hi <= MAXFILE
    requires AllUsed(sb, blk) && Ref(blk, ino, SlotOf(bn)) == 0
    ensures Slack(sb, blk, ino, lo, hi) < 0
  {
    NoneFree(sb, blk, sb.size);
    NoneMissing(blk, ino, lo, hi);
  }

  /** So one file block can be had exactly if as many blocks are free as are missing for it. */
  lemma OneNeeded(sb: Superblock, blk: Blocks, ino: Inode, blk': Blocks, ino': Inode, bn: nat, got: bool)
    requires DiskOk(sb, blk) && DiskOk(sb, blk') && InodeOk(ino) && InodeOk(ino') && bn < MAXFILE
    requires Spent(sb, blk, ino, blk', ino', bn)
    requires if got then Ref(blk', ino', SlotOf(bn)) != 0 else AllUsed(sb, blk') && Ref(blk', ino', SlotOf(bn)) == 0
    ensures !got <==> FreeBlocks(sb, blk) < Missing(blk, ino, bn, bn + 1)
  {
    assert Slack(sb, blk', ino', bn, bn + 1) == Slack(sb, blk, ino, bn, bn + 1) by { assert Parts(0); }
    NoneMissing(blk', ino', bn, bn + 1);
    if !got {
      TooFew(sb, blk', ino', bn, bn, bn + 1);
    }
  }

  // ---------- a write ----------

  /** The end of the file blocks that n bytes at off touch; they begin with block off / BSIZE. */
  function EndBlock(off: nat, n: nat): (hi: nat)
    ensures off / BSIZE <= hi && (off + n <= MAXFILE * BSIZE ==> hi <= MAXFILE)
    ensures forall at: nat | off <= at < off + n :: off / BSIZE <= at / BSIZE < hi
  {
    if n == 0 then off / BSIZE else (off + n - 1) / BSIZE + 1
  }

  /** The blocks that writing n bytes at off takes. */
  function Needed(blk: Blocks, ino: Inode, off: nat, n: nat): (r: nat)
    requires InodeOk(ino) && off + n <= MAXFILE * BSIZE
  {
    Missing(blk, ino, off / BSIZE, EndBlock(off, n))
  }

  /** From one state to the other, as many blocks were taken as are not missing any more, in [lo, hi) and in every range
      around it. */
  ghost predicate SpentOver(sb: Superblock, blk: Blocks, ino: Inode, blk': Blocks, ino': Inode, lo: nat, hi: nat)
    requires DiskOk(sb, blk) && DiskOk(sb, blk') && InodeOk(ino) && InodeOk(ino')
  {
    forall x: nat | Parts(x) ::
      forall a: nat, b: nat | a <= lo && hi <= b <= MAXFILE :: Slack(sb, blk', ino', a, b) == Slack(sb, blk, ino, a, b)
  }

  /** The free blocks do not suffice for [lo, hi). */
  ghost predicate Short(sb: Superblock, blk: Blocks, ino: Inode, lo: nat, hi: nat)
    requires DiskOk(sb, blk) && InodeOk(ino) && hi <= MAXFILE
  {
    forall x: nat | Parts(x) :: FreeBlocks(sb, blk) < Missing(blk, ino, lo, hi)
  }

  lemma OverTrans(sb: Superblock, blk0: Blocks, ino0: Inode, blk: Blocks, ino: Inode, blk': Blocks, ino': Inode,
                  lo: nat, hi: nat)
    requires DiskOk(sb, blk0) && DiskOk(sb, blk) && DiskOk(sb, blk') && InodeOk(ino0) && InodeOk(ino) && InodeOk(ino')
    requires SpentOver(sb, blk0, ino0, blk, ino, lo, hi) && SpentOver(sb, blk, ino, blk', ino', lo, hi)
    ensures SpentOver(sb, blk0, ino0, blk', ino', lo, hi)
  {
    assert Parts(0);
  }

  lemma OverWiden(sb: Superblock, blk: Blocks, ino: Inode, blk': Blocks, ino': Inode, lo: nat, hi: nat, a: nat, b: nat)
    requires DiskOk(sb, blk) && DiskOk(sb, blk') && InodeOk(ino) && InodeOk(ino') && a <= lo && hi <= b
    requires SpentOver(sb, blk, ino, blk', ino', lo, hi)
    ensures SpentOver(sb, blk, ino, blk', ino', a, b)
  {
    assert Parts(0);
  }

  /** bmap for file block bn of the range; if it finds no block, there were too few. */
  lemma OverMore(sb: Superblock, blk0: Blocks, ino0: Inode, blk: Blocks, ino: Inode, blk': Blocks, ino': Inode, bn: nat,
                 lo: nat, hi: nat)
    requires DiskOk(sb, blk0) && DiskOk(sb, blk) && DiskOk(sb, blk') && InodeOk(ino0) && InodeOk(ino) && InodeOk(ino')
    requires SpentOver(sb, blk0, ino0, blk, ino, lo, hi) && Spent(sb, blk, ino, blk', ino', bn)
    requires lo <= bn < hi <= MAXFILE
    ensures SpentOver(sb, blk0, ino0, blk', ino', lo, hi)
    ensures AllUsed(sb, blk') && Ref(blk', ino', SlotOf(bn)) == 0 ==> Short(sb, blk0, ino0, lo, hi)
  {
    assert Parts(0);
    forall a: nat, b: nat | a <= lo && hi <= b <= MAXFILE
      ensures Slack(sb, blk', ino', a, b) == Slack(sb, blk0, ino0, a, b)
    {
      assert Slack(sb, blk', ino', a, b) == Slack(sb, blk, ino, a, b);
    }
    if AllUsed(sb, blk') && Ref(blk', ino', SlotOf(bn)) == 0 {
      TooFew(sb, blk', ino', bn, lo, hi);
      assert Slack(sb, blk', ino', lo, hi) == Slack(sb, blk0, ino0, lo, hi);
    }
  }

  /** Neither the marks nor the pointers of the inode have changed. */
  ghost predicate SameUse(sb: Superblock, blk: Blocks, ino: Inode, blk': Blocks, ino': Inode)
    requires DiskOk(sb, blk) && DiskOk(sb, blk') && InodeOk(ino) && InodeOk(ino')
  {
    forall x: nat | Parts(x) ::
      && (forall c | 0 <= c < sb.size :: Used(sb, blk', c) == Used(sb, blk, c))
      && (forall j | 0 <= j < SLOTS :: Ref(blk', ino', j) == Ref(blk, ino, j))
  }

  lemma OverSame(sb: Superblock, blk0: Blocks, ino0: Inode, blk: Blocks, ino: Inode, blk': Blocks, ino': Inode,
                 lo: nat, hi: nat)
    requires DiskOk(sb, blk0) && DiskOk(sb, blk) && DiskOk(sb, blk') && InodeOk(ino0) && InodeOk(ino) && InodeOk(ino')
    requires SpentOver(sb, blk0, ino0, blk, ino, lo, hi) && SameUse(sb, blk, ino, blk', ino')
    ensures SpentOver(sb, blk0, ino0, blk', ino', lo, hi) && FreeBlocks(sb, blk') == FreeBlocks(sb, blk)
  {
    assert Parts(0);
    SameMarks(sb, blk, blk', sb.size);
    forall a: nat, b: nat | a <= lo && hi <= b <= MAXFILE
      ensures Slack(sb, blk', ino', a, b) == Slack(sb, blk0, ino0, a, b)
    {
      assert Slack(sb, blk, ino, a, b) == Slack(sb, blk0, ino0, a, b);
      SameMissing(blk, ino, blk', ino', a, b);
    }
  }

  /** Such as bytes written to data block a. */
  lemma OverData(sb: Superblock, blk0: Blocks, ino0: Inode, blk: Blocks, ino: Inode, a: nat, v: Block, lo: nat, hi: nat)
    requires DiskOk(sb, blk0) && DiskOk(sb, blk) && InodeOk(ino0) && InodeOk(ino) && sb.datastart <= a < sb.size
    requires SpentOver(sb, blk0, ino0, blk, ino, lo, hi)
    requires forall j | 0 <= j < SLOTS :: Ref(blk[a := v], ino, j) == Ref(blk, ino, j)
    ensures SpentOver(sb, blk0, ino0, blk[a := v], ino, lo, hi)
  {
    forall c | 0 <= c < sb.size ensures Used(sb, blk[a := v], c) == Used(sb, blk, c) {
      DataWriteUsed(sb, blk, a, v, c);
    }
    OverSame(sb, blk0, ino0, blk, ino, blk[a := v], ino, lo, hi);
  }

  lemma ShortNeeds(sb: Superblock, blk: Blocks, ino: Inode, off: nat, n: nat)
    requires DiskOk(sb, blk) && InodeOk(ino) && off + n <= MAXFILE * BSIZE
    ensures Short(sb, blk, ino, off / BSIZE, EndBlock(off, n)) <==> FreeBlocks(sb, blk) < Needed(blk, ino, off, n)
  {
    assert Parts(0);
  }

  /** When all of the range is mapped, the free blocks did suffice, and exactly those that were missing are gone. */
  lemma OverDone(sb: Superblock, blk0: Blocks, ino0: Inode, blk: Blocks, ino: Inode, lo: nat, hi: nat)
    requires DiskOk(sb, blk0) && DiskOk(sb, blk) && InodeOk(ino0) && InodeOk(ino) && hi <= MAXFILE
    requires SpentOver(sb, blk0, ino0, blk, ino, lo, hi)
    requires forall bn | lo <= bn < hi :: Ref(blk, ino, SlotOf(bn)) != 0
    ensures !Short(sb, blk0, ino0, lo, hi)
    ensures FreeBlocks(sb, blk) == FreeBlocks(sb, blk0) - Missing(blk0, ino0, lo, hi)
  {
    NoneMissing(blk, ino, lo, hi);
    assert Parts(0);
    assert Slack(sb, blk, ino, lo, hi) == Slack(sb, blk0, ino0, lo, hi);
  }

  // ---------- a write in pieces ----------

  lemma {:induction false} MissingMore(blk: Blocks, ino: Inode, lo: nat, hi: nat, a: nat, b: nat)
    requires InodeOk(ino) && a <= lo && hi <= b <= MAXFILE
    ensures Missing(blk, ino, lo, hi) <= Missing(blk, ino, a, b)
    decreases b
  {
    if b <= a {
    } else if hi < b {
      MissingMore(blk, ino, lo, hi, a, b - 1);
    } else if lo < hi {
      MissingMore(blk, ino, lo, hi - 1, a, b - 1);
    }
  }

  /** The bytes from i to j lie among the first m. */
  lemma PieceRange(off: nat, i: nat, j: nat, m: nat)
    requires i < j <= m
    ensures off / BSIZE <= (off + i) / BSIZE && EndBlock(off + i, j - i) <= EndBlock(off, m)
  {}

  lemma PieceSpent(sb: Superblock, blk0: Blocks, ino0: Inode, blk: Blocks, ino: Inode, blk': Blocks, ino': Inode,
                   off: nat, i: nat, j: nat, m: nat)
    requires DiskOk(sb, blk0) && DiskOk(sb, blk) && DiskOk(sb, blk') && InodeOk(ino0) && InodeOk(ino) && InodeOk(ino')
    requires i < j <= m && SpentOver(sb, blk0, ino0, blk, ino, off / BSIZE, EndBlock(off, m))
    requires SpentOver(sb, blk, ino, blk', ino', (off + i) / BSIZE, EndBlock(off + i, j - i))
    ensures SpentOver(sb, blk0, ino0, blk', ino', off / BSIZE, EndBlock(off, m))
  {
    var lo, hi := off / BSIZE, EndBlock(off, m);
    PieceRange(off, i, j, m);
    OverWiden(sb, blk, ino, blk', ino', (off + i) / BSIZE, EndBlock(off + i, j - i), lo, hi);
    OverTrans(sb, blk0, ino0, blk, ino, blk', ino', lo, hi);
  }

  /** If a piece finds too few blocks, there were too few for all. */
  lemma PieceShort(sb: Superblock, blk0: Blocks, ino0: Inode, blk: Blocks, ino: Inode, off: nat, i: nat, j: nat, m: nat)
    requires DiskOk(sb, blk0) && DiskOk(sb, blk) && InodeOk(ino0) && InodeOk(ino)
    requires i < j <= m && off + m <= MAXFILE * BSIZE
    requires SpentOver(sb, blk0, ino0, blk, ino, off / BSIZE, EndBlock(off, m))
    requires FreeBlocks(sb, blk) < Needed(blk, ino, off + i, j - i)
    ensures FreeBlocks(sb, blk0) < Needed(blk0, ino0, off, m)
  {
    var lo, hi := off / BSIZE, EndBlock(off, m);
    PieceRange(off, i, j, m);
    MissingMore(blk, ino, (off + i) / BSIZE, EndBlock(off + i, j - i), lo, hi);
    assert Parts(0);
    assert Slack(sb, blk, ino, lo, hi) == Slack(sb, blk0, ino0, lo, hi);
  }
}
